/** The spacing and colour shorthands of an `sx` block, shared by both Box
    variants: the ten single-side spacing keys, the four two-side axis keys
    and `bgcolor`. */
module Shorthands {
  import opened Props

  /** `spacingMap`: each single-side spacing shorthand and its CSS property. */
  const SpacingMap: map<string, string> := map[
    "p" := "padding", "pt" := "paddingTop", "pr" := "paddingRight",
    "pb" := "paddingBottom", "pl" := "paddingLeft",
    "m" := "margin", "mt" := "marginTop", "mr" := "marginRight",
    "mb" := "marginBottom", "ml" := "marginLeft"]

  /** The shorthands that set two sides at once. */
  const AxisKeys: set<string> := {"px", "py", "mx", "my"}

  /** Every shorthand key of an `sx` block: the keys of `SpacingMap`, the
      axis keys and `bgcolor` (see `ShorthandKeysOf`). */
  const ShorthandKeys: set<string> := {
    "p", "pt", "pr", "pb", "pl", "m", "mt", "mr", "mb", "ml",
    "px", "py", "mx", "my", "bgcolor"}

  /** The CSS properties the spacing shorthands stand for. */
  const SpacingProperties: set<string> := {
    "padding", "paddingTop", "paddingRight", "paddingBottom", "paddingLeft",
    "margin", "marginTop", "marginRight", "marginBottom", "marginLeft"}

  /** The shorthand `spacingMap` renames to a spacing property. */
  function ShortFor(prop: string): string
  {
    match prop
    case "padding" => "p"
    case "margin" => "m"
    case "paddingLeft" => "pl"
    case "paddingRight" => "pr"
    case "paddingTop" => "pt"
    case "paddingBottom" => "pb"
    case "marginLeft" => "ml"
    case "marginRight" => "mr"
    case "marginTop" => "mt"
    case "marginBottom" => "mb"
    case _ => prop
  }

  /** The keys the entry loop of either resolver skips because the fan-out
      step has already dealt with them. */
  predicate Handled(key: string)
  {
    key == "bgcolor" || key in AxisKeys
  }

  /** `key.startsWith("&")`: a nested selector block such as `&:hover`. */
  predicate IsSelector(key: string)
  {
    |key| > 0 && key[0] == '&'
  }

  /** The axis shorthand that fans out to a given side property, if any. */
  function AxisOf(side: string): Option<string>
  {
    if side == "paddingLeft" || side == "paddingRight" then Some("px")
    else if side == "paddingTop" || side == "paddingBottom" then Some("py")
    else if side == "marginLeft" || side == "marginRight" then Some("mx")
    else if side == "marginTop" || side == "marginBottom" then Some("my")
    else None
  }

  /** `spacingMap` renames a shorthand to a spacing property, and `ShortFor`
      undoes the renaming. */
  lemma SpacingTarget(s: string)
    requires s in SpacingMap
    ensures SpacingMap[s] in SpacingProperties && !Handled(s) && !IsSelector(s)
    ensures s == ShortFor(SpacingMap[s])
  {
  }

  /** A spacing property is neither a shorthand, a selector nor `backgroundColor`. */
  lemma SpacingProperty(p: string)
    requires p in SpacingProperties
    ensures p !in ShorthandKeys && !IsSelector(p) && p != "backgroundColor"
    ensures p !in SpacingMap && !Handled(p)
  {
  }

  /** The shorthand keys are exactly the keys the resolvers rename or fan out. */
  lemma ShorthandKeysOf(k: string)
    ensures k in ShorthandKeys <==> k in SpacingMap || Handled(k)
  {
  }

  /** A shorthand key is not a property the fan-out step sets, nor a selector. */
  lemma ShorthandKey(k: string)
    requires k in ShorthandKeys
    ensures k != "backgroundColor" && AxisOf(k) == None && !IsSelector(k) && k !in SpacingProperties
  {
  }

  /** A selector is neither a shorthand nor a property the fan-out step sets. */
  lemma SelectorKey(k: string)
    requires IsSelector(k)
    ensures k !in ShorthandKeys && k !in SpacingProperties && k != "backgroundColor" && AxisOf(k) == None
    ensures k !in SpacingMap && !Handled(k)
  {
  }

  /** Each spacing property is the renaming of its shorthand `ShortFor`. */
  lemma ShortForOf(prop: string)
    requires prop in SpacingProperties
    ensures ShortFor(prop) in SpacingMap && SpacingMap[ShortFor(prop)] == prop
  {
  }

  /** The sides the axis shorthands set are spacing properties. */
  lemma AxisSide(side: string)
    requires AxisOf(side).Some?
    ensures side in SpacingProperties
  {
  }

  /** `if (sx[ax] !== undefined) { styles[first] = sx[ax]; styles[second] = sx[ax]; }` */
  function AxisWrites(sx: Bag, ax: string, first: string, second: string): seq<Write>
  {
    var v := Get(sx, ax);
    if v != Undef then [Some((first, v)), Some((second, v))] else [None, None]
  }

  /** `if (sx.bgcolor) styles.backgroundColor = sx.bgcolor`. */
  function ColorWrite(sx: Bag): Write
  {
    if Truthy(Get(sx, "bgcolor")) then Some(("backgroundColor", Get(sx, "bgcolor"))) else None
  }

  /** The assignments made before the entry loop, in source order. */
  function PreWrites(sx: Bag): seq<Write>
  {
    AxisWrites(sx, "px", "paddingLeft", "paddingRight")
    + AxisWrites(sx, "py", "paddingTop", "paddingBottom")
    + AxisWrites(sx, "mx", "marginLeft", "marginRight")
    + AxisWrites(sx, "my", "marginTop", "marginBottom")
    + [ColorWrite(sx)]
  }

  /** What the fan-out step leaves under `k`, stated from the side of the
      output key: a side property holds its axis shorthand's value when that
      is not undefined, `backgroundColor` holds a truthy `bgcolor`, and no
      other key is touched. */
  function FannedValue(sx: Bag, k: string): Option<Val>
  {
    if k == "backgroundColor" then
      if Truthy(Get(sx, "bgcolor")) then Some(Get(sx, "bgcolor")) else None
    else
      match AxisOf(k)
      case Some(ax) => if Get(sx, ax) != Undef then Some(Get(sx, ax)) else None
      case None => None
  }

  lemma PreWritesLast(sx: Bag, k: string)
    ensures LastWrite(PreWrites(sx), k) == FannedValue(sx, k)
  {
    var a := AxisWrites(sx, "px", "paddingLeft", "paddingRight");
    var b := AxisWrites(sx, "py", "paddingTop", "paddingBottom");
    var c := AxisWrites(sx, "mx", "marginLeft", "marginRight");
    var d := AxisWrites(sx, "my", "marginTop", "marginBottom");
    var e := [ColorWrite(sx)];
    AxisLast(sx, "px", "paddingLeft", "paddingRight", k);
    AxisLast(sx, "py", "paddingTop", "paddingBottom", k);
    AxisLast(sx, "mx", "marginLeft", "marginRight", k);
    AxisLast(sx, "my", "marginTop", "marginBottom", k);
    assert e[..0] == [];
    LastWriteConcat(a, b, k);
    LastWriteConcat(a + b, c, k);
    LastWriteConcat(a + b + c, d, k);
    LastWriteConcat(a + b + c + d, e, k);
    assert LastWrite(e, k)
        == if k == "backgroundColor" && Truthy(Get(sx, "bgcolor")) then Some(Get(sx, "bgcolor")) else None;
    if k == "backgroundColor" {
      assert |k| == 15;
    } else if k == "paddingLeft" || k == "paddingRight" {
      assert k[0] == 'p' && (|k| == 11 || |k| == 12);
    } else if k == "paddingTop" || k == "paddingBottom" {
      assert k[0] == 'p' && (|k| == 10 || |k| == 13);
    } else if k == "marginLeft" || k == "marginRight" {
      assert k[0] == 'm' && (|k| == 10 || |k| == 11);
    } else if k == "marginTop" || k == "marginBottom" {
      assert k[0] == 'm' && (|k| == 9 || |k| == 12);
    }
  }

  /** The last assignment to `k` an axis shorthand makes. */
  lemma AxisLast(sx: Bag, ax: string, first: string, second: string, k: string)
    ensures LastWrite(AxisWrites(sx, ax, first, second), k)
         == if (k == first || k == second) && Get(sx, ax) != Undef then Some(Get(sx, ax)) else None
  {
    var a := AxisWrites(sx, ax, first, second);
    LastWritePair(a[0], a[1], k);
  }

  /** `PreWrites` performed one assignment at a time. */
  lemma PreWritesUnfold(sx: Bag)
    ensures ApplyWrites([], PreWrites(sx))
         == var a := AxisWrites(sx, "px", "paddingLeft", "paddingRight");
            var b := AxisWrites(sx, "py", "paddingTop", "paddingBottom");
            var c := AxisWrites(sx, "mx", "marginLeft", "marginRight");
            var d := AxisWrites(sx, "my", "marginTop", "marginBottom");
            var s1 := Apply(Apply([], a[0]), a[1]);
            var s2 := Apply(Apply(s1, b[0]), b[1]);
            var s3 := Apply(Apply(s2, c[0]), c[1]);
            var s4 := Apply(Apply(s3, d[0]), d[1]);
            Apply(s4, ColorWrite(sx))
  {
    var a := AxisWrites(sx, "px", "paddingLeft", "paddingRight");
    var b := AxisWrites(sx, "py", "paddingTop", "paddingBottom");
    var c := AxisWrites(sx, "mx", "marginLeft", "marginRight");
    var d := AxisWrites(sx, "my", "marginTop", "marginBottom");
    ApplyWritesConcat([], a + b + c + d, [ColorWrite(sx)]);
    ApplyWritesConcat([], a + b + c, d);
    ApplyWritesConcat([], a + b, c);
    ApplyWritesConcat([], a, b);
    ApplyWritesPair([], a[0], a[1]);
    ApplyWritesPair(ApplyWrites([], a), b[0], b[1]);
    ApplyWritesPair(ApplyWrites([], a + b), c[0], c[1]);
    ApplyWritesPair(ApplyWrites([], a + b + c), d[0], d[1]);
    ApplyWritesSnoc(ApplyWrites([], a + b + c + d), [], ColorWrite(sx));
    assert [] + [ColorWrite(sx)] == [ColorWrite(sx)];
    assert a == [a[0], a[1]] && b == [b[0], b[1]] && c == [c[0], c[1]] && d == [d[0], d[1]];
  }

  /** Every fan-out assignment sets a side property or `backgroundColor` to
      the value, never undefined, of one of the five two-side or colour
      shorthands. */
  lemma PreWritesEntry(sx: Bag, j: int)
    requires 0 <= j < |PreWrites(sx)| && PreWrites(sx)[j].Some?
    ensures var (k, v) := PreWrites(sx)[j].value;
            k !in ShorthandKeys && !IsSelector(k) && v != Undef
            && (v == Get(sx, "px") || v == Get(sx, "py") || v == Get(sx, "mx")
                || v == Get(sx, "my") || v == Get(sx, "bgcolor"))
  {
    var a := AxisWrites(sx, "px", "paddingLeft", "paddingRight");
    var b := AxisWrites(sx, "py", "paddingTop", "paddingBottom");
    var c := AxisWrites(sx, "mx", "marginLeft", "marginRight");
    var d := AxisWrites(sx, "my", "marginTop", "marginBottom");
    assert PreWrites(sx) == [a[0], a[1], b[0], b[1], c[0], c[1], d[0], d[1], ColorWrite(sx)];
    var k := PreWrites(sx)[j].value.0;
    if j < 8 {
      assert k in SpacingProperties;
      SpacingProperty(k);
    }
  }

  /** With `px` the only one of the five shorthands set, the fan-out step
      yields the left and then the right padding, both holding its value. */
  lemma FanOutPx(sx: Bag)
    requires Get(sx, "px") != Undef && Get(sx, "py") == Undef
    requires Get(sx, "mx") == Undef && Get(sx, "my") == Undef && !Truthy(Get(sx, "bgcolor"))
    ensures ApplyWrites([], PreWrites(sx))
         == [("paddingLeft", Get(sx, "px")), ("paddingRight", Get(sx, "px"))]
  {
    var v := Get(sx, "px");
    PreWritesUnfold(sx);
    var one := Put([], "paddingLeft", v);
    assert one == [("paddingLeft", v)];
    assert "paddingLeft"[7] != "paddingRight"[7];
    assert Put(one, "paddingRight", v) == [("paddingLeft", v)] + Put([], "paddingRight", v);
  }

  /** With none of the five shorthands set, the fan-out step assigns nothing. */
  lemma PreWritesNone(sx: Bag)
    requires Get(sx, "px") == Undef && Get(sx, "py") == Undef
    requires Get(sx, "mx") == Undef && Get(sx, "my") == Undef && Get(sx, "bgcolor") == Undef
    ensures forall j :: 0 <= j < |PreWrites(sx)| ==> PreWrites(sx)[j] == None
  {
    assert PreWrites(sx) == [None, None, None, None, None, None, None, None, None];
  }

  /** The fan-out step of `sxToCSS` and `sxToStyle`: the axis shorthands and
      `bgcolor`, assigned onto a fresh record before the entry loop runs. */
  method FanOut(sx: Bag) returns (styles: Bag)
    ensures styles == ApplyWrites([], PreWrites(sx))
  {
    styles := [];
    var px := Get(sx, "px");
    if px != Undef {
      styles := Put(styles, "paddingLeft", px);
      styles := Put(styles, "paddingRight", px);
    }
    var py := Get(sx, "py");
    if py != Undef {
      styles := Put(styles, "paddingTop", py);
      styles := Put(styles, "paddingBottom", py);
    }
    var mx := Get(sx, "mx");
    if mx != Undef {
      styles := Put(styles, "marginLeft", mx);
      styles := Put(styles, "marginRight", mx);
    }
    var my := Get(sx, "my");
    if my != Undef {
      styles := Put(styles, "marginTop", my);
      styles := Put(styles, "marginBottom", my);
    }
    var bgcolor := Get(sx, "bgcolor");
    if Truthy(bgcolor) {
      styles := Put(styles, "backgroundColor", bgcolor);
    }
    PreWritesUnfold(sx);
  }
}
