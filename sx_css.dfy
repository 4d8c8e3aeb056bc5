/** `sxToCSS` of the styled Box: resolves an `sx` block, with its spacing
    and colour shorthands and its nested `&` selector blocks, into one style
    record. */
module SxCss {
  import opened Props
  import opened Shorthands

  /** What the entry loop assigns for one entry `[key, value]` of `sx`:
      undefined values and the already fanned-out keys are skipped, a
      selector holding an object is resolved recursively, a single-side
      shorthand is renamed, any other non-object is copied, and any other
      object is dropped. */
  function CssWrite(key: string, value: Val): Write
    decreases value, if value.Obj? then |value.entries| + 2 else 0
  {
    if value == Undef || Handled(key) then None
    else if IsSelector(key) && value.Obj? then Some((key, Obj(ResolveCss(value.entries))))
    else if key in SpacingMap then Some((SpacingMap[key], value))
    else if !value.Obj? then Some((key, value))
    else None
  }

  /** The loop's assignments for the first `n` entries, in entry order. */
  function CssWrites(sx: Bag, n: nat): (ws: seq<Write>)
    requires n <= |sx|
    ensures |ws| == n
    ensures forall j :: 0 <= j < n ==> ws[j] == CssWrite(sx[j].0, sx[j].1)
    decreases Obj(sx), n
  {
    if n == 0 then []
    else CssWrites(sx, n - 1) + [CssWrite(sx[n - 1].0, sx[n - 1].1)]
  }

  /** The record `sxToCSS` hands to `css()`: the fan-out assignments, then
      the entry loop's assignments, on an empty record. */
  function ResolveCss(sx: Bag): Bag
    decreases Obj(sx), |sx| + 1
  {
    ApplyWrites([], PreWrites(sx) + CssWrites(sx, |sx|))
  }

  /** `sxToCSS`, step by step as the source does it. */
  method SxToCss(sx: Bag) returns (styles: Bag)
    ensures styles == ResolveCss(sx)
    decreases Obj(sx)
  {
    styles := FanOut(sx);
    assert PreWrites(sx) + CssWrites(sx, 0) == PreWrites(sx);
    for i := 0 to |sx|
      invariant styles == ApplyWrites([], PreWrites(sx) + CssWrites(sx, i))
    {
      var (key, value) := sx[i];
      assert sx[i] in sx;
      ghost var before, w := styles, CssWrite(key, value);
      if value == Undef {
        assert w == None;
      } else if key == "bgcolor" || key in AxisKeys {
        assert w == None;
      } else if IsSelector(key) && value.Obj? {
        var nested := SxToCss(value.entries);
        assert w == Some((key, Obj(nested)));
        styles := Put(styles, key, Obj(nested));
      } else if key in SpacingMap {
        assert w == Some((SpacingMap[key], value));
        styles := Put(styles, SpacingMap[key], value);
      } else if !value.Obj? {
        assert w == Some((key, value));
        styles := Put(styles, key, value);
      } else {
        assert w == None;
      }
      assert styles == Apply(before, w);
      CssStep(sx, i);
    }
  }

  /** One more entry of the loop is one more assignment. */
  lemma CssStep(sx: Bag, i: nat)
    requires i < |sx|
    ensures ApplyWrites([], PreWrites(sx) + CssWrites(sx, i + 1))
         == Apply(ApplyWrites([], PreWrites(sx) + CssWrites(sx, i)), CssWrite(sx[i].0, sx[i].1))
  {
    var w := CssWrite(sx[i].0, sx[i].1);
    ApplyWritesSnoc([], PreWrites(sx) + CssWrites(sx, i), w);
    assert PreWrites(sx) + CssWrites(sx, i + 1) == (PreWrites(sx) + CssWrites(sx, i)) + [w];
  }

  // ---------------------------------------------------------------------
  // What the resolved record holds, key by key

  /** The value under `k` is the entry loop's last assignment to `k`, and
      otherwise what the fan-out step left there. */
  lemma CssFind(sx: Bag, k: string)
    ensures Find(ResolveCss(sx), k)
         == (var w := LastWrite(CssWrites(sx, |sx|), k);
             if w.Some? then w else FannedValue(sx, k))
  {
    FindAfterWrites([], PreWrites(sx) + CssWrites(sx, |sx|), k);
    LastWriteConcat(PreWrites(sx), CssWrites(sx, |sx|), k);
    PreWritesLast(sx, k);
  }
  /** When the entry loop assigns `k`, its last assignment is what `k` holds. */
  lemma CssLast(sx: Bag, k: string, v: Val)
    requires LastWrite(CssWrites(sx, |sx|), k) == Some(v)
    ensures Find(ResolveCss(sx), k) == Some(v)
  {
    CssFind(sx, k);
  }


  /** Only the entry named `k` itself, or a single-side shorthand renamed to
      `k`, can assign `k` in the entry loop. */
  lemma CssWriteTarget(key: string, value: Val, k: string)
    requires Writes(CssWrite(key, value), k)
    ensures key !in SpacingMap ==> key == k
    ensures key in SpacingMap ==> SpacingMap[key] == k && k in SpacingProperties && key == ShortFor(k)
  {
    if key in SpacingMap {
      SpacingTarget(key);
    }
  }

  /** An entry under another key assigns `k` only when `k` is a spacing
      property. */
  lemma CssWriteOther(key: string, value: Val, k: string)
    requires k !in SpacingProperties && key != k
    ensures !Writes(CssWrite(key, value), k)
  {
    if Writes(CssWrite(key, value), k) {
      CssWriteTarget(key, value, k);
    }
  }

  /** A key no shorthand is renamed to holds what its own entry assigns,
      and otherwise what the fan-out step left there. */
  lemma CssOwn(sx: Bag, k: string)
    requires DistinctKeys(sx) && k !in SpacingProperties
    ensures Find(ResolveCss(sx), k)
         == (var w := CssWrite(k, Get(sx, k));
             if Writes(w, k) then Some(w.value.1) else FannedValue(sx, k))
  {
    var ws := CssWrites(sx, |sx|);
    CssFind(sx, k);
    FindKeys(sx, k);
    if k in KeySet(sx) {
      var i := EntryIndex(sx, k);
      FindEntry(sx, i);
      assert ws[i] == CssWrite(k, Get(sx, k));
      forall j | i < j < |sx| ensures !Writes(ws[j], k) {
        assert sx[i].0 != sx[j].0;
        CssWriteOther(sx[j].0, sx[j].1, k);
      }
      if Writes(ws[i], k) {
        LastWriteAt(ws, i, k, ws[i].value.1);
      } else {
        forall j | 0 <= j < |sx| ensures !Writes(ws[j], k) {
          if j != i {
            assert sx[i].0 != sx[j].0;
            CssWriteOther(sx[j].0, sx[j].1, k);
          }
        }
        LastWriteNone(ws, k);
      }
    } else {
      forall j | 0 <= j < |sx| ensures !Writes(ws[j], k) {
        assert sx[j] in sx;
        CssWriteOther(sx[j].0, sx[j].1, k);
      }
      LastWriteNone(ws, k);
    }
  }

  /** A key that is neither a shorthand, a spacing property nor a selector
      is copied exactly when its value is a string or a number; otherwise
      only the fan-out step can have set it. */
  lemma CssPlain(sx: Bag, k: string)
    requires DistinctKeys(sx)
    requires k !in ShorthandKeys && k !in SpacingProperties && !IsSelector(k)
    ensures Find(ResolveCss(sx), k)
         == if IsScalar(Get(sx, k)) then Some(Get(sx, k)) else FannedValue(sx, k)
  {
    ShorthandKeysOf(k);
    CssOwn(sx, k);
  }

  /** `bgcolor` fills `backgroundColor` when truthy, and an explicit
      string or number `backgroundColor` wins over it in either order. */
  lemma CssColor(sx: Bag)
    requires DistinctKeys(sx)
    ensures Find(ResolveCss(sx), "backgroundColor")
         == if IsScalar(Get(sx, "backgroundColor")) then Some(Get(sx, "backgroundColor"))
            else if Truthy(Get(sx, "bgcolor")) then Some(Get(sx, "bgcolor"))
            else None
  {
    CssPlain(sx, "backgroundColor");
  }

  /** A single-side shorthand that is set wins over the axis shorthand
      covering the same side, in either order; only an explicit string or
      number under the long property name can displace it. */
  lemma CssSpacing(sx: Bag, s: string)
    requires DistinctKeys(sx)
    requires s in SpacingMap && Get(sx, s) != Undef
    requires !IsScalar(Get(sx, SpacingMap[s]))
    ensures Find(ResolveCss(sx), SpacingMap[s]) == Some(Get(sx, s))
  {
    var ws := CssWrites(sx, |sx|);
    var p := SpacingMap[s];
    SpacingTarget(s);
    SpacingProperty(p);
    FindKeys(sx, s);
    var i := EntryIndex(sx, s);
    FindEntry(sx, i);
    forall j | i < j < |sx| ensures !Writes(ws[j], p) {
      if Writes(ws[j], p) {
        assert sx[i].0 != sx[j].0;
        CssWriteTarget(sx[j].0, sx[j].1, p);
        if sx[j].0 !in SpacingMap {
          FindEntry(sx, j);
        }
      }
    }
    LastWriteAt(ws, i, p, sx[i].1);
    CssLast(sx, p, sx[i].1);
  }

  /** A string or number given under a spacing property's own name wins
      over the axis shorthand covering it, in either order, when the
      property's single shorthand is not set. */
  lemma CssLongForm(sx: Bag, prop: string)
    requires DistinctKeys(sx)
    requires prop in SpacingProperties && IsScalar(Get(sx, prop))
    requires Get(sx, ShortFor(prop)) == Undef
    ensures Find(ResolveCss(sx), prop) == Some(Get(sx, prop))
  {
    var ws := CssWrites(sx, |sx|);
    SpacingProperty(prop);
    ShortForOf(prop);
    FindKeys(sx, prop);
    var i := EntryIndex(sx, prop);
    FindEntry(sx, i);
    forall j | i < j < |sx| ensures !Writes(ws[j], prop) {
      assert sx[i].0 != sx[j].0;
      if Writes(ws[j], prop) {
        CssWriteTarget(sx[j].0, sx[j].1, prop);
        FindEntry(sx, j);
      }
    }
    assert ws[i] == CssWrite(prop, sx[i].1) == Some((prop, sx[i].1));
    LastWriteAt(ws, i, prop, sx[i].1);
    CssLast(sx, prop, sx[i].1);
  }

  /** An axis shorthand that is set fills both of its sides, unless the
      side's own shorthand is set or the side is given a string or number
      directly. */
  lemma CssAxis(sx: Bag, side: string, ax: string)
    requires DistinctKeys(sx)
    requires AxisOf(side) == Some(ax) && Get(sx, ax) != Undef
    requires Get(sx, ShortFor(side)) == Undef && !IsScalar(Get(sx, side))
    ensures Find(ResolveCss(sx), side) == Some(Get(sx, ax))
  {
    var ws := CssWrites(sx, |sx|);
    AxisSide(side);
    ShortForOf(side);
    SpacingProperty(side);
    CssFind(sx, side);
    forall j | 0 <= j < |sx| ensures !Writes(ws[j], side) {
      if Writes(ws[j], side) {
        CssWriteTarget(sx[j].0, sx[j].1, side);
        FindEntry(sx, j);
      }
    }
    LastWriteNone(ws, side);
  }

  /** No shorthand key survives resolution. */
  lemma CssNoShorthands(sx: Bag, k: string)
    requires k in ShorthandKeys
    ensures Find(ResolveCss(sx), k) == None
  {
    var ws := CssWrites(sx, |sx|);
    CssFind(sx, k);
    ShorthandKey(k);
    forall j | 0 <= j < |sx| ensures !Writes(ws[j], k) {
      if Writes(ws[j], k) {
        CssWriteTarget(sx[j].0, sx[j].1, k);
      }
    }
    LastWriteNone(ws, k);
  }

  /** A selector block is resolved recursively, with the same rules at every
      depth; a selector holding a string or number is copied as it is. */
  lemma CssNested(sx: Bag, k: string)
    requires DistinctKeys(sx) && IsSelector(k)
    ensures Find(ResolveCss(sx), k)
         == match Get(sx, k)
            case Obj(e) => Some(Obj(ResolveCss(e)))
            case Undef => None
            case v => Some(v)
  {
    SelectorKey(k);
    CssOwn(sx, k);
  }

  /** `{ px: 4, pl: 1 }` resolves to `{ paddingLeft: 1, paddingRight: 4 }`:
      `pl` overrides the left side in place. */
  lemma AxisExample()
    ensures ResolveCss([("px", Num(4)), ("pl", Num(1))])
         == [("paddingLeft", Num(1)), ("paddingRight", Num(4))]
  {
    var sx := [("px", Num(4)), ("pl", Num(1))];
    assert Get(sx, "px") == Num(4);
    assert Get(sx, "py") == Undef && Get(sx, "mx") == Undef;
    assert Get(sx, "my") == Undef && Get(sx, "bgcolor") == Undef;
    FanOutPx(sx);
    var fanned := [("paddingLeft", Num(4)), ("paddingRight", Num(4))];
    var ws := CssWrites(sx, 2);
    assert ws == [None, Some(("paddingLeft", Num(1)))];
    ApplyWritesConcat([], PreWrites(sx), ws);
    ApplyWritesPair(fanned, ws[0], ws[1]);
    assert Put(fanned, "paddingLeft", Num(1)) == [("paddingLeft", Num(1))] + fanned[1..];
  }

  /** `pl` and an explicit `paddingLeft` compete, and the later entry wins:
      `{ pl: 1, paddingLeft: 2 }` gives 2 and `{ paddingLeft: 2, pl: 1 }`
      gives 1. */
  lemma LongFormAfterShorthand()
    ensures Find(ResolveCss([("pl", Num(1)), ("paddingLeft", Num(2))]), "paddingLeft") == Some(Num(2))
    ensures Find(ResolveCss([("paddingLeft", Num(2)), ("pl", Num(1))]), "paddingLeft") == Some(Num(1))
  {
    var a := [("pl", Num(1)), ("paddingLeft", Num(2))];
    var b := [("paddingLeft", Num(2)), ("pl", Num(1))];
    SpacingTarget("pl");
    SpacingProperty("paddingLeft");
    assert !Handled("pl") && !IsSelector("pl");
    assert CssWrites(a, 2) == [Some(("paddingLeft", Num(1))), Some(("paddingLeft", Num(2)))];
    assert CssWrites(b, 2) == [Some(("paddingLeft", Num(2))), Some(("paddingLeft", Num(1)))];
    LastWriteAt(CssWrites(a, 2), 1, "paddingLeft", Num(2));
    LastWriteAt(CssWrites(b, 2), 1, "paddingLeft", Num(1));
    CssLast(a, "paddingLeft", Num(2));
    CssLast(b, "paddingLeft", Num(1));
  }

  /** `p` and an explicit `padding` compete in the same way: `{ p: 1,
      padding: 2 }` gives 2 and `{ padding: 2, p: 1 }` gives 1. */
  lemma PaddingAfterShorthand()
    ensures Find(ResolveCss([("p", Num(1)), ("padding", Num(2))]), "padding") == Some(Num(2))
    ensures Find(ResolveCss([("padding", Num(2)), ("p", Num(1))]), "padding") == Some(Num(1))
  {
    var a := [("p", Num(1)), ("padding", Num(2))];
    var b := [("padding", Num(2)), ("p", Num(1))];
    SpacingTarget("p");
    SpacingProperty("padding");
    assert CssWrites(a, 2) == [Some(("padding", Num(1))), Some(("padding", Num(2)))];
    assert CssWrites(b, 2) == [Some(("padding", Num(2))), Some(("padding", Num(1)))];
    LastWriteAt(CssWrites(a, 2), 1, "padding", Num(2));
    LastWriteAt(CssWrites(b, 2), 1, "padding", Num(1));
    CssLast(a, "padding", Num(2));
    CssLast(b, "padding", Num(1));
  }

  /** `{ bgcolor: "red" }` resolves to `{ backgroundColor: "red" }`. */
  lemma ColorExample()
    ensures ResolveCss([("bgcolor", Str("red"))]) == [("backgroundColor", Str("red"))]
  {
    var sx := [("bgcolor", Str("red"))];
    assert Get(sx, "bgcolor") == Str("red");
    assert Get(sx, "px") == Undef && Get(sx, "py") == Undef && Get(sx, "mx") == Undef;
    assert Get(sx, "my") == Undef;
    assert CssWrites(sx, 1) == [None];
    PreWritesUnfold(sx);
    ApplyWritesConcat([], PreWrites(sx), CssWrites(sx, 1));
    ApplyNoWrites([("backgroundColor", Str("red"))], CssWrites(sx, 1));
  }

  /** A nested `&:hover` block is resolved with the same rules:
      `{ "&:hover": { bgcolor: "red" } }` becomes
      `{ "&:hover": { backgroundColor: "red" } }`. */
  lemma NestedExample()
    ensures ResolveCss([("&:hover", Obj([("bgcolor", Str("red"))]))])
         == [("&:hover", Obj([("backgroundColor", Str("red"))]))]
  {
    var key := "&:hover";
    var sx := [(key, Obj([("bgcolor", Str("red"))]))];
    assert key[0] == '&' && "bgcolor"[0] == 'b';
    assert key != "bgcolor" && !Handled(key);
    forall a | a in {"px", "py", "mx", "my", "bgcolor"} ensures Get(sx, a) == Undef {
      assert a[0] != '&';
      FindSingle(sx[0], a);
    }
    ColorExample();
    var w := Some((key, Obj([("backgroundColor", Str("red"))])));
    assert CssWrites(sx, 1) == [w];
    PreWritesNone(sx);
    ApplyNoWrites([], PreWrites(sx));
    ApplyWritesConcat([], PreWrites(sx), [w]);
    ApplyWritesSnoc([], [], w);
    assert [] + [w] == [w];
  }

  /** A block under a key that is neither a selector nor a shorthand, such
      as a media query, is allowed by the typing and dropped:
      `{ "@media (max-width: 600px)": { p: 1 } }` resolves to `{}`. */
  lemma MediaExample()
    ensures WellTyped([("@media (max-width: 600px)", Obj([("p", Num(1))]))])
    ensures ResolveCss([("@media (max-width: 600px)", Obj([("p", Num(1))]))]) == []
  {
    var key := "@media (max-width: 600px)";
    var sx := [(key, Obj([("p", Num(1))]))];
    assert |key| > 7 && key[0] == '@';
    ShorthandKeysOf(key);
    forall a | a in {"px", "py", "mx", "my", "bgcolor"} ensures Get(sx, a) == Undef {
      assert |a| <= 7;
      FindSingle(sx[0], a);
    }
    assert CssWrites(sx, 1) == [None];
    PreWritesNone(sx);
    ApplyNoWrites([], PreWrites(sx) + CssWrites(sx, 1));
  }

  /** The resolved record never holds a key twice. */
  lemma CssDistinct(sx: Bag)
    ensures DistinctKeys(ResolveCss(sx))
  {
    ApplyWritesDistinct([], PreWrites(sx) + CssWrites(sx, |sx|));
  }

  // ---------------------------------------------------------------------
  // Resolution at every depth

  /** What the lemmas below ask of an `sx` block, which is less than the
      `SxProps` interface asks: no shorthand key holds an object, and a
      selector's block is typed the same way. The interface declares the
      shorthands and most other named properties as strings or numbers and
      lets only undeclared keys hold a block; `sxToCSS` drops a block under
      a key that is not a selector. */
  predicate WellTyped(sx: Bag)
    decreases Obj(sx)
  {
    forall i :: 0 <= i < |sx| ==>
      (sx[i].1.Obj? ==> sx[i].0 !in ShorthandKeys
                        && (IsSelector(sx[i].0) ==> WellTyped(sx[i].1.entries)))
  }

  /** A resolved record: no key twice, no shorthand key, no undefined value,
      and a nested block only under a selector, itself resolved. */
  predicate Resolved(b: Bag)
    decreases Obj(b)
  {
    DistinctKeys(b)
    && forall i :: 0 <= i < |b| ==>
         b[i].0 !in ShorthandKeys && b[i].1 != Undef
         && (b[i].1.Obj? ==> IsSelector(b[i].0) && Resolved(b[i].1.entries))
  }

  /** An entry as it may appear in a resolved record. */
  predicate ResolvedEntry(e: Entry)
  {
    e.0 !in ShorthandKeys && e.1 != Undef && (e.1.Obj? ==> IsSelector(e.0) && Resolved(e.1.entries))
  }

  lemma WellTypedGet(sx: Bag, k: string)
    requires WellTyped(sx) && k in ShorthandKeys
    ensures !Get(sx, k).Obj?
  {
    FindKeys(sx, k);
    if Find(sx, k).Some? {
      var i :| 0 <= i < |sx| && sx[i] == (k, Find(sx, k).value);
    }
  }

  /** A well-typed `sx` block resolves to a resolved record, at every depth. */
  lemma {:induction false} CssResolved(sx: Bag)
    requires WellTyped(sx)
    ensures Resolved(ResolveCss(sx))
    decreases Obj(sx)
  {
    var pre := PreWrites(sx);
    var ws := CssWrites(sx, |sx|);
    var all := pre + ws;
    forall j | 0 <= j < |all| && all[j].Some? ensures ResolvedEntry(all[j].value) {
      if j < |pre| {
        PreWritesEntry(sx, j);
        WellTypedGet(sx, "px");
        WellTypedGet(sx, "py");
        WellTypedGet(sx, "mx");
        WellTypedGet(sx, "my");
        WellTypedGet(sx, "bgcolor");
      } else {
        var i := j - |pre|;
        var (key, value) := sx[i];
        assert sx[i] in sx;
        ShorthandKeysOf(key);
        if IsSelector(key) && value.Obj? {
          SelectorKey(key);
          CssResolved(value.entries);
        } else if key in SpacingMap {
          SpacingTarget(key);
          SpacingProperty(SpacingMap[key]);
        }
      }
    }
    ApplyWritesEntries([], all, ResolvedEntry);
    CssDistinct(sx);
    var r := ResolveCss(sx);
    forall i | 0 <= i < |r| ensures ResolvedEntry(r[i]) {
      assert r[i] in r;
    }
  }

  /** A resolved record passes through resolution unchanged. */
  lemma {:induction false} CssFixpoint(b: Bag)
    requires Resolved(b)
    ensures ResolveCss(b) == b
    decreases Obj(b)
  {
    forall a | a in ShorthandKeys ensures Get(b, a) == Undef {
      FindKeys(b, a);
    }
    PreWritesNone(b);
    ApplyNoWrites([], PreWrites(b));
    ApplyWritesConcat([], PreWrites(b), CssWrites(b, |b|));
    forall j | 0 <= j < |b| ensures CssWrites(b, |b|)[j] == Some(b[j]) {
      var (key, value) := b[j];
      assert b[j] in b;
      ShorthandKeysOf(key);
      if IsSelector(key) && value.Obj? {
        CssFixpoint(value.entries);
      }
    }
    assert CssWrites(b, |b|) == AllWrites(b);
    ApplyFreshWrites([], b);
    assert [] + b == b;
  }

  /** Resolving twice is resolving once. */
  lemma CssIdempotent(sx: Bag)
    requires WellTyped(sx)
    ensures ResolveCss(ResolveCss(sx)) == ResolveCss(sx)
  {
    CssResolved(sx);
    CssFixpoint(ResolveCss(sx));
  }
}
