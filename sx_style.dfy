/** `sxToStyle` of the inline-style Box: resolves an `sx` block, with its
    spacing and colour shorthands, into one flat inline style object.
    Selector blocks cannot be applied inline and are dropped. */
module SxStyle {
  import opened Props
  import opened Shorthands
  import SxCss

  /** What the entry loop assigns for one entry `[key, value]` of `sx`:
      undefined and object values, selectors and the already fanned-out keys
      are skipped, a single-side shorthand is renamed, and anything else is
      copied. */
  function StyleWrite(key: string, value: Val): Write
  {
    if value == Undef || value.Obj? then None
    else if IsSelector(key) || Handled(key) then None
    else if key in SpacingMap then Some((SpacingMap[key], value))
    else Some((key, value))
  }

  /** The loop's assignments for the first `n` entries, in entry order. */
  function StyleWrites(sx: Bag, n: nat): (ws: seq<Write>)
    requires n <= |sx|
    ensures |ws| == n
    ensures forall j :: 0 <= j < n ==> ws[j] == StyleWrite(sx[j].0, sx[j].1)
  {
    if n == 0 then [] else StyleWrites(sx, n - 1) + [StyleWrite(sx[n - 1].0, sx[n - 1].1)]
  }

  /** The object `sxToStyle` returns: the fan-out assignments, then the entry
      loop's assignments, on an empty object. */
  function ResolveStyle(sx: Bag): Bag
  {
    ApplyWrites([], PreWrites(sx) + StyleWrites(sx, |sx|))
  }

  /** `sxToStyle`, step by step as the source does it. */
  method SxToStyle(sx: Bag) returns (style: Bag)
    ensures style == ResolveStyle(sx)
  {
    style := FanOut(sx);
    assert PreWrites(sx) + StyleWrites(sx, 0) == PreWrites(sx);
    for i := 0 to |sx|
      invariant style == ApplyWrites([], PreWrites(sx) + StyleWrites(sx, i))
    {
      var (key, value) := sx[i];
      ghost var before, w := style, StyleWrite(key, value);
      if value == Undef || value.Obj? {
        assert w == None;
      } else if IsSelector(key) || key == "bgcolor" || key in AxisKeys {
        assert w == None;
      } else if key in SpacingMap {
        assert w == Some((SpacingMap[key], value));
        style := Put(style, SpacingMap[key], value);
      } else {
        assert w == Some((key, value));
        style := Put(style, key, value);
      }
      assert style == Apply(before, w);
      StyleStep(sx, i);
    }
  }

  /** One more entry of the loop is one more assignment. */
  lemma StyleStep(sx: Bag, i: nat)
    requires i < |sx|
    ensures ApplyWrites([], PreWrites(sx) + StyleWrites(sx, i + 1))
         == Apply(ApplyWrites([], PreWrites(sx) + StyleWrites(sx, i)), StyleWrite(sx[i].0, sx[i].1))
  {
    var w := StyleWrite(sx[i].0, sx[i].1);
    ApplyWritesSnoc([], PreWrites(sx) + StyleWrites(sx, i), w);
    assert PreWrites(sx) + StyleWrites(sx, i + 1) == (PreWrites(sx) + StyleWrites(sx, i)) + [w];
  }

  // ---------------------------------------------------------------------
  // What the style object holds, key by key

  /** The value under `k` is the entry loop's last assignment to `k`, and
      otherwise what the fan-out step left there. */
  lemma StyleFind(sx: Bag, k: string)
    ensures Find(ResolveStyle(sx), k)
         == (var w := LastWrite(StyleWrites(sx, |sx|), k);
             if w.Some? then w else FannedValue(sx, k))
  {
    FindAfterWrites([], PreWrites(sx) + StyleWrites(sx, |sx|), k);
    LastWriteConcat(PreWrites(sx), StyleWrites(sx, |sx|), k);
    PreWritesLast(sx, k);
  }
  /** When the entry loop assigns `k`, its last assignment is what `k` holds. */
  lemma StyleLast(sx: Bag, k: string, v: Val)
    requires LastWrite(StyleWrites(sx, |sx|), k) == Some(v)
    ensures Find(ResolveStyle(sx), k) == Some(v)
  {
    StyleFind(sx, k);
  }


  /** Only the entry named `k` itself, or a single-side shorthand renamed to
      `k`, can assign `k`, and only a string or a number. */
  lemma StyleWriteTarget(key: string, value: Val, k: string)
    requires Writes(StyleWrite(key, value), k)
    ensures IsScalar(value) && !IsSelector(key)
    ensures key !in SpacingMap ==> key == k
    ensures key in SpacingMap ==> SpacingMap[key] == k && k in SpacingProperties && key == ShortFor(k)
  {
    if key in SpacingMap {
      SpacingTarget(key);
    }
  }

  /** An entry under another key assigns `k` only when `k` is a spacing
      property. */
  lemma StyleWriteOther(key: string, value: Val, k: string)
    requires k !in SpacingProperties && key != k
    ensures !Writes(StyleWrite(key, value), k)
  {
    if Writes(StyleWrite(key, value), k) {
      StyleWriteTarget(key, value, k);
    }
  }

  /** A key no shorthand is renamed to holds what its own entry assigns,
      and otherwise what the fan-out step left there. */
  lemma StyleOwn(sx: Bag, k: string)
    requires DistinctKeys(sx) && k !in SpacingProperties
    ensures Find(ResolveStyle(sx), k)
         == (var w := StyleWrite(k, Get(sx, k));
             if Writes(w, k) then Some(w.value.1) else FannedValue(sx, k))
  {
    var ws := StyleWrites(sx, |sx|);
    StyleFind(sx, k);
    FindKeys(sx, k);
    if k in KeySet(sx) {
      var i := EntryIndex(sx, k);
      FindEntry(sx, i);
      assert ws[i] == StyleWrite(k, Get(sx, k));
      forall j | i < j < |sx| ensures !Writes(ws[j], k) {
        assert sx[i].0 != sx[j].0;
        StyleWriteOther(sx[j].0, sx[j].1, k);
      }
      if Writes(ws[i], k) {
        LastWriteAt(ws, i, k, ws[i].value.1);
      } else {
        forall j | 0 <= j < |sx| ensures !Writes(ws[j], k) {
          if j != i {
            assert sx[i].0 != sx[j].0;
            StyleWriteOther(sx[j].0, sx[j].1, k);
          }
        }
        LastWriteNone(ws, k);
      }
    } else {
      forall j | 0 <= j < |sx| ensures !Writes(ws[j], k) {
        assert sx[j] in sx;
        StyleWriteOther(sx[j].0, sx[j].1, k);
      }
      LastWriteNone(ws, k);
    }
  }

  /** A key that is neither a shorthand, a spacing property nor a selector
      is copied exactly when its value is a string or a number; otherwise
      only the fan-out step can have set it. */
  lemma StylePlain(sx: Bag, k: string)
    requires DistinctKeys(sx)
    requires k !in ShorthandKeys && k !in SpacingProperties && !IsSelector(k)
    ensures Find(ResolveStyle(sx), k)
         == if IsScalar(Get(sx, k)) then Some(Get(sx, k)) else FannedValue(sx, k)
  {
    ShorthandKeysOf(k);
    StyleOwn(sx, k);
  }


  /** `bgcolor` fills `backgroundColor` when truthy, and an explicit
      string or number `backgroundColor` wins over it in either order. */
  lemma StyleColor(sx: Bag)
    requires DistinctKeys(sx)
    ensures Find(ResolveStyle(sx), "backgroundColor")
         == if IsScalar(Get(sx, "backgroundColor")) then Some(Get(sx, "backgroundColor"))
            else if Truthy(Get(sx, "bgcolor")) then Some(Get(sx, "bgcolor"))
            else None
  {
    StylePlain(sx, "backgroundColor");
  }

  /** A single-side shorthand holding a string or number wins over the axis
      shorthand covering the same side, in either order; only an explicit
      string or number under the long property name can displace it. */
  lemma StyleSpacing(sx: Bag, s: string)
    requires DistinctKeys(sx)
    requires s in SpacingMap && IsScalar(Get(sx, s))
    requires !IsScalar(Get(sx, SpacingMap[s]))
    ensures Find(ResolveStyle(sx), SpacingMap[s]) == Some(Get(sx, s))
  {
    var ws := StyleWrites(sx, |sx|);
    var p := SpacingMap[s];
    SpacingTarget(s);
    SpacingProperty(p);
    FindKeys(sx, s);
    var i := EntryIndex(sx, s);
    FindEntry(sx, i);
    forall j | i < j < |sx| ensures !Writes(ws[j], p) {
      if Writes(ws[j], p) {
        assert sx[i].0 != sx[j].0;
        StyleWriteTarget(sx[j].0, sx[j].1, p);
        if sx[j].0 !in SpacingMap {
          FindEntry(sx, j);
        }
      }
    }
    LastWriteAt(ws, i, p, sx[i].1);
    StyleLast(sx, p, sx[i].1);
  }

  /** A string or number given under a spacing property's own name wins
      over the axis shorthand covering it, in either order, when the
      property's single shorthand holds no string or number. */
  lemma StyleLongForm(sx: Bag, prop: string)
    requires DistinctKeys(sx)
    requires prop in SpacingProperties && IsScalar(Get(sx, prop))
    requires !IsScalar(Get(sx, ShortFor(prop)))
    ensures Find(ResolveStyle(sx), prop) == Some(Get(sx, prop))
  {
    var ws := StyleWrites(sx, |sx|);
    SpacingProperty(prop);
    FindKeys(sx, prop);
    var i := EntryIndex(sx, prop);
    FindEntry(sx, i);
    LongFormLast(sx, i, prop);
    assert ws[i] == StyleWrite(prop, sx[i].1) == Some((prop, sx[i].1));
    LastWriteAt(ws, i, prop, sx[i].1);
    StyleLast(sx, prop, sx[i].1);
  }

  /** No entry after the long form's own can assign it. */
  lemma LongFormLast(sx: Bag, i: nat, prop: string)
    requires DistinctKeys(sx) && i < |sx| && sx[i].0 == prop
    requires prop in SpacingProperties && !IsScalar(Get(sx, ShortFor(prop)))
    ensures forall j :: i < j < |sx| ==> !Writes(StyleWrites(sx, |sx|)[j], prop)
  {
    var ws := StyleWrites(sx, |sx|);
    ShortForOf(prop);
    forall j | i < j < |sx| ensures !Writes(ws[j], prop) {
      assert sx[i].0 != sx[j].0;
      if Writes(ws[j], prop) {
        StyleWriteTarget(sx[j].0, sx[j].1, prop);
        FindEntry(sx, j);
      }
    }
  }

  /** An axis shorthand that is set fills both of its sides, unless the
      side's own shorthand or the side itself holds a string or number. */
  lemma StyleAxis(sx: Bag, side: string, ax: string)
    requires DistinctKeys(sx)
    requires AxisOf(side) == Some(ax) && Get(sx, ax) != Undef
    requires !IsScalar(Get(sx, ShortFor(side))) && !IsScalar(Get(sx, side))
    ensures Find(ResolveStyle(sx), side) == Some(Get(sx, ax))
  {
    var ws := StyleWrites(sx, |sx|);
    AxisSide(side);
    ShortForOf(side);
    SpacingProperty(side);
    StyleFind(sx, side);
    forall j | 0 <= j < |sx| ensures !Writes(ws[j], side) {
      if Writes(ws[j], side) {
        StyleWriteTarget(sx[j].0, sx[j].1, side);
        FindEntry(sx, j);
      }
    }
    LastWriteNone(ws, side);
  }

  /** Neither a shorthand key nor a selector survives into the style object. */
  lemma StyleDrops(sx: Bag, k: string)
    requires k in ShorthandKeys || IsSelector(k)
    ensures Find(ResolveStyle(sx), k) == None
  {
    var ws := StyleWrites(sx, |sx|);
    StyleFind(sx, k);
    if k in ShorthandKeys {
      ShorthandKey(k);
    } else {
      SelectorKey(k);
    }
    forall j | 0 <= j < |sx| ensures !Writes(ws[j], k) {
      if Writes(ws[j], k) {
        StyleWriteTarget(sx[j].0, sx[j].1, k);
      }
    }
    LastWriteNone(ws, k);
  }

  /** The inline variant is the CSS variant without its selector blocks: on
      every key that is not a selector, an `sx` block with no object under a
      single-side spacing shorthand resolves to the same value both ways. */
  lemma StyleAgreesWithCss(sx: Bag, k: string)
    requires forall i :: 0 <= i < |sx| ==> sx[i].1.Obj? ==> sx[i].0 !in SpacingMap
    requires !IsSelector(k)
    ensures Find(ResolveStyle(sx), k) == Find(SxCss.ResolveCss(sx), k)
  {
    var ws := StyleWrites(sx, |sx|);
    var cs := SxCss.CssWrites(sx, |sx|);
    StyleFind(sx, k);
    SxCss.CssFind(sx, k);
    forall j | 0 <= j < |sx|
      ensures Writes(ws[j], k) == Writes(cs[j], k)
      ensures Writes(ws[j], k) ==> ws[j].value.1 == cs[j].value.1
    {
      assert sx[j] in sx;
      WriteAgrees(sx[j].0, sx[j].1, k);
    }
    LastWriteAgree(ws, cs, k);
  }

  /** One entry assigns the same to a non-selector key in both variants
      unless it holds an object under a single-side spacing shorthand. */
  lemma WriteAgrees(key: string, value: Val, k: string)
    requires !IsSelector(k) && (value.Obj? ==> key !in SpacingMap)
    ensures Writes(StyleWrite(key, value), k) == Writes(SxCss.CssWrite(key, value), k)
    ensures Writes(StyleWrite(key, value), k)
        ==> StyleWrite(key, value).value.1 == SxCss.CssWrite(key, value).value.1
  {
    if IsSelector(key) && key in SpacingMap {
      SpacingTarget(key);
    }
  }

  /** `{ p: 2, px: 4 }` resolves to `{ paddingLeft: 4, paddingRight: 4,
      padding: 2 }`: the axis shorthand is fanned out first, and `padding`
      is appended after it. */
  lemma SpacingExample()
    ensures ResolveStyle([("p", Num(2)), ("px", Num(4))])
         == [("paddingLeft", Num(4)), ("paddingRight", Num(4)), ("padding", Num(2))]
  {
    var sx := [("p", Num(2)), ("px", Num(4))];
    assert Get(sx, "px") == Num(4);
    assert Get(sx, "py") == Undef && Get(sx, "mx") == Undef;
    assert Get(sx, "my") == Undef && Get(sx, "bgcolor") == Undef;
    FanOutPx(sx);
    var fanned := [("paddingLeft", Num(4)), ("paddingRight", Num(4))];
    var ws := StyleWrites(sx, |sx|);
    assert ws == [Some(("padding", Num(2))), None];
    ApplyWritesConcat([], PreWrites(sx), ws);
    ApplyWritesPair(fanned, ws[0], ws[1]);
    PaddingKeys();
    PutPair(fanned[0], fanned[1], "padding", Num(2));
  }

  /** As in `sxToCSS`, `p` and an explicit `padding` compete and the later
      entry wins: `{ p: 1, padding: 2 }` gives 2 and `{ padding: 2, p: 1 }`
      gives 1. */
  lemma PaddingAfterShorthand()
    ensures Find(ResolveStyle([("p", Num(1)), ("padding", Num(2))]), "padding") == Some(Num(2))
    ensures Find(ResolveStyle([("padding", Num(2)), ("p", Num(1))]), "padding") == Some(Num(1))
  {
    var a := [("p", Num(1)), ("padding", Num(2))];
    var b := [("padding", Num(2)), ("p", Num(1))];
    SpacingTarget("p");
    SpacingProperty("padding");
    assert StyleWrites(a, 2) == [Some(("padding", Num(1))), Some(("padding", Num(2)))];
    assert StyleWrites(b, 2) == [Some(("padding", Num(2))), Some(("padding", Num(1)))];
    LastWriteAt(StyleWrites(a, 2), 1, "padding", Num(2));
    LastWriteAt(StyleWrites(b, 2), 1, "padding", Num(1));
    StyleLast(a, "padding", Num(2));
    StyleLast(b, "padding", Num(1));
  }

  lemma PaddingKeys()
    ensures "paddingLeft" != "padding" && "paddingRight" != "padding"
  {
    assert |"padding"| < |"paddingLeft"| < |"paddingRight"|;
  }

  /** The style object never holds a key twice. */
  lemma StyleDistinct(sx: Bag)
    ensures DistinctKeys(ResolveStyle(sx))
  {
    ApplyWritesDistinct([], PreWrites(sx) + StyleWrites(sx, |sx|));
  }

  // ---------------------------------------------------------------------
  // Flatness

  /** A flat style object: no key twice, and only strings and numbers under
      keys that are neither shorthands nor selectors. */
  predicate Flat(b: Bag)
  {
    DistinctKeys(b)
    && forall i :: 0 <= i < |b| ==> FlatEntry(b[i])
  }

  predicate FlatEntry(e: Entry)
  {
    IsScalar(e.1) && e.0 !in ShorthandKeys && !IsSelector(e.0)
  }

  /** When the five fanned-out shorthands hold no object, `sxToStyle` returns
      a flat style object whatever else `sx` holds. */
  lemma StyleFlat(sx: Bag)
    requires !Get(sx, "px").Obj? && !Get(sx, "py").Obj? && !Get(sx, "mx").Obj?
    requires !Get(sx, "my").Obj? && !Get(sx, "bgcolor").Obj?
    ensures Flat(ResolveStyle(sx))
  {
    var pre := PreWrites(sx);
    var all := pre + StyleWrites(sx, |sx|);
    forall j | 0 <= j < |all| && all[j].Some? ensures FlatEntry(all[j].value) {
      if j < |pre| {
        PreWritesEntry(sx, j);
      } else {
        var (key, value) := sx[j - |pre|];
        assert all[j] == StyleWrite(key, value);
        ShorthandKeysOf(key);
        if key in SpacingMap {
          SpacingTarget(key);
          SpacingProperty(SpacingMap[key]);
        }
      }
    }
    ApplyWritesEntries([], all, FlatEntry);
    ApplyWritesDistinct([], all);
    var r := ResolveStyle(sx);
    forall i | 0 <= i < |r| ensures FlatEntry(r[i]) {
      assert r[i] in r;
    }
  }

  /** A flat style object passes through `sxToStyle` unchanged. */
  lemma StyleFixpoint(b: Bag)
    requires Flat(b)
    ensures ResolveStyle(b) == b
  {
    FlatNoShorthands(b);
    PreWritesNone(b);
    ApplyNoWrites([], PreWrites(b));
    ApplyWritesConcat([], PreWrites(b), StyleWrites(b, |b|));
    FlatWrites(b);
    ApplyFreshWrites([], b);
    assert [] + b == b;
  }

  lemma FlatNoShorthands(b: Bag)
    requires Flat(b)
    ensures forall a | a in ShorthandKeys :: Get(b, a) == Undef
  {
    forall a | a in ShorthandKeys ensures Get(b, a) == Undef {
      FindKeys(b, a);
    }
  }

  /** The entry loop copies an entry of a flat object as it stands. */
  lemma FlatEntryWrite(e: Entry)
    requires FlatEntry(e)
    ensures StyleWrite(e.0, e.1) == Some(e)
  {
    ShorthandKeysOf(e.0);
  }

  /** On a flat object the entry loop assigns every entry as it stands. */
  lemma FlatWrites(b: Bag)
    requires Flat(b)
    ensures StyleWrites(b, |b|) == AllWrites(b)
  {
    var ws := StyleWrites(b, |b|);
    forall j | 0 <= j < |b| ensures ws[j] == Some(b[j]) {
      FlatEntryWrite(b[j]);
    }
  }

  /** Applying `sxToStyle` to its own flat output changes nothing. */
  lemma StyleIdempotent(sx: Bag)
    requires !Get(sx, "px").Obj? && !Get(sx, "py").Obj? && !Get(sx, "mx").Obj?
    requires !Get(sx, "my").Obj? && !Get(sx, "bgcolor").Obj?
    ensures ResolveStyle(ResolveStyle(sx)) == ResolveStyle(sx)
  {
    StyleFlat(sx);
    StyleFixpoint(ResolveStyle(sx));
  }
}
