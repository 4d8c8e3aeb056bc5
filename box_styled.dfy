/** The body of the styled `Box`: destructure the props, split the rest
    into CSS and HTML channels, merge the CSS channel with `style`, resolve
    `sx`, and hand everything to `StyledBox`, whose template turns it into
    one CSS rule. */
module StyledBox {
  import opened Props
  import opened Partition
  import opened CssText
  import SxCss

  /** One part of the `StyledBox` template. */
  datatype Piece = Text(text: string) | Styles(styles: Bag)

  /** What `Box` renders: `StyledBox` with these props and children. */
  datatype Element = Element(props: Bag, children: Val)

  /** `{ ...cssProps, ...style }`. */
  function CombinedCss(cssProps: Bag, style: Val): Bag
  {
    Spread(Spread([], cssProps), Entries(style))
  }

  /** `sx ? sxToCSS(sx) : undefined`, before `css()` serialises it. */
  function SxStyles(sx: Val): Val
  {
    if sx.Obj? then Obj(SxCss.ResolveCss(sx.entries)) else Undef
  }

  /** `if (ref) htmlProps.ref = ref`. */
  function WithRef(html: Bag, ref: Val): Bag
  {
    if Truthy(ref) then Put(html, "ref", ref) else html
  }

  /** The four props `Box` sets on `StyledBox` itself. */
  function FixedProps(props: Bag): Bag
  {
    [("as", Component(props)), ("className", Str("tomato-box")),
     ("$cssProps", Obj(CombinedCss(CssProps(props), Get(props, "style")))),
     ("$sxStyles", SxStyles(Get(props, "sx")))]
  }

  /** The props `Box` passes to `StyledBox`: the fixed props, then the HTML
      channel spread over them. */
  function StyledProps(props: Bag, ref: Val): Bag
  {
    Spread(FixedProps(props), WithRef(HtmlProps(props), ref))
  }

  /** `${props.$sxStyles || ""}`. */
  function SxPiece(v: Val): Piece
  {
    if !Truthy(v) then Text("")
    else if v.Obj? then Styles(v.entries)
    else Text(Render(v))
  }

  /** The template of `StyledBox`, from the props it receives. */
  function Rule(p: Bag): seq<Piece>
  {
    [Text("box-sizing: border-box;"),
     Text(Declarations(Entries(Get(p, "$cssProps")))),
     SxPiece(Get(p, "$sxStyles"))]
  }

  /** The styled `Box`, step by step as the source does it. */
  method Box(props: Bag, ref: Val) returns (el: Element)
    requires DistinctKeys(props)
    ensures el == Element(StyledProps(props, ref), Get(props, "children"))
  {
    var component := Get(props, "component");
    if component == Undef {
      component := Str("div");
    }
    FilterDistinct(props, NotOwn);
    var cssProps, htmlProps := Split(Rest(props));
    var combined := Spread(Spread([], cssProps), Entries(Get(props, "style")));
    var sxStyles := Undef;
    var sx := Get(props, "sx");
    if sx.Obj? {
      var resolved := SxCss.SxToCss(sx.entries);
      sxStyles := Obj(resolved);
    }
    if Truthy(ref) {
      htmlProps := Put(htmlProps, "ref", ref);
    }
    var fixed := [("as", component), ("className", Str("tomato-box")),
                  ("$cssProps", Obj(combined)), ("$sxStyles", sxStyles)];
    el := Element(Spread(fixed, htmlProps), Get(props, "children"));
  }

  // ---------------------------------------------------------------------
  // Merge

  /** `combinedCSSProps` holds the keys of `cssProps` and of `style`; the
      `style` value wins, and otherwise an allow-listed, defined direct prop
      is kept with its value. */
  lemma CombinedFind(props: Bag, k: string)
    requires DistinctKeys(props) && DistinctKeys(Entries(Get(props, "style")))
    ensures Find(CombinedCss(CssProps(props), Get(props, "style")), k)
         == if k in KeySet(Entries(Get(props, "style"))) then Find(Entries(Get(props, "style")), k)
            else if k !in OwnKeys && IsCssProperty(k) && Get(props, k) != Undef then Find(props, k)
            else None
  {
    var style := Entries(Get(props, "style"));
    ChannelsFind(props, k);
    FindKeys(CssProps(props), k);
    SpreadFind([], CssProps(props), k);
    SpreadFind(Spread([], CssProps(props)), style, k);
  }

  /** The HTML channel `StyledBox` receives never holds a key twice. */
  lemma WithRefDistinct(props: Bag, ref: Val)
    requires DistinctKeys(props)
    ensures DistinctKeys(WithRef(HtmlProps(props), ref))
  {
    ChannelsFind(props, "ref");
    if Truthy(ref) {
      PutDistinct(HtmlProps(props), "ref", ref);
    }
  }

  lemma FixedFind(props: Bag)
    ensures Find(FixedProps(props), "className") == Some(Str("tomato-box"))
    ensures Find(FixedProps(props), "$cssProps")
         == Some(Obj(CombinedCss(CssProps(props), Get(props, "style"))))
    ensures Find(FixedProps(props), "$sxStyles") == Some(SxStyles(Get(props, "sx")))
    ensures Find(FixedProps(props), "ref") == None
  {
    FixedKeys(Component(props), Str("tomato-box"),
              Obj(CombinedCss(CssProps(props), Get(props, "style"))), SxStyles(Get(props, "sx")));
  }

  /** Lookups in a four-entry record shaped like `FixedProps`. */
  lemma FixedKeys(a: Val, b: Val, c: Val, d: Val)
    ensures Find([("as", a), ("className", b), ("$cssProps", c), ("$sxStyles", d)], "className") == Some(b)
    ensures Find([("as", a), ("className", b), ("$cssProps", c), ("$sxStyles", d)], "$cssProps") == Some(c)
    ensures Find([("as", a), ("className", b), ("$cssProps", c), ("$sxStyles", d)], "$sxStyles") == Some(d)
    ensures Find([("as", a), ("className", b), ("$cssProps", c), ("$sxStyles", d)], "ref") == None
  {
    assert "as"[0] != "className"[0] && "as"[0] != "$cssProps"[0] && "as"[0] != "$sxStyles"[0];
    assert "className"[0] != "$cssProps"[0] && "$cssProps"[1] != "$sxStyles"[1];
    assert "ref"[0] != "as"[0] && "ref"[0] != "className"[0] && "ref"[0] != "$cssProps"[0];
    assert "ref"[0] != "$sxStyles"[0];
    FindFour(("as", a), ("className", b), ("$cssProps", c), ("$sxStyles", d), "className");
    FindFour(("as", a), ("className", b), ("$cssProps", c), ("$sxStyles", d), "$cssProps");
    FindFour(("as", a), ("className", b), ("$cssProps", c), ("$sxStyles", d), "$sxStyles");
    FindFour(("as", a), ("className", b), ("$cssProps", c), ("$sxStyles", d), "ref");
  }

  lemma FindFour(a: Entry, b: Entry, c: Entry, d: Entry, k: string)
    ensures Find([a, b, c, d], k)
         == if a.0 == k then Some(a.1) else if b.0 == k then Some(b.1)
            else if c.0 == k then Some(c.1) else if d.0 == k then Some(d.1) else None
  {
    var f := [a, b, c, d];
    assert f[1..] == [b, c, d] && [b, c, d][1..] == [c, d];
    assert [c, d][1..] == [d] && [d][1..] == [];
    assert Find([d], k) == if d.0 == k then Some(d.1) else None;
    assert Find([c, d], k) == if c.0 == k then Some(c.1) else Find([d], k);
    assert Find([b, c, d], k) == if b.0 == k then Some(b.1) else Find([c, d], k);
  }

  /** A key outside the caller's props reaches `StyledBox` only as `ref`. */
  lemma HtmlKeys(props: Bag, ref: Val, k: string)
    requires DistinctKeys(props) && k != "ref" && k !in KeySet(props)
    ensures k !in KeySet(WithRef(HtmlProps(props), ref))
  {
    ChannelsFind(props, k);
    FindKeys(props, k);
    FindKeys(HtmlProps(props), k);
    if Truthy(ref) {
      PutKeys(HtmlProps(props), "ref", ref);
    }
  }

  /** `className` is `"tomato-box"` unless the caller passes a `className`,
      which is spread last and replaces it. */
  lemma StyledClassName(props: Bag, ref: Val)
    requires DistinctKeys(props)
    ensures Find(StyledProps(props, ref), "className")
         == if "className" in KeySet(props) then Find(props, "className") else Some(Str("tomato-box"))
  {
    var html := WithRef(HtmlProps(props), ref);
    ClassNameNotCss();
    assert "className" !in OwnKeys;
    ChannelsFind(props, "className");
    assert Find(HtmlProps(props), "className") == Find(props, "className");
    WithRefDistinct(props, ref);
    if Truthy(ref) {
      PutFind(HtmlProps(props), "ref", ref, "className");
    }
    assert Find(html, "className") == Find(props, "className");
    FindKeys(html, "className");
    FindKeys(props, "className");
    FixedFind(props);
    SpreadFind(FixedProps(props), html, "className");
  }

  /** A truthy `ref` reaches `StyledBox`. */
  lemma StyledRef(props: Bag, ref: Val)
    requires DistinctKeys(props) && Truthy(ref)
    ensures Find(StyledProps(props, ref), "ref") == Some(ref)
  {
    var html := WithRef(HtmlProps(props), ref);
    WithRefDistinct(props, ref);
    PutFind(HtmlProps(props), "ref", ref, "ref");
    FindKeys(html, "ref");
    SpreadFind(FixedProps(props), html, "ref");
  }

  // ---------------------------------------------------------------------
  // The rule

  /** Unless the caller passes props named `$cssProps` or `$sxStyles`, the
      rule is `box-sizing`, then the declarations of `combinedCSSProps` in
      entry order, then the resolved `sx` styles; the `sx` block comes last,
      so it wins over direct props and `style` for any property both set. */
  lemma StyledRule(props: Bag, ref: Val)
    requires DistinctKeys(props)
    requires "$cssProps" !in KeySet(props) && "$sxStyles" !in KeySet(props)
    ensures Rule(StyledProps(props, ref))
         == [Text("box-sizing: border-box;"),
             Text(Declarations(CombinedCss(CssProps(props), Get(props, "style")))),
             match Get(props, "sx")
             case Obj(e) => Styles(SxCss.ResolveCss(e))
             case _ => Text("")]
  {
    var html := WithRef(HtmlProps(props), ref);
    WithRefDistinct(props, ref);
    HtmlKeys(props, ref, "$cssProps");
    HtmlKeys(props, ref, "$sxStyles");
    FixedFind(props);
    SpreadFind(FixedProps(props), html, "$cssProps");
    SpreadFind(FixedProps(props), html, "$sxStyles");
  }
}
