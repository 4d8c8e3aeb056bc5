/** The body of the inline-style `Box`: destructure the props, split the
    rest into CSS and HTML channels, merge the resolved `sx`, the CSS channel
    and `style` into one inline style, and build the element's props. */
module InlineBox {
  import opened Props
  import opened Partition
  import SxStyle

  /** What `Box` renders: `React.createElement(component, props, children)`. */
  datatype Element = Element(tag: Val, props: Bag, children: Val)

  /** `{ ...sxToStyle(sx || {}), ...cssProps, ...style }`. */
  function CombinedStyle(sx: Val, cssProps: Bag, style: Val): Bag
  {
    Spread(Spread(Spread([], SxStyle.ResolveStyle(Entries(sx))), cssProps), Entries(style))
  }

  /** The combined style of a `Box` call, from its props. */
  function StyleOf(props: Bag): Bag
  {
    CombinedStyle(Get(props, "sx"), CssProps(props), Get(props, "style"))
  }

  /** The three props `Box` sets on the element itself. */
  function FixedProps(props: Bag, ref: Val): Bag
  {
    [("ref", ref), ("className", Str("tomato-box")), ("style", Obj(StyleOf(props)))]
  }

  /** The element's props: the fixed props, then the HTML channel spread
      over them. */
  function ElementProps(props: Bag, ref: Val): Bag
  {
    Spread(FixedProps(props, ref), HtmlProps(props))
  }

  /** The inline-style `Box`, step by step as the source does it. */
  method Box(props: Bag, ref: Val) returns (el: Element)
    requires DistinctKeys(props)
    ensures el == Element(Component(props), ElementProps(props, ref), Get(props, "children"))
  {
    var component := Get(props, "component");
    if component == Undef {
      component := Str("div");
    }
    FilterDistinct(props, NotOwn);
    var cssProps, htmlProps := Split(Rest(props));
    var sxStyle := SxStyle.SxToStyle(Entries(Get(props, "sx")));
    var combined := Spread(Spread(Spread([], sxStyle), cssProps), Entries(Get(props, "style")));
    var fixed := [("ref", ref), ("className", Str("tomato-box")), ("style", Obj(combined))];
    el := Element(component, Spread(fixed, htmlProps), Get(props, "children"));
  }

  // ---------------------------------------------------------------------
  // Merge

  /** `style` wins over a direct CSS prop, which wins over the resolved `sx`
      block; a missing `sx` behaves as an empty one. */
  lemma CombinedFind(props: Bag, k: string)
    requires DistinctKeys(props) && DistinctKeys(Entries(Get(props, "style")))
    ensures Find(StyleOf(props), k)
         == if k in KeySet(Entries(Get(props, "style"))) then Find(Entries(Get(props, "style")), k)
            else if k !in OwnKeys && IsCssProperty(k) && Get(props, k) != Undef then Find(props, k)
            else Find(SxStyle.ResolveStyle(Entries(Get(props, "sx"))), k)
  {
    var sxStyle := SxStyle.ResolveStyle(Entries(Get(props, "sx")));
    var style := Entries(Get(props, "style"));
    ChannelsFind(props, k);
    FindKeys(CssProps(props), k);
    SxStyle.StyleDistinct(Entries(Get(props, "sx")));
    FindKeys(sxStyle, k);
    SpreadFind([], sxStyle, k);
    SpreadFind(Spread([], sxStyle), CssProps(props), k);
    SpreadFind(Spread(Spread([], sxStyle), CssProps(props)), style, k);
  }

  /** sx `color: "red"`, direct `color="blue"` and style `color: "green"`
      give `"green"`; without the style, `"blue"`. */
  lemma ColorExample()
    ensures Get(CombinedStyle(Obj([("color", Str("red"))]), [("color", Str("blue"))],
                              Obj([("color", Str("green"))])), "color") == Str("green")
    ensures Get(CombinedStyle(Obj([("color", Str("red"))]), [("color", Str("blue"))], Undef),
                "color") == Str("blue")
  {
    var sx := [("color", Str("red"))];
    var css := [("color", Str("blue"))];
    var style := [("color", Str("green"))];
    var sxStyle := SxStyle.ResolveStyle(sx);
    SxStyle.StyleDistinct(sx);
    SpreadFind([], sxStyle, "color");
    SpreadFind(Spread([], sxStyle), css, "color");
    SpreadFind(Spread(Spread([], sxStyle), css), style, "color");
    SpreadFind(Spread(Spread([], sxStyle), css), [], "color");
    assert "color" in KeySet(style) && "color" in KeySet(css);
  }

  // ---------------------------------------------------------------------
  // Element props

  lemma FixedFind(props: Bag, ref: Val)
    ensures Find(FixedProps(props, ref), "className") == Some(Str("tomato-box"))
    ensures Find(FixedProps(props, ref), "style") == Some(Obj(StyleOf(props)))
  {
    var f := FixedProps(props, ref);
    assert f[1..] == [f[1], f[2]] && [f[1], f[2]][1..] == [f[2]] && [f[2]][1..] == [];
    assert Find([f[2]], "style") == Some(Obj(StyleOf(props)));
    assert Find([f[1], f[2]], "style") == Find([f[2]], "style");
  }

  /** The element always carries the combined style: `style` is taken out
      by destructuring, so the HTML channel cannot replace it. */
  lemma ElementStyle(props: Bag, ref: Val)
    requires DistinctKeys(props)
    ensures Find(ElementProps(props, ref), "style") == Some(Obj(StyleOf(props)))
  {
    ChannelsFind(props, "style");
    FindKeys(HtmlProps(props), "style");
    FixedFind(props, ref);
    SpreadFind(FixedProps(props, ref), HtmlProps(props), "style");
  }

  /** `className` is `"tomato-box"` unless the caller passes a `className`,
      which is spread last and replaces it. */
  lemma ElementClassName(props: Bag, ref: Val)
    requires DistinctKeys(props)
    ensures Find(ElementProps(props, ref), "className")
         == if "className" in KeySet(props) then Find(props, "className") else Some(Str("tomato-box"))
  {
    ClassNameNotCss();
    assert "className" !in OwnKeys;
    ChannelsFind(props, "className");
    assert Find(HtmlProps(props), "className") == Find(props, "className");
    FindKeys(HtmlProps(props), "className");
    FindKeys(props, "className");
    FixedFind(props, ref);
    SpreadFind(FixedProps(props, ref), HtmlProps(props), "className");
  }
}
