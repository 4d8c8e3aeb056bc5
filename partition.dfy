/** The split of the props left after destructuring into a CSS channel and
    a pass-through HTML channel, shared by both Box variants. */
module Partition {
  import opened Props

  /** `CSS_PROPERTIES`: the allow-list of props routed to the CSS channel,
      in the source's groups and order. */
  const CssPropertyList: seq<string> :=
    Layout + Spacing + BackgroundAndBorder + Typography + Flexbox + Grid + Other

  const Layout: seq<string> := ["display", "position", "top", "right", "bottom", "left", "zIndex",
    "width", "height", "minWidth", "minHeight", "maxWidth", "maxHeight"]
  const Spacing: seq<string> := ["margin", "marginTop", "marginRight", "marginBottom", "marginLeft",
    "padding", "paddingTop", "paddingRight", "paddingBottom", "paddingLeft"]
  const BackgroundAndBorder: seq<string> := ["backgroundColor", "background", "border", "borderTop",
    "borderRight", "borderBottom", "borderLeft", "borderRadius", "borderColor", "borderWidth",
    "borderStyle", "boxShadow"]
  const Typography: seq<string> := ["color", "fontSize", "fontWeight", "fontFamily", "lineHeight",
    "textAlign", "textDecoration", "textTransform", "letterSpacing", "wordSpacing"]
  const Flexbox: seq<string> := ["flexDirection", "justifyContent", "alignItems", "alignContent",
    "flexWrap", "flex", "flexGrow", "flexShrink", "flexBasis", "gap"]
  const Grid: seq<string> := ["gridTemplateColumns", "gridTemplateRows", "gridColumn", "gridRow",
    "gridArea", "gridGap", "gridColumnGap", "gridRowGap"]
  const Other: seq<string> := ["opacity", "overflow", "overflowX", "overflowY", "transform",
    "transition", "cursor", "pointerEvents", "userSelect", "visibility"]

  /** Whether `k` is one of `names`, looked up one name at a time. */
  predicate Listed(k: string, names: seq<string>)
  {
    names != [] && (names[0] == k || Listed(k, names[1..]))
  }

  /** `CSS_PROPERTIES.has(k)`. */
  predicate IsCssProperty(k: string)
  {
    Listed(k, CssPropertyList)
  }

  /** `CSS_PROPERTIES.has(key) && value !== undefined`. */
  predicate RoutesToCss(e: Entry)
  {
    IsCssProperty(e.0) && e.1 != Undef
  }

  /** Every other prop, including an allow-listed one that is undefined,
      goes to the HTML channel. */
  predicate RoutesToHtml(e: Entry)
  {
    !RoutesToCss(e)
  }

  /** The props `Box` takes out by destructuring before partitioning. */
  const OwnKeys: set<string> := {"component", "sx", "children", "style"}

  predicate NotOwn(e: Entry)
  {
    e.0 !in OwnKeys
  }

  /** `...restProps`: the props other than the destructured ones. */
  function Rest(props: Bag): Bag
  {
    Filter(props, NotOwn)
  }

  /** `component = "div"`: the element kind, defaulting when undefined. */
  function Component(props: Bag): Val
  {
    if Get(props, "component") == Undef then Str("div") else Get(props, "component")
  }

  /** The partition loop of `Box`: each entry of `restProps` is assigned
      into `cssProps` or into `htmlProps`. */
  method Split(rest: Bag) returns (cssProps: Bag, htmlProps: Bag)
    requires DistinctKeys(rest)
    ensures cssProps == Filter(rest, RoutesToCss) && htmlProps == Filter(rest, RoutesToHtml)
  {
    cssProps, htmlProps := [], [];
    for i := 0 to |rest|
      invariant cssProps == Filter(rest[..i], RoutesToCss)
      invariant htmlProps == Filter(rest[..i], RoutesToHtml)
    {
      var (key, value) := rest[i];
      assert rest[..i + 1][..i] == rest[..i] && rest[..i + 1][i] == rest[i];
      assert key !in KeySet(rest[..i]);
      FilterKeys(rest[..i], RoutesToCss);
      FilterKeys(rest[..i], RoutesToHtml);
      if IsCssProperty(key) && value != Undef {
        PutAppends(cssProps, key, value);
        cssProps := Put(cssProps, key, value);
      } else {
        PutAppends(htmlProps, key, value);
        htmlProps := Put(htmlProps, key, value);
      }
    }
    assert rest[..|rest|] == rest;
  }

  /** The two channels together hold every entry of `b` exactly as often as
      `b` does: nothing is lost, duplicated or changed. */
  lemma SplitMultiset(b: Bag)
    ensures multiset(Filter(b, RoutesToCss)) + multiset(Filter(b, RoutesToHtml)) == multiset(b)
  {
    FilterComplement(b, RoutesToCss, RoutesToHtml);
  }

  /** A prop lands in `cssProps` exactly when it is allow-listed and not
      undefined, and in `htmlProps` otherwise, with its value unchanged. */
  lemma SplitFind(b: Bag, k: string)
    requires DistinctKeys(b)
    ensures Find(Filter(b, RoutesToCss), k)
         == if IsCssProperty(k) && Get(b, k) != Undef then Find(b, k) else None
    ensures Find(Filter(b, RoutesToHtml), k)
         == if IsCssProperty(k) && Get(b, k) != Undef then None else Find(b, k)
  {
    FilterFind(b, RoutesToCss, k);
    FilterFind(b, RoutesToHtml, k);
  }

  /** The destructured props are not in `restProps`; every other prop is,
      with its value. */
  lemma RestFind(props: Bag, k: string)
    requires DistinctKeys(props)
    ensures Find(Rest(props), k) == if k in OwnKeys then None else Find(props, k)
  {
    FilterFind(props, NotOwn, k);
  }

  /** A name is listed exactly when it occurs among `names`. */
  lemma {:induction false} ListedIn(k: string, names: seq<string>)
    ensures Listed(k, names) <==> k in names
  {
    if names != [] {
      ListedIn(k, names[1..]);
      assert names == [names[0]] + names[1..];
    }
  }

  /** `className` is not allow-listed, so it always passes through. */
  lemma ClassNameNotCss()
    ensures !IsCssProperty("className")
  {
    ListedIn("className", CssPropertyList);
    ClassNameNotLayout();
    ClassNameNotStyling();
    ClassNameNotFlow();
  }

  // `ClassNameNotCss` taken group by group: one lemma per few groups keeps
  // each check of the long name lists small for the solver.
  lemma ClassNameNotLayout()
    ensures "className" !in Layout && "className" !in Spacing
  {
  }

  lemma ClassNameNotStyling()
    ensures "className" !in BackgroundAndBorder && "className" !in Typography
  {
  }

  lemma ClassNameNotFlow()
    ensures "className" !in Flexbox && "className" !in Grid && "className" !in Other
  {
  }

  /** `cssProps` of a `Box` call, from its props. */
  function CssProps(props: Bag): Bag
  {
    Filter(Rest(props), RoutesToCss)
  }

  /** `htmlProps` of a `Box` call, before any `ref` is added. */
  function HtmlProps(props: Bag): Bag
  {
    Filter(Rest(props), RoutesToHtml)
  }

  /** Both channels, stated on the props a `Box` is called with: a prop
      other than the destructured ones goes to `cssProps` exactly when it is
      allow-listed and defined, and to `htmlProps` otherwise; neither
      channel holds a key twice. */
  lemma ChannelsFind(props: Bag, k: string)
    requires DistinctKeys(props)
    ensures DistinctKeys(CssProps(props)) && DistinctKeys(HtmlProps(props))
    ensures Find(CssProps(props), k)
         == if k !in OwnKeys && IsCssProperty(k) && Get(props, k) != Undef then Find(props, k) else None
    ensures Find(HtmlProps(props), k)
         == if k in OwnKeys || (IsCssProperty(k) && Get(props, k) != Undef) then None else Find(props, k)
  {
    FilterDistinct(props, NotOwn);
    FilterDistinct(Rest(props), RoutesToCss);
    FilterDistinct(Rest(props), RoutesToHtml);
    RestFind(props, k);
    SplitFind(Rest(props), k);
  }
}
