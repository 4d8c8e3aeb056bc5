# Box style resolver

A Dafny model of the style resolution inside the `Box` primitive of tomato-ui.
The `Box` comes in two variants:

- **The styled `Box`** (`src/components/Box/Box.tsx`):
  - resolves its `sx` prop with `sxToCSS` into a style tree, nested `&` selector blocks included;
  - splits the remaining props into a CSS channel and an HTML channel by the `CSS_PROPERTIES` allow-list;
  - merges the CSS channel with `style`;
  - hands the result to a styled template, which writes `box-sizing`, then the merged props as kebab-case declarations, then the `sx` styles.
- **The inline-style `Box`** (`src/components/Box/BoxExample.tsx`):
  - resolves `sx` with `sxToStyle` into a flat style object; for input the `SxProps` types allow, it drops every selector and object value;
  - partitions the props the same way;
  - merges `sx` styles, direct CSS props and `style`, in that order, into one inline style;
  - builds the element's props.

A prop bag is a sequence of `(key, value)` entries in enumeration order. A value is `Undef`, a string, an integer or a nested object. A property assignment (`Props.Put`) rewrites an existing key where it stands and otherwise appends, as JavaScript does. Both resolvers work the same way:

1. The fan-out step makes its assignments on an empty record: `px`/`py`/`mx`/`my` set two sides each, and a truthy `bgcolor` sets `backgroundColor`.
2. The entry loop then makes one assignment, or none, per entry of `sx`.

Each resolver is a `method` written step by step as the source is, with loops and `if`s. It is proved equal to a specification function (`ResolveCss`, `ResolveStyle`) that applies those assignments in order. The value under any key is the last assignment to it (`Props.FindAfterWrites`), and the lemmas about each resolver are proved from that.

Modules:

| Module | Contents |
|---|---|
| `Props` | Records, assignment, object spread, filtering |
| `Shorthands` | `spacingMap`, the axis keys and the fan-out step shared by both resolvers |
| `SxCss` | `sxToCSS` |
| `SxStyle` | `sxToStyle` |
| `Partition` | `CSS_PROPERTIES` and the partition loop shared by both `Box` bodies |
| `CssText` | The camelCase to kebab-case declaration text of the styled template |
| `StyledBox` | The body of the styled `Box` |
| `InlineBox` | The body of the inline-style `Box` |

Points where the two source files behave in ways worth stating outright:

- **Channel order differs between the variants.** `BoxExample.tsx` spreads, from lowest to highest, the resolved `sx` styles, then the direct CSS props, then `style` (lines 286-290; `InlineBox.CombinedFind`). `Box.tsx` merges only the direct props and `style` (lines 311-314). Its template then interpolates the resolved `sx` block *after* their declarations (lines 280-292), so in the styled variant the `sx` block comes last in the rule and wins any property both set (`StyledBox.StyledRule`).
- **Nesting depth.** `sxToCSS` recurses into a selector block at any depth (`SxCss.CssNested`, `SxCss.CssResolved`).
- **Blocks under other keys.** The `SxProps` interface declares the fifteen shorthands and about fifty other properties as strings or numbers (`Box.tsx` lines 10-83; `bgcolor` as a string only). Its index signature (line 97) lets only undeclared keys hold a nested block, for example a media query. The `WellTyped` precondition of `SxCss.CssResolved` and `SxCss.CssIdempotent` asks less than the interface: no shorthand key holds an object, and selector blocks are typed the same way. `sxToCSS` drops such a block (`SxCss.MediaExample`), and for input the `SxProps` types allow it keeps only a selector's block; `sxToStyle` drops every block there (`SxStyle.StyleFlat`). Both also copy a block under a spacing shorthand, which the types forbid (see below).
- **`p` with `pl`.** `p` renames to `padding`, not to the individual sides, so `pl` never touches `padding`. As with `pl` and `paddingLeft`, only an explicit string or number under `padding` competes with `p`, and the later of the two entries wins (`SxCss.PaddingAfterShorthand`, `SxStyle.PaddingAfterShorthand`). `pl` beats `px` on `paddingLeft` in either order. Only an explicit string or number under `paddingLeft` competes with `pl`, and the later of the two entries wins (`SxCss.LongFormAfterShorthand`).
- **Objects under spacing keys.** `sxToCSS` checks `key in spacingMap` before it checks `typeof value`. So `Box.tsx` copies an object value under a spacing shorthand, which the types forbid. The model keeps this as written, and it is why `SxCss.CssLongForm` asks for the single shorthand to be undefined, while `SxStyle.StyleLongForm` only asks for it to hold no string or number.

## Model

| member | source | states |
|---|---|---|
| Shorthands.FanOut | src/components/Box/Box.tsx:133-154 | The fan-out assignments, made one `if` at a time, produce the record of `PreWrites` applied in source order |
| Shorthands.PreWritesLast | src/components/Box/Box.tsx:133-154 | After the fan-out step a side property holds its axis shorthand's value when that is defined; `backgroundColor` holds `bgcolor` exactly when it is truthy; no other key is set |
| Shorthands.PreWritesEntry | src/components/Box/BoxExample.tsx:132-153 | Every fan-out assignment targets a key that is neither a shorthand nor a selector, with a defined value taken from `px`, `py`, `mx`, `my` or `bgcolor` |
| Shorthands.FanOutPx | src/components/Box/Box.tsx:134-137 | With only `px` set, the fan-out step yields `paddingLeft` and then `paddingRight`, both holding the `px` value |
| SxCss.SxToCss | src/components/Box/Box.tsx:116-179 | The imperative `sxToCSS` (fan-out, then the entry loop, recursing into selector blocks) returns exactly `ResolveCss(sx)` |
| SxCss.CssFind | src/components/Box/Box.tsx:156-179 | A key's resolved value is the entry loop's last assignment to it, or else what the fan-out step left there |
| SxCss.CssOwn | src/components/Box/Box.tsx:157-178 | A key no shorthand renames to holds what its own entry assigns, or else the fan-out value; no other entry can touch it |
| SxCss.CssPlain | src/components/Box/Box.tsx:175-177 | A key that is not a shorthand, spacing property or selector is copied exactly when its value is a string or number; otherwise only the fan-out step can have set it |
| SxCss.CssColor | src/components/Box/Box.tsx:151-177 | `backgroundColor` is an explicit string or number `backgroundColor` if given, in any order; else a truthy `bgcolor`; else absent, so an empty `bgcolor` emits nothing |
| SxCss.CssSpacing | src/components/Box/Box.tsx:172-174 | A defined single-side shorthand sets its long property, whatever its position relative to the axis shorthand, unless the long name is given a scalar |
| SxCss.CssLongForm | src/components/Box/Box.tsx:172-177 | A scalar under a spacing property's own name wins over the axis fan-out, in either order, when the property's single shorthand is undefined |
| SxCss.CssAxis | src/components/Box/Box.tsx:133-149 | A defined axis shorthand (0 included) sets each of its two sides, unless that side's own shorthand or long name overrides it |
| SxCss.CssNoShorthands | src/components/Box/Box.tsx:157-177 | None of the fifteen shorthand keys appears in the resolved record |
| SxCss.CssNested | src/components/Box/Box.tsx:166-169 | A selector key holding an object becomes that selector holding `sxToCSS` of the object, recursively; a selector holding a scalar is copied; an undefined one is absent |
| SxCss.AxisExample | src/components/Box/Box.tsx:134-177 | `{px: 4, pl: 1}` resolves to `{paddingLeft: 1, paddingRight: 4}`, with `paddingLeft` rewritten in place |
| SxCss.LongFormAfterShorthand | src/components/Box/Box.tsx:172-177 | `pl` and an explicit `paddingLeft` compete for `paddingLeft`, and the later entry wins: `{pl: 1, paddingLeft: 2}` gives 2, `{paddingLeft: 2, pl: 1}` gives 1 |
| SxCss.PaddingAfterShorthand | src/components/Box/Box.tsx:172-177 | `p` and an explicit `padding` compete for `padding`, and the later entry wins: `{p: 1, padding: 2}` gives 2, `{padding: 2, p: 1}` gives 1 |
| SxCss.ColorExample | src/components/Box/Box.tsx:152-154 | `{bgcolor: "red"}` resolves to `{backgroundColor: "red"}` |
| SxCss.NestedExample | src/components/Box/Box.tsx:166-169 | A nested `&:hover` block with `bgcolor` resolves to `&:hover` holding `backgroundColor` |
| SxCss.MediaExample | src/components/Box/Box.tsx:175-177 | `{"@media (max-width: 600px)": {p: 1}}` is admitted by the `SxProps` type and resolves to `{}`: a block under a key that is not a selector is dropped |
| SxCss.CssDistinct | src/components/Box/Box.tsx:117-179 | The resolved record never holds a key twice |
| SxCss.CssResolved | src/components/Box/Box.tsx:116-179 | Any `sx` with no object under a shorthand key and with selector blocks typed alike (less than the `SxProps` interface asks) resolves, at every depth, to a record with distinct keys, no shorthand key and no undefined value, where only selectors hold (resolved) blocks |
| SxCss.CssFixpoint | src/components/Box/Box.tsx:157-178 | A resolved record passes through `sxToCSS` unchanged |
| SxCss.CssIdempotent | src/components/Box/Box.tsx:116-179 | Resolving any `sx` with no object under a shorthand key, selector blocks typed alike, twice gives the same record as resolving it once |
| SxStyle.SxToStyle | src/components/Box/BoxExample.tsx:115-179 | The imperative `sxToStyle` returns exactly `ResolveStyle(sx)` |
| SxStyle.StyleFind | src/components/Box/BoxExample.tsx:155-176 | A key's value is the entry loop's last assignment to it, or else what the fan-out step left there |
| SxStyle.StyleOwn | src/components/Box/BoxExample.tsx:156-176 | A key no shorthand renames to holds what its own entry assigns, or else the fan-out value |
| SxStyle.StylePlain | src/components/Box/BoxExample.tsx:172-175 | A key that is not a shorthand, spacing property or selector is copied exactly when it holds a string or number; otherwise only the fan-out can set it |
| SxStyle.StyleColor | src/components/Box/BoxExample.tsx:150-175 | An explicit scalar `backgroundColor` wins over `bgcolor` in any order; a truthy `bgcolor` fills it otherwise; an empty one emits nothing |
| SxStyle.StyleSpacing | src/components/Box/BoxExample.tsx:169-171 | A scalar single-side shorthand sets its long property in any position relative to the axis shorthand, unless the long name is given a scalar |
| SxStyle.StyleLongForm | src/components/Box/BoxExample.tsx:169-175 | A scalar under a spacing property's own name wins over the axis fan-out, in either order, when the single shorthand holds no scalar |
| SxStyle.StyleAxis | src/components/Box/BoxExample.tsx:132-148 | A defined axis shorthand sets each side, unless the side's shorthand or long name holds a scalar |
| SxStyle.StyleDrops | src/components/Box/BoxExample.tsx:157-171 | No shorthand key and no `&` selector key appears in the style object |
| SxStyle.StyleAgreesWithCss | src/components/Box/BoxExample.tsx:155-176 | On every `sx` with no object under a single-side spacing shorthand, every non-selector key has the same value under `sxToStyle` as under `sxToCSS` |
| SxStyle.SpacingExample | src/components/Box/BoxExample.tsx:132-171 | `{p: 2, px: 4}` gives `{paddingLeft: 4, paddingRight: 4, padding: 2}`, in that entry order |
| SxStyle.PaddingAfterShorthand | src/components/Box/BoxExample.tsx:169-175 | `p` and an explicit `padding` compete for `padding`, and the later entry wins: `{p: 1, padding: 2}` gives 2, `{padding: 2, p: 1}` gives 1 |
| SxStyle.StyleDistinct | src/components/Box/BoxExample.tsx:116-178 | The style object never holds a key twice |
| SxStyle.StyleFlat | src/components/Box/BoxExample.tsx:155-178 | When the five fanned-out shorthands hold no object, the output is flat: distinct keys, only strings and numbers, and no shorthand or selector key, whatever else `sx` holds |
| SxStyle.StyleFixpoint | src/components/Box/BoxExample.tsx:156-176 | A flat style object maps to itself, entry order included |
| SxStyle.StyleIdempotent | src/components/Box/BoxExample.tsx:115-179 | Applying `sxToStyle` to its own flat output changes nothing |
| Partition.Split | src/components/Box/Box.tsx:297-308 | The partition loop yields exactly the entries routed to CSS and the entries routed to HTML, each in entry order |
| Partition.SplitMultiset | src/components/Box/Box.tsx:300-308 | The two channels together hold every entry of `restProps` exactly once, unchanged |
| Partition.SplitFind | src/components/Box/BoxExample.tsx:277-283 | A key goes to `cssProps` if and only if it is allow-listed and not undefined, and to `htmlProps` otherwise, with its value unchanged |
| Partition.RestFind | src/components/Box/Box.tsx:295 | `restProps` lacks `component`, `sx`, `children` and `style`, and holds every other prop unchanged |
| Partition.ChannelsFind | src/components/Box/BoxExample.tsx:272-283 | Both channels have distinct keys; a caller's prop reaches exactly one of them according to the allow-list; destructured props reach neither |
| Partition.ListedIn | src/components/Box/Box.tsx:301 | The name-by-name lookup of the allow-list succeeds exactly when the name occurs in it |
| Partition.ClassNameNotCss | src/components/Box/Box.tsx:185-272 | `className` is not in `CSS_PROPERTIES` |
| CssText.LowerAll | src/components/Box/Box.tsx:285 | `toLowerCase` keeps the length and lower-cases each ASCII letter in place |
| CssText.KebabStep | src/components/Box/Box.tsx:285 | Hyphenating and then lower-casing replaces each uppercase letter by `-` and its lowercase, one character at a time |
| CssText.KebabNoUpper | src/components/Box/Box.tsx:285 | A kebab-case key holds no ASCII uppercase letter |
| CssText.KebabLength | src/components/Box/Box.tsx:285 | A key grows by one character per uppercase letter |
| CssText.KebabUnchanged | src/components/Box/Box.tsx:285 | A key without uppercase letters is its own CSS name |
| CssText.CamelKebab | src/components/Box/Box.tsx:285 | Converting a key without `-` back to camelCase recovers it |
| CssText.KebabInjective | src/components/Box/Box.tsx:285 | Two keys without `-` never share a CSS name |
| CssText.NatTextValue | src/components/Box/Box.tsx:286 | The decimal text of a natural number reads back as that number |
| CssText.DeclarationsConcat | src/components/Box/Box.tsx:283-288 | The declaration text of two records in sequence is their two texts joined by one space |
| Props.SpreadFind | src/components/Box/Box.tsx:311-314 | `{...a, ...b}` holds the keys of both; `b`'s value wins on every key it has |
| StyledBox.Box | src/components/Box/Box.tsx:294-336 | The styled `Box` body, run step by step, renders `StyledBox` with `StyledProps(props, ref)` and the caller's children |
| StyledBox.CombinedFind | src/components/Box/Box.tsx:311-314 | `combinedCSSProps` holds the keys of `cssProps` and `style`; `style` wins; otherwise an allow-listed, defined direct prop keeps its value |
| StyledBox.WithRefDistinct | src/components/Box/Box.tsx:320-322 | Adding the ref keeps the HTML channel free of duplicate keys |
| StyledBox.StyledClassName | src/components/Box/Box.tsx:324-331 | `className` is `"tomato-box"` unless the caller passes one, which is spread last and replaces it |
| StyledBox.StyledRef | src/components/Box/Box.tsx:320-330 | A truthy `ref` reaches `StyledBox` |
| StyledBox.StyledRule | src/components/Box/Box.tsx:280-292 | The rule is `box-sizing`, then the kebab declarations of `combinedCSSProps`, then the resolved `sx` block, or nothing when `sx` is absent |
| InlineBox.Box | src/components/Box/BoxExample.tsx:271-305 | The inline `Box` body, run step by step, creates the `component` element (default `div`) with `ElementProps(props, ref)` and the children |
| InlineBox.CombinedFind | src/components/Box/BoxExample.tsx:285-290 | `combinedStyle[k]` is `style[k]` if present, else the allow-listed direct prop, else `sxToStyle(sx)[k]`; a missing `sx` acts as `{}` |
| InlineBox.ColorExample | src/components/Box/BoxExample.tsx:286-290 | sx `red`, direct `blue` and style `green` give `green`; without the style they give `blue` |
| InlineBox.ElementStyle | src/components/Box/BoxExample.tsx:294-301 | The element always carries `style = combinedStyle`; the HTML channel cannot replace it |
| InlineBox.ElementClassName | src/components/Box/BoxExample.tsx:294-301 | `className` is `"tomato-box"` unless the caller passes one, which replaces it |

## Left out

- React is outside the model. `forwardRef`, JSX and `React.createElement` are replaced by an `Element` value. In the inline-style variant it holds the tag, the props bag and the children. In the styled variant it holds only the props bag and the children, and the tag is the `as` entry of the props bag. Ref forwarding beyond placing `ref` among the props is not modelled.
- Emotion's `css()` and Emotion's `styled` are outside the model. The styled `Box` is modelled up to the props it hands to `StyledBox`, and the template up to its three pieces. Not modelled: class-name generation and injection, scoping of nested `&` rules, automatic unit suffixes, Emotion's `styled` treatment of `as` and `$`-prefixed props, and how Emotion's `styled` joins a caller's `className` with its own class.
- Values are limited to `undefined`, strings, integers and objects. `null`, booleans, functions and floating-point numbers are not modelled, and numbers render as integers only.
- A truthy `sx` or `style` that is not an object (for example a string whose characters `Object.entries` would enumerate) is treated as absent or empty.
- The model's `spacingMap` holds exactly its ten entries. `key in spacingMap` also matching inherited keys such as `toString` is not modelled.
- Entries are taken in the order given. JavaScript's rule that integer-like keys enumerate first is not modelled.
- `toLowerCase` is modelled on ASCII letters only.
- The template's surrounding whitespace and the serialised text of the `sx` block are not modelled; the block is kept as its resolved record.
- The CSS cascade itself is outside the model. The model fixes the order of declarations in the rule, and "later wins" is the browser's rule applied to that order.
- Props bags are assumed to have distinct keys, as every JavaScript object does. This is the `DistinctKeys` precondition on the lemmas that read a bag.
- Storybook stories, TypeScript type declarations beyond the data shape, and the `box.css` import are not modelled.
- SxCss.CssLongForm: states the long-form override only when the single-side shorthand is undefined. When both are given, the later of the two entries wins. That case follows from `SxCss.CssFind`, but no lemma states it on its own.
- SxStyle.StyleLongForm: states the long-form override only when the single-side shorthand holds no string or number. The case where both are given follows from `SxStyle.StyleFind`.
- SxCss.CssSpacing: states the shorthand's win only when the long property name holds no string or number. The case where both are given follows from `SxCss.CssFind`.
- SxStyle.StyleSpacing: states the shorthand's win only when the long property name holds no string or number. The case where both are given follows from `SxStyle.StyleFind`.
- StyledBox.StyledRule: requires that the caller passes no props named `$cssProps` or `$sxStyles`. Such props would be spread over the fixed ones and replace them.
