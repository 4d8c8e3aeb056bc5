/** The declaration text the styled Box writes for its direct CSS props:
    each key turned from camelCase into kebab-case, each value rendered as a
    template literal renders it, and the declarations joined by spaces. */
module CssText {
  import opened Props

  predicate IsUpper(c: char)
  {
    'A' <= c <= 'Z'
  }

  predicate IsLower(c: char)
  {
    'a' <= c <= 'z'
  }

  /** `toLowerCase` on one ASCII character. */
  function Lower(c: char): (d: char)
    ensures IsUpper(c) ==> IsLower(d) && d as int == c as int + 32
    ensures !IsUpper(c) ==> d == c
  {
    if IsUpper(c) then (c as int + 32) as char else c
  }

  /** `toUpperCase` on one ASCII character. */
  function Upper(c: char): (d: char)
    ensures IsLower(c) ==> IsUpper(d) && d as int == c as int - 32
    ensures !IsLower(c) ==> d == c
  {
    if IsLower(c) then (c as int - 32) as char else c
  }

  /** `key.replace(/([A-Z])/g, "-$1")`: a `-` before every uppercase letter. */
  function Hyphenate(s: string): string
  {
    if s == [] then []
    else (if IsUpper(s[0]) then ['-', s[0]] else [s[0]]) + Hyphenate(s[1..])
  }

  /** `toLowerCase` on an ASCII string. */
  function LowerAll(s: string): (t: string)
    ensures |t| == |s|
    ensures forall i :: 0 <= i < |s| ==> t[i] == Lower(s[i])
  {
    if s == [] then [] else [Lower(s[0])] + LowerAll(s[1..])
  }

  /** The CSS name of a camelCase key: hyphenated, then lower-cased. */
  function Kebab(key: string): string
  {
    LowerAll(Hyphenate(key))
  }

  function CountUpper(s: string): nat
  {
    if s == [] then 0 else (if IsUpper(s[0]) then 1 else 0) + CountUpper(s[1..])
  }

  /** Kebab-case back to camelCase: a `-` followed by a lowercase letter
      becomes that letter in uppercase. */
  function Camel(t: string): string
  {
    if t == [] then []
    else if |t| >= 2 && t[0] == '-' && IsLower(t[1]) then [Upper(t[1])] + Camel(t[2..])
    else [t[0]] + Camel(t[1..])
  }

  /** Hyphenating then lower-casing is the same as replacing every uppercase
      letter by `-` and its lowercase, one character at a time. */
  lemma {:induction false} KebabStep(s: string)
    requires s != []
    ensures Kebab(s) == (if IsUpper(s[0]) then ['-', Lower(s[0])] else [s[0]]) + Kebab(s[1..])
  {
    var head := if IsUpper(s[0]) then ['-', s[0]] else [s[0]];
    assert Hyphenate(s) == head + Hyphenate(s[1..]);
    LowerAllConcat(head, Hyphenate(s[1..]));
    if IsUpper(s[0]) {
      assert LowerAll(head) == ['-', Lower(s[0])];
    } else {
      assert LowerAll(head) == [s[0]];
    }
  }

  lemma {:induction false} LowerAllConcat(a: string, b: string)
    ensures LowerAll(a + b) == LowerAll(a) + LowerAll(b)
  {
    var l, r := LowerAll(a + b), LowerAll(a) + LowerAll(b);
    assert |l| == |r|;
    forall i | 0 <= i < |l| ensures l[i] == r[i] {
      if i < |a| {
        calc {
          l[i];
          Lower((a + b)[i]);
          { assert (a + b)[i] == a[i]; }
          Lower(a[i]);
          LowerAll(a)[i];
        }
      } else {
        calc {
          l[i];
          Lower((a + b)[i]);
          { assert (a + b)[i] == b[i - |a|]; }
          Lower(b[i - |a|]);
          LowerAll(b)[i - |a|];
        }
      }
    }
  }

  /** No uppercase letter is left in a kebab-case key. */
  lemma {:induction false} KebabNoUpper(s: string)
    ensures forall i :: 0 <= i < |Kebab(s)| ==> !IsUpper(Kebab(s)[i])
  {
    var h := Hyphenate(s);
    forall i | 0 <= i < |Kebab(s)| ensures !IsUpper(Kebab(s)[i]) {
      assert Kebab(s)[i] == Lower(h[i]);
    }
  }

  /** Each uppercase letter grows the key by one `-`. */
  lemma {:induction false} KebabLength(s: string)
    ensures |Kebab(s)| == |s| + CountUpper(s)
  {
    if s != [] {
      KebabStep(s);
      KebabLength(s[1..]);
    }
  }

  /** A key with no uppercase letter is its own CSS name. */
  lemma {:induction false} KebabUnchanged(s: string)
    requires CountUpper(s) == 0
    ensures Kebab(s) == s
  {
    if s != [] {
      KebabStep(s);
      KebabUnchanged(s[1..]);
      assert s == [s[0]] + s[1..];
    }
  }

  /** A key without `-` is recovered from its CSS name, so two such keys
      never share a CSS name. */
  lemma {:induction false} CamelKebab(s: string)
    requires forall i :: 0 <= i < |s| ==> s[i] != '-'
    ensures Camel(Kebab(s)) == s
  {
    if s != [] {
      KebabStep(s);
      CamelKebab(s[1..]);
      var k := Kebab(s);
      if IsUpper(s[0]) {
        assert k[..2] == ['-', Lower(s[0])] && k[2..] == Kebab(s[1..]);
      } else {
        assert k[1..] == Kebab(s[1..]);
      }
      assert s == [s[0]] + s[1..];
    }
  }

  lemma KebabInjective(s: string, t: string)
    requires forall i :: 0 <= i < |s| ==> s[i] != '-'
    requires forall i :: 0 <= i < |t| ==> t[i] != '-'
    requires Kebab(s) == Kebab(t)
    ensures s == t
  {
    CamelKebab(s);
    CamelKebab(t);
  }

  // ---------------------------------------------------------------------
  // Values

  /** The character of one decimal digit. */
  function Digit(d: nat): (c: char)
    requires d < 10
    ensures '0' <= c <= '9' && c as int - '0' as int == d
  {
    ('0' as int + d) as char
  }

  /** The decimal text of a natural number, as `String(n)` writes it. */
  function NatText(n: nat): (t: string)
    ensures |t| > 0
    ensures forall i :: 0 <= i < |t| ==> '0' <= t[i] <= '9'
  {
    if n < 10 then [Digit(n)] else NatText(n / 10) + [Digit(n % 10)]
  }

  /** The number a string of decimal digits denotes. */
  function DigitsValue(t: string): nat
    requires forall i :: 0 <= i < |t| ==> '0' <= t[i] <= '9'
  {
    if t == [] then 0
    else DigitsValue(t[..|t| - 1]) * 10 + (t[|t| - 1] as int - '0' as int)
  }

  /** Reading the decimal text back gives the number. */
  lemma {:induction false} NatTextValue(n: nat)
    ensures DigitsValue(NatText(n)) == n
  {
    var t := NatText(n);
    if n >= 10 {
      NatTextValue(n / 10);
      assert t[..|t| - 1] == NatText(n / 10);
    }
  }

  /** `${value}` in a template literal. */
  function Render(v: Val): string
  {
    match v
    case Str(s) => s
    case Num(n) => if n < 0 then "-" + NatText(-n) else NatText(n)
    case Undef => "undefined"
    case Obj(_) => "[object Object]"
  }

  /** `${cssKey}: ${value};` */
  function Declaration(e: Entry): string
  {
    Kebab(e.0) + ": " + Render(e.1) + ";"
  }

  /** The declarations of a record, in entry order, joined by single spaces. */
  function Declarations(b: Bag): string
    decreases |b|
  {
    if b == [] then ""
    else if |b| == 1 then Declaration(b[0])
    else Declarations(b[..|b| - 1]) + " " + Declaration(b[|b| - 1])
  }

  lemma JoinAssoc(x: string, y: string, z: string)
    ensures (x + " " + y) + " " + z == x + " " + (y + " " + z)
  {
  }

  lemma DeclarationsSnoc(a: Bag, e: Entry)
    requires a != []
    ensures Declarations(a + [e]) == Declarations(a) + " " + Declaration(e)
  {
    assert (a + [e])[..|a|] == a;
  }

  /** The text of two records one after the other is their two texts joined
      by one space. */
  lemma {:induction false} DeclarationsConcat(a: Bag, b: Bag)
    requires a != [] && b != []
    ensures Declarations(a + b) == Declarations(a) + " " + Declarations(b)
    decreases |b|
  {
    var init := b[..|b| - 1];
    var e := b[|b| - 1];
    assert b == init + [e];
    assert a + b == (a + init) + [e];
    if init == [] {
      DeclarationsSnoc(a, e);
    } else {
      DeclarationsConcat(a, init);
      DeclarationsSnoc(a + init, e);
      DeclarationsSnoc(init, e);
      JoinAssoc(Declarations(a), Declarations(init), Declaration(e));
    }
  }
}
