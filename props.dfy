/** JavaScript property bags as the Box component sees them: records whose
    entries keep insertion order, written one assignment at a time. */
module Props {

  datatype Option<+T> = None | Some(value: T)

  /** A prop or style value: `undefined`, a string, an integral number, or a
      nested object (an `sx` block, a `style` object, a resolved rule). */
  datatype Val = Undef | Str(s: string) | Num(n: int) | Obj(entries: seq<(string, Val)>)

  type Entry = (string, Val)

  /** A record in enumeration order (what `Object.entries` yields). */
  type Bag = seq<Entry>

  /** One pending assignment `record[key] = value`, or none. */
  type Write = Option<Entry>

  function KeySet(b: Bag): set<string>
  {
    set e | e in b :: e.0
  }

  /** Every JavaScript object has this shape: no key twice. */
  predicate DistinctKeys(b: Bag)
  {
    forall i, j :: 0 <= i < j < |b| ==> b[i].0 != b[j].0
  }

  predicate IsScalar(v: Val)
  {
    v.Str? || v.Num?
  }

  /** JavaScript truthiness of a value (`if (v)`). */
  predicate Truthy(v: Val)
  {
    match v
    case Undef => false
    case Str(s) => s != ""
    case Num(n) => n != 0
    case Obj(_) => true
  }

  /** The entry stored under `k`, if the record has one. */
  function Find(b: Bag, k: string): Option<Val>
  {
    if b == [] then None
    else if b[0].0 == k then Some(b[0].1)
    else Find(b[1..], k)
  }

  /** Property read `b[k]`: a missing key reads as `undefined`. */
  function Get(b: Bag, k: string): Val
  {
    match Find(b, k)
    case Some(v) => v
    case None => Undef
  }

  /** Property assignment `b[k] = v`: an existing key keeps its place and
      takes the new value, a new key goes to the end. */
  function Put(b: Bag, k: string, v: Val): Bag
  {
    if b == [] then [(k, v)]
    else if b[0].0 == k then [(k, v)] + b[1..]
    else [b[0]] + Put(b[1..], k, v)
  }

  function Apply(b: Bag, w: Write): Bag
  {
    match w
    case None => b
    case Some(e) => Put(b, e.0, e.1)
  }

  predicate Writes(w: Write, k: string)
  {
    w.Some? && w.value.0 == k
  }

  function WrittenKeys(ws: seq<Write>): set<string>
  {
    set w | w in ws && w.Some? :: w.value.0
  }

  /** The record after performing the assignments `ws` in order on `b`. */
  function ApplyWrites(b: Bag, ws: seq<Write>): Bag
    decreases |ws|
  {
    if ws == [] then b
    else Apply(ApplyWrites(b, ws[..|ws| - 1]), ws[|ws| - 1])
  }

  /** The value the last assignment to `k` in `ws` stores, if any does. */
  function LastWrite(ws: seq<Write>, k: string): Option<Val>
    decreases |ws|
  {
    if ws == [] then None
    else if Writes(ws[|ws| - 1], k) then Some(ws[|ws| - 1].value.1)
    else LastWrite(ws[..|ws| - 1], k)
  }

  /** The assignments `{...es}` performs, one per entry. */
  function AllWrites(es: Bag): (ws: seq<Write>)
    ensures |ws| == |es|
    ensures forall i :: 0 <= i < |es| ==> ws[i] == Some(es[i])
  {
    seq(|es|, i requires 0 <= i < |es| => Some(es[i]))
  }

  /** Object spread `{...a, ...b}`: the entries of `b` are assigned onto `a`. */
  function Spread(a: Bag, b: Bag): Bag
  {
    ApplyWrites(a, AllWrites(b))
  }

  // ---------------------------------------------------------------------
  // Reading

  /** A read finds something exactly when the key is present, and what it
      finds is stored under that key. */
  lemma {:induction false} FindKeys(b: Bag, k: string)
    ensures Find(b, k).Some? <==> k in KeySet(b)
    ensures Find(b, k).Some? ==> (k, Find(b, k).value) in b
  {
    if b != [] {
      assert b == [b[0]] + b[1..];
      FindKeys(b[1..], k);
    }
  }

  /** In a record with distinct keys each entry is what a read of its key
      finds. */
  lemma {:induction false} FindEntry(b: Bag, i: int)
    requires DistinctKeys(b) && 0 <= i < |b|
    ensures Find(b, b[i].0) == Some(b[i].1)
  {
    if i > 0 {
      FindEntry(b[1..], i - 1);
    }
  }

  /** A read of a one-entry record. */
  lemma FindSingle(e: Entry, k: string)
    ensures Find([e], k) == if e.0 == k then Some(e.1) else None
  {
    assert [e][1..] == [];
  }

  /** An entry of `b` found at index `i`. */
  lemma EntryIndex(b: Bag, k: string) returns (i: nat)
    requires k in KeySet(b)
    ensures i < |b| && b[i].0 == k
  {
    var e :| e in b && e.0 == k;
    i :| 0 <= i < |b| && b[i] == e;
  }

  lemma KeySetConcat(a: Bag, b: Bag)
    ensures KeySet(a + b) == KeySet(a) + KeySet(b)
  {
  }

  // ---------------------------------------------------------------------
  // Assignment

  /** After `b[k] = v`, reading `k` gives `v` and every other key reads as
      before. */
  lemma {:induction false} PutFind(b: Bag, k: string, v: Val, j: string)
    ensures Find(Put(b, k, v), j) == if j == k then Some(v) else Find(b, j)
  {
    if b != [] && b[0].0 != k {
      PutFind(b[1..], k, v, j);
    }
  }

  lemma {:induction false} PutKeys(b: Bag, k: string, v: Val)
    ensures KeySet(Put(b, k, v)) == KeySet(b) + {k}
  {
    if b != [] {
      assert b == [b[0]] + b[1..];
      if b[0].0 != k {
        PutKeys(b[1..], k, v);
        KeySetConcat([b[0]], Put(b[1..], k, v));
      }
    }
  }

  lemma ConsDistinct(e: Entry, r: Bag)
    requires DistinctKeys(r) && e.0 !in KeySet(r)
    ensures DistinctKeys([e] + r)
  {
    forall i, j | 0 <= i < j < |[e] + r| ensures ([e] + r)[i].0 != ([e] + r)[j].0 {
      if i == 0 {
        assert r[j - 1] in r;
      }
    }
  }

  /** Assignment keeps the keys of a JavaScript object distinct. */
  lemma {:induction false} PutDistinct(b: Bag, k: string, v: Val)
    requires DistinctKeys(b)
    ensures DistinctKeys(Put(b, k, v))
  {
    if b != [] && b[0].0 != k {
      PutDistinct(b[1..], k, v);
      PutKeys(b[1..], k, v);
      assert b[0].0 !in KeySet(b[1..]);
      ConsDistinct(b[0], Put(b[1..], k, v));
    }
  }

  /** Assignment to an absent key appends the new entry. */
  lemma {:induction false} PutAppends(b: Bag, k: string, v: Val)
    requires k !in KeySet(b)
    ensures Put(b, k, v) == b + [(k, v)]
  {
    if b != [] {
      assert b[0] in b;
      assert b == [b[0]] + b[1..];
      PutAppends(b[1..], k, v);
    }
  }

  /** Assigning a third key to a two-entry record appends it. */
  lemma PutPair(a: Entry, b: Entry, k: string, v: Val)
    requires a.0 != k && b.0 != k
    ensures Put([a, b], k, v) == [a, b, (k, v)]
  {
    assert [a, b][1..] == [b];
    assert Put([b], k, v) == [b, (k, v)];
  }

  /** Assignment to a present key rewrites that entry where it stands. */
  lemma {:induction false} PutInPlace(b: Bag, k: string, v: Val)
    requires k in KeySet(b)
    ensures |Put(b, k, v)| == |b|
    ensures forall i :: 0 <= i < |b| ==> Put(b, k, v)[i].0 == b[i].0
  {
    assert b != [];
    if b[0].0 != k {
      assert b == [b[0]] + b[1..];
      PutInPlace(b[1..], k, v);
    }
  }

  /** An assignment adds the assigned entry and otherwise keeps entries. */
  lemma {:induction false} PutEntries(b: Bag, k: string, v: Val)
    ensures forall e :: e in Put(b, k, v) ==> e in b || e == (k, v)
  {
    if b != [] && b[0].0 != k {
      PutEntries(b[1..], k, v);
      assert forall e :: e in b[1..] ==> e in b;
    }
  }

  // ---------------------------------------------------------------------
  // Runs of assignments

  /** Whatever holds of every starting entry and every assigned entry holds
      of every entry afterwards. */
  lemma {:induction false} ApplyWritesEntries(b: Bag, ws: seq<Write>, P: Entry -> bool)
    requires forall e :: e in b ==> P(e)
    requires forall j :: 0 <= j < |ws| && ws[j].Some? ==> P(ws[j].value)
    ensures forall e :: e in ApplyWrites(b, ws) ==> P(e)
    decreases |ws|
  {
    if ws != [] {
      var init := ws[..|ws| - 1];
      ApplyWritesEntries(b, init, P);
      if ws[|ws| - 1].Some? {
        var e := ws[|ws| - 1].value;
        PutEntries(ApplyWrites(b, init), e.0, e.1);
      }
    }
  }

  /** Assignments that assign nothing leave the record as it was. */
  lemma {:induction false} ApplyNoWrites(b: Bag, ws: seq<Write>)
    requires forall j :: 0 <= j < |ws| ==> ws[j] == None
    ensures ApplyWrites(b, ws) == b
    decreases |ws|
  {
    if ws != [] {
      ApplyNoWrites(b, ws[..|ws| - 1]);
    }
  }

  lemma {:induction false} ApplyWritesKeys(b: Bag, ws: seq<Write>)
    ensures KeySet(ApplyWrites(b, ws)) == KeySet(b) + WrittenKeys(ws)
    decreases |ws|
  {
    if ws != [] {
      var init := ws[..|ws| - 1];
      assert ws == init + [ws[|ws| - 1]];
      ApplyWritesKeys(b, init);
      if ws[|ws| - 1].Some? {
        var e := ws[|ws| - 1].value;
        PutKeys(ApplyWrites(b, init), e.0, e.1);
      }
    }
  }

  lemma {:induction false} ApplyWritesDistinct(b: Bag, ws: seq<Write>)
    requires DistinctKeys(b)
    ensures DistinctKeys(ApplyWrites(b, ws))
    decreases |ws|
  {
    if ws != [] {
      var init := ws[..|ws| - 1];
      ApplyWritesDistinct(b, init);
      if ws[|ws| - 1].Some? {
        var e := ws[|ws| - 1].value;
        PutDistinct(ApplyWrites(b, init), e.0, e.1);
      }
    }
  }

  lemma ApplyWritesSnoc(b: Bag, ws: seq<Write>, w: Write)
    ensures ApplyWrites(b, ws + [w]) == Apply(ApplyWrites(b, ws), w)
  {
    assert (ws + [w])[..|ws|] == ws;
  }

  lemma ApplyWritesPair(b: Bag, w1: Write, w2: Write)
    ensures ApplyWrites(b, [w1, w2]) == Apply(Apply(b, w1), w2)
  {
    ApplyWritesSnoc(b, [], w1);
    ApplyWritesSnoc(b, [w1], w2);
    assert [] + [w1] == [w1] && [w1] + [w2] == [w1, w2];
  }

  lemma {:induction false} ApplyWritesConcat(b: Bag, ws: seq<Write>, vs: seq<Write>)
    ensures ApplyWrites(b, ws + vs) == ApplyWrites(ApplyWrites(b, ws), vs)
    decreases |vs|
  {
    if vs != [] {
      var init := vs[..|vs| - 1];
      assert ws + vs == (ws + init) + [vs[|vs| - 1]];
      ApplyWritesConcat(b, ws, init);
    } else {
      assert ws + vs == ws;
    }
  }

  lemma LastWriteStep(ws: seq<Write>, j: int, k: string)
    requires 0 <= j < |ws|
    ensures LastWrite(ws[..j + 1], k)
         == (if Writes(ws[j], k) then Some(ws[j].value.1) else LastWrite(ws[..j], k))
  {
    assert ws[..j + 1][..j] == ws[..j];
  }

  lemma LastWritePair(w1: Write, w2: Write, k: string)
    ensures LastWrite([w1, w2], k)
         == (if Writes(w2, k) then Some(w2.value.1)
             else if Writes(w1, k) then Some(w1.value.1) else None)
  {
    var ws := [w1, w2];
    LastWriteStep(ws, 0, k);
    LastWriteStep(ws, 1, k);
    assert ws[..0] == [] && ws[..1] == [w1] && ws[..2] == ws;
  }

  lemma {:induction false} LastWriteConcat(ws: seq<Write>, vs: seq<Write>, k: string)
    ensures LastWrite(ws + vs, k)
         == (if LastWrite(vs, k).Some? then LastWrite(vs, k) else LastWrite(ws, k))
    decreases |vs|
  {
    if vs != [] {
      var init := vs[..|vs| - 1];
      assert (ws + vs)[..|ws + vs| - 1] == ws + init;
      LastWriteConcat(ws, init, k);
    } else {
      assert ws + vs == ws;
    }
  }

  /** After a run of assignments, a key holds the value of its last
      assignment, or what it held before when none assigns it. */
  lemma {:induction false} FindAfterWrites(b: Bag, ws: seq<Write>, k: string)
    ensures Find(ApplyWrites(b, ws), k)
         == (if LastWrite(ws, k).Some? then LastWrite(ws, k) else Find(b, k))
    decreases |ws|
  {
    if ws != [] {
      var init := ws[..|ws| - 1];
      FindAfterWrites(b, init, k);
      if ws[|ws| - 1].Some? {
        var e := ws[|ws| - 1].value;
        PutFind(ApplyWrites(b, init), e.0, e.1, k);
      }
    }
  }

  lemma {:induction false} LastWriteAt(ws: seq<Write>, i: int, k: string, v: Val)
    requires 0 <= i < |ws| && ws[i] == Some((k, v))
    requires forall j :: i < j < |ws| ==> !Writes(ws[j], k)
    ensures LastWrite(ws, k) == Some(v)
    decreases |ws|
  {
    if i < |ws| - 1 {
      LastWriteAt(ws[..|ws| - 1], i, k, v);
    }
  }

  lemma {:induction false} LastWriteNone(ws: seq<Write>, k: string)
    requires forall j :: 0 <= j < |ws| ==> !Writes(ws[j], k)
    ensures LastWrite(ws, k) == None
    decreases |ws|
  {
    if ws != [] {
      LastWriteNone(ws[..|ws| - 1], k);
    }
  }

  lemma LastKeyFresh(s: Bag)
    requires s != [] && DistinctKeys(s)
    ensures s[|s| - 1].0 !in KeySet(s[..|s| - 1])
  {
  }

  lemma SnocDistinct(r: Bag, e: Entry)
    requires DistinctKeys(r) && e.0 !in KeySet(r)
    ensures DistinctKeys(r + [e])
  {
    forall i, j | 0 <= i < j < |r + [e]| ensures (r + [e])[i].0 != (r + [e])[j].0 {
      assert r[i] in r;
    }
  }

  /** Assigning fresh, distinct keys appends them in order. */
  lemma {:induction false} ApplyFreshWrites(b: Bag, es: Bag)
    requires DistinctKeys(b + es)
    ensures ApplyWrites(b, AllWrites(es)) == b + es
    decreases |es|
  {
    if es != [] {
      var init := es[..|es| - 1];
      var last := es[|es| - 1];
      var s := b + es;
      assert AllWrites(es) == AllWrites(init) + [Some(last)];
      assert s[..|s| - 1] == b + init;
      assert s == (b + init) + [last];
      assert DistinctKeys(b + init);
      ApplyFreshWrites(b, init);
      ApplyWritesSnoc(b, AllWrites(init), Some(last));
      LastKeyFresh(s);
      PutAppends(b + init, last.0, last.1);
    } else {
      assert b + es == b;
    }
  }

  lemma WrittenKeysAll(b: Bag)
    ensures WrittenKeys(AllWrites(b)) == KeySet(b)
  {
    var ws := AllWrites(b);
    forall x | x in KeySet(b) ensures x in WrittenKeys(ws) {
      var e :| e in b && e.0 == x;
      var i :| 0 <= i < |b| && b[i] == e;
      assert ws[i] in ws;
    }
    forall x | x in WrittenKeys(ws) ensures x in KeySet(b) {
      var w :| w in ws && w.Some? && w.value.0 == x;
      var i :| 0 <= i < |ws| && ws[i] == w;
      assert b[i] in b;
    }
  }

  /** `{...a, ...b}` has the keys of both, and `b` wins on every key it has. */
  lemma SpreadFind(a: Bag, b: Bag, k: string)
    requires DistinctKeys(b)
    ensures KeySet(Spread(a, b)) == KeySet(a) + KeySet(b)
    ensures Find(Spread(a, b), k) == (if k in KeySet(b) then Find(b, k) else Find(a, k))
  {
    var ws := AllWrites(b);
    WrittenKeysAll(b);
    ApplyWritesKeys(a, ws);
    FindAfterWrites(a, ws, k);
    if k in KeySet(b) {
      var e :| e in b && e.0 == k;
      var i :| 0 <= i < |b| && b[i] == e;
      FindEntry(b, i);
      LastWriteAt(ws, i, k, b[i].1);
    } else {
      forall j | 0 <= j < |ws| ensures !Writes(ws[j], k) {
        assert b[j] in b;
      }
      LastWriteNone(ws, k);
    }
  }

  /** Two runs of assignments that agree on every assignment to `k` leave the
      same last value under `k`. */
  lemma {:induction false} LastWriteAgree(ws: seq<Write>, vs: seq<Write>, k: string)
    requires |ws| == |vs|
    requires forall j :: 0 <= j < |ws| ==>
               Writes(ws[j], k) == Writes(vs[j], k)
               && (Writes(ws[j], k) ==> ws[j].value.1 == vs[j].value.1)
    ensures LastWrite(ws, k) == LastWrite(vs, k)
    decreases |ws|
  {
    if ws != [] {
      LastWriteAgree(ws[..|ws| - 1], vs[..|vs| - 1], k);
    }
  }

  // ---------------------------------------------------------------------
  // Filtering

  /** The entries of `b` that satisfy `keep`, in entry order. */
  function Filter(b: Bag, keep: Entry -> bool): Bag
    decreases |b|
  {
    if b == [] then []
    else
      var last := b[|b| - 1];
      Filter(b[..|b| - 1], keep) + (if keep(last) then [last] else [])
  }

  lemma {:induction false} FilterEntries(b: Bag, keep: Entry -> bool)
    ensures forall e :: e in Filter(b, keep) <==> e in b && keep(e)
    decreases |b|
  {
    if b != [] {
      FilterEntries(b[..|b| - 1], keep);
      assert b == b[..|b| - 1] + [b[|b| - 1]];
    }
  }

  /** Filtering by a test and by its negation shares the entries of `b`
      out between the two results. */
  lemma {:induction false} FilterComplement(b: Bag, keep: Entry -> bool, drop: Entry -> bool)
    requires forall e :: drop(e) == !keep(e)
    ensures multiset(Filter(b, keep)) + multiset(Filter(b, drop)) == multiset(b)
    decreases |b|
  {
    if b != [] {
      var init, last := b[..|b| - 1], b[|b| - 1];
      FilterComplement(init, keep, drop);
      assert b == init + [last];
      assert multiset(b) == multiset(init) + multiset{last};
      if keep(last) {
        assert Filter(b, keep) == Filter(init, keep) + [last];
        assert Filter(b, drop) == Filter(init, drop) + [];
      } else {
        assert Filter(b, keep) == Filter(init, keep) + [];
        assert Filter(b, drop) == Filter(init, drop) + [last];
      }
    }
  }

  lemma FilterKeys(b: Bag, keep: Entry -> bool)
    ensures KeySet(Filter(b, keep)) <= KeySet(b)
  {
    FilterEntries(b, keep);
  }

  /** Filtering a JavaScript object yields one: no key twice. */
  lemma {:induction false} FilterDistinct(b: Bag, keep: Entry -> bool)
    requires DistinctKeys(b)
    ensures DistinctKeys(Filter(b, keep))
    decreases |b|
  {
    if b != [] {
      var init := b[..|b| - 1];
      var last := b[|b| - 1];
      assert DistinctKeys(init);
      FilterDistinct(init, keep);
      if keep(last) {
        FilterKeys(init, keep);
        LastKeyFresh(b);
        SnocDistinct(Filter(init, keep), last);
      }
    }
  }

  /** A filtered object holds a key, with its value unchanged, exactly when
      the original holds it and its entry is kept. */
  lemma FilterFind(b: Bag, keep: Entry -> bool, k: string)
    requires DistinctKeys(b)
    ensures Find(Filter(b, keep), k)
         == if Find(b, k).Some? && keep((k, Find(b, k).value)) then Find(b, k) else None
  {
    var s := Filter(b, keep);
    FilterEntries(b, keep);
    FilterDistinct(b, keep);
    FindKeys(s, k);
    FindKeys(b, k);
    if Find(b, k).Some? {
      var i :| 0 <= i < |b| && b[i] == (k, Find(b, k).value);
      FindEntry(b, i);
      if Find(s, k).Some? {
        var j :| 0 <= j < |s| && s[j] == (k, Find(s, k).value);
        assert s[j] in b;
        var i' :| 0 <= i' < |b| && b[i'] == s[j];
        FindEntry(b, i');
      }
    }
  }

  /** The entries `{...v}` spreads: an object's own entries, and none for
      `undefined`. */
  function Entries(v: Val): Bag
  {
    if v.Obj? then v.entries else []
  }
}
