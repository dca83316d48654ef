/** The bounded, recency-ordered registry of JA4 components (proxy/ja4_registry.py). */
module Ja4Registry {
  import opened PyText
  import opened Json
  import opened Hashing
  import opened Ja4
  import opened Ja4Diff

  const MAX_ENTRIES: nat := 200

  /** The items of an ordered dictionary keyed by `ja4`, oldest first. */
  type Items = seq<Ja4Components>

  /** The position of a key, or the length. */
  function Find(items: Items, key: PyStr): (i: nat)
    ensures i <= |items| && (i < |items| ==> items[i].ja4 == key)
    ensures forall j | 0 <= j < i :: items[j].ja4 != key
  {
    if items == [] || items[0].ja4 == key then 0 else 1 + Find(items[1..], key)
  }

  /** `d[key] = value`: in place for a key already there, at the end otherwise. */
  function Assign(items: Items, c: Ja4Components): Items {
    var i := Find(items, c.ja4);
    if i < |items| then items[i := c] else items + [c]
  }

  /** `move_to_end(key)`. */
  function MoveToEnd(items: Items, key: PyStr): Items {
    var i := Find(items, key);
    if i < |items| then items[..i] + items[i + 1..] + [items[i]] else items
  }

  function Last(items: Items, n: nat): Items {
    if |items| <= n then items else items[|items| - n..]
  }

  function Without(items: Items, key: PyStr): Items {
    if items == [] then []
    else
      var before, c := Without(items[..|items| - 1], key), items[|items| - 1];
      if c.ja4 == key then before else before + [c]
  }

  /** Every key recorded, most recently recorded last, with its latest components. */
  function Recency(records: seq<Ja4Components>): Items {
    if records == [] then []
    else
      var c := records[|records| - 1];
      Without(Recency(records[..|records| - 1]), c.ja4) + [c]
  }

  class Ja4Registry {
    var items: Items
    ghost var records: seq<Ja4Components>

    ghost predicate Valid()
      reads this
    {
      items == Last(Recency(records), MAX_ENTRIES)
    }

    constructor ()
      ensures Valid() && records == []
    {
      items := [];
      records := [];
    }

    method Record(c: Ja4Components)
      requires Valid()
      modifies this
      ensures Valid() && records == old(records) + [c]
    {
      RecordStep(records, c);
      hide Recency, Assign, MoveToEnd;
      items := Assign(items, c);
      items := MoveToEnd(items, c.ja4);
      ghost var full := items;
      while |items| > MAX_ENTRIES
        invariant records == old(records) && Last(items, MAX_ENTRIES) == Last(full, MAX_ENTRIES)
        decreases |items|
      {
        items := items[1..];
      }
      records := records + [c];
    }

    method Get(ja4: Option<PyStr>) returns (r: Option<Ja4Components>)
      requires Valid()
      ensures ja4.None? ==> r.None?
      ensures ja4.Some? && Held(records, ja4.value) ==> r == Some(Latest(records, ja4.value))
      ensures ja4.Some? && !Held(records, ja4.value) ==> r.None?
    {
      if ja4.None? {
        return None;
      }
      var i := Find(items, ja4.value);
      LookupMeaning(records, ja4.value);
      return if i < |items| then Some(items[i]) else None;
    }
  }

  // ----- keys -----

  function Keys(items: Items): set<PyStr> {
    if items == [] then {} else Keys(items[..|items| - 1]) + {items[|items| - 1].ja4}
  }

  predicate Distinct(items: Items) {
    items == [] || (items[|items| - 1].ja4 !in Keys(items[..|items| - 1]) && Distinct(items[..|items| - 1]))
  }

  lemma {:induction false} KeysConcat(a: Items, b: Items)
    ensures Keys(a + b) == Keys(a) + Keys(b)
  {
    if b == [] {
      assert a + b == a;
    } else {
      KeysConcat(a, b[..|b| - 1]);
      assert (a + b)[..|a + b| - 1] == a + b[..|b| - 1];
    }
  }

  lemma {:induction false} KeysNone()
    ensures Keys([]) == {}
  {}

  lemma {:induction false} KeysOne(c: Ja4Components)
    ensures Keys([c]) == {c.ja4}
  {
    assert [c][..0] == [];
  }

  lemma {:induction false} DistinctConcat(a: Items, b: Items)
    ensures Distinct(a + b) <==> Distinct(a) && Distinct(b) && Keys(a) !! Keys(b)
  {
    if b == [] {
      assert a + b == a;
    } else {
      DistinctConcat(a, b[..|b| - 1]);
      KeysConcat(a, b[..|b| - 1]);
      assert (a + b)[..|a + b| - 1] == a + b[..|b| - 1];
    }
  }

  lemma {:induction false} DistinctCount(items: Items)
    requires Distinct(items)
    ensures |Keys(items)| == |items|
  {
    if items != [] { DistinctCount(items[..|items| - 1]); }
  }

  lemma {:induction false} WithoutConcat(a: Items, b: Items, key: PyStr)
    ensures Without(a + b, key) == Without(a, key) + Without(b, key)
  {
    if b == [] {
      assert a + b == a;
    } else {
      WithoutConcat(a, b[..|b| - 1], key);
      assert (a + b)[..|a + b| - 1] == a + b[..|b| - 1];
    }
  }

  lemma {:induction false} Append(items: Items, c: Ja4Components, key: PyStr)
    ensures Keys(items + [c]) == Keys(items) + {c.ja4}
    ensures Distinct(items + [c]) <==> Distinct(items) && c.ja4 !in Keys(items)
    ensures Without(items + [c], key) == if c.ja4 == key then Without(items, key) else Without(items, key) + [c]
  {
    assert (items + [c])[..|items|] == items;
  }

  lemma {:induction false} WithoutKeysStep(items: Items, c: Ja4Components, key: PyStr)
    requires Keys(Without(items, key)) == Keys(items) - {key}
    requires key !in Keys(items) ==> Without(items, key) == items
    requires Distinct(items) ==> Distinct(Without(items, key))
    ensures var all := items + [c];
            && Keys(Without(all, key)) == Keys(all) - {key}
            && (key !in Keys(all) ==> Without(all, key) == all)
            && (Distinct(all) ==> Distinct(Without(all, key)))
  {
    hide Without, Keys, Distinct;
    Append(items, c, key);
    Append(Without(items, key), c, key);
  }

  lemma {:induction false} WithoutKeys(items: Items, key: PyStr)
    ensures Keys(Without(items, key)) == Keys(items) - {key}
    ensures key !in Keys(items) ==> Without(items, key) == items
    ensures Distinct(items) ==> Distinct(Without(items, key))
  {
    if items != [] {
      var init, c := items[..|items| - 1], items[|items| - 1];
      WithoutKeys(init, key);
      assert items == init + [c];
      hide Without, Keys, Distinct;
      WithoutKeysStep(init, c, key);
    }
  }

  lemma {:induction false} KeysIn(items: Items, i: nat)
    requires i < |items|
    ensures items[i].ja4 in Keys(items)
  {
    if i < |items| - 1 { KeysIn(items[..|items| - 1], i); }
  }

  /** A list split at the one item with a key: finding, removing and replacing that item. */
  lemma {:induction false} AtSplit(pre: Items, x: Ja4Components, post: Items)
    requires x.ja4 !in Keys(pre) && x.ja4 !in Keys(post)
    ensures Find(pre + [x] + post, x.ja4) == |pre|
    ensures Without(pre + [x] + post, x.ja4) == pre + post
  {
    var all := pre + [x] + post;
    assert all[|pre|] == x;
    forall j | 0 <= j < |pre| ensures all[j].ja4 != x.ja4 {
      KeysIn(pre, j);
      assert all[j] == pre[j];
    }
    WithoutConcat(pre + [x], post, x.ja4);
    WithoutConcat(pre, [x], x.ja4);
    WithoutKeys(pre, x.ja4);
    WithoutKeys(post, x.ja4);
    assert Without([x], x.ja4) == [];
  }

  lemma {:induction false} FindAbsent(items: Items, key: PyStr)
    requires key !in Keys(items)
    ensures Find(items, key) == |items| && Without(items, key) == items
  {
    var k := Find(items, key);
    if k < |items| { KeysIn(items, k); }
    WithoutKeys(items, key);
  }

  lemma {:induction false} SplitAt(items: Items, key: PyStr) returns (pre: Items, x: Ja4Components, post: Items)
    requires Distinct(items) && key in Keys(items)
    ensures items == pre + [x] + post && x.ja4 == key && key !in Keys(pre) && key !in Keys(post)
  {
    var init, c := items[..|items| - 1], items[|items| - 1];
    assert items == init + [c];
    hide Keys, Distinct;
    Append(init, c, key);
    if c.ja4 == key {
      pre, x, post := init, c, [];
      KeysNone();
      assert items == init + [c] + [];
    } else {
      pre, x, post := SplitAt(init, key);
      KeysConcat(post, [c]);
      KeysOne(c);
      post := post + [c];
      assert items == init + [c];
    }
  }

  // ----- one record -----

  lemma {:induction false} RecencyKeys(records: seq<Ja4Components>)
    ensures Distinct(Recency(records)) && Keys(Recency(records)) == Keys(records)
  {
    if records != [] {
      var init, c := records[..|records| - 1], records[|records| - 1];
      RecencyKeys(init);
      var w := Without(Recency(init), c.ja4);
      WithoutKeys(Recency(init), c.ja4);
      assert (w + [c])[..|w|] == w;
    }
  }

  /** Assigning and moving to the end is removing and appending. */
  lemma {:induction false} AssignThenMove(items: Items, c: Ja4Components)
    requires Distinct(items)
    ensures MoveToEnd(Assign(items, c), c.ja4) == Without(items, c.ja4) + [c]
  {
    hide Find, Without, Keys, Distinct;
    if c.ja4 in Keys(items) {
      var pre, x, post := SplitAt(items, c.ja4);
      AtSplit(pre, x, post);
      AtSplit(pre, c, post);
      var r := pre + [c] + post;
      assert Assign(items, c) == r;
      assert r[..|pre|] == pre && r[|pre| + 1..] == post && r[|pre|] == c;
      assert MoveToEnd(r, c.ja4) == pre + post + [c];
    } else {
      FindAbsent(items, c.ja4);
      KeysNone();
      AtSplit(items, c, []);
      assert items + [c] + [] == items + [c];
    }
  }

  /** Trimming before or after a record gives the same list. */
  lemma {:induction false} TrimCommutes(items: Items, c: Ja4Components)
    requires Distinct(items)
    ensures Last(Without(Last(items, MAX_ENTRIES), c.ja4) + [c], MAX_ENTRIES)
            == Last(Without(items, c.ja4) + [c], MAX_ENTRIES)
  {
    hide Without, Keys, Distinct;
    if |items| > MAX_ENTRIES {
      var front, tail := items[..|items| - MAX_ENTRIES], items[|items| - MAX_ENTRIES..];
      assert items == front + tail;
      WithoutConcat(front, tail, c.ja4);
      DistinctConcat(front, tail);
      WithoutKeys(front, c.ja4);
      WithoutKeys(tail, c.ja4);
      if c.ja4 in Keys(tail) {
        var pre, x, post := SplitAt(tail, c.ja4);
        AtSplit(pre, x, post);
      }
      var f, t := Without(front, c.ja4), Without(tail, c.ja4);
      assert |t| >= MAX_ENTRIES - 1;
      LastConcat(f, t + [c], MAX_ENTRIES);
      assert f + t + [c] == f + (t + [c]);
    }
  }

  lemma {:induction false} LastConcat(a: Items, b: Items, n: nat)
    ensures |b| >= n ==> Last(a + b, n) == Last(b, n)
    ensures |b| <= n ==> Last(a + b, n) == Last(a, n - |b|) + b
  {
  }

  lemma {:induction false} RecordStep(records: seq<Ja4Components>, c: Ja4Components)
    ensures var items := Last(Recency(records), MAX_ENTRIES);
            Last(MoveToEnd(Assign(items, c), c.ja4), MAX_ENTRIES) == Last(Recency(records + [c]), MAX_ENTRIES)
  {
    var r := Recency(records);
    var items := Last(r, MAX_ENTRIES);
    RecencyKeys(records);
    if |r| > MAX_ENTRIES {
      assert r == r[..|r| - MAX_ENTRIES] + items;
      DistinctConcat(r[..|r| - MAX_ENTRIES], items);
    }
    AssignThenMove(items, c);
    TrimCommutes(r, c);
    assert (records + [c])[..|records|] == records;
  }

  // ----- an exact least-recently-used cache -----

  function Latest(records: seq<Ja4Components>, key: PyStr): (c: Ja4Components)
    requires key in Keys(records)
    ensures c.ja4 == key && c in records
  {
    var c := records[|records| - 1];
    if c.ja4 == key then c else Latest(records[..|records| - 1], key)
  }

  /** The keys recorded after the key's last record. */
  function KeysAfter(records: seq<Ja4Components>, key: PyStr): set<PyStr> {
    if records == [] || records[|records| - 1].ja4 == key then {}
    else KeysAfter(records[..|records| - 1], key) + {records[|records| - 1].ja4}
  }

  /** The key was recorded, and fewer than 200 others were since. */
  predicate Held(records: seq<Ja4Components>, key: PyStr) {
    key in Keys(records) && |KeysAfter(records, key)| < 200
  }

  /** In the recency list a key's latest components stand before exactly the keys recorded since. */
  lemma {:induction false} Rank(records: seq<Ja4Components>, key: PyStr) returns (pre: Items, post: Items)
    requires key in Keys(records)
    ensures Recency(records) == pre + [Latest(records, key)] + post
    ensures key !in Keys(pre) && key !in Keys(post) && Keys(post) == KeysAfter(records, key)
  {
    hide Recency, Without, Distinct;
    var init, c := records[..|records| - 1], records[|records| - 1];
    RecencyLast(records);
    if c.ja4 == key {
      pre, post := Without(Recency(init), key), [];
      WithoutKeys(Recency(init), key);
      assert pre + [c] + [] == pre + [c];
    } else {
      pre, post := Rank(init, key);
      pre, post := RankStep(pre, Latest(init, key), post, c);
    }
  }

  /** A later record of another key moves that key behind. */
  lemma {:induction false} RankStep(pre: Items, x: Ja4Components, post: Items, c: Ja4Components)
    returns (pre': Items, post': Items)
    requires x.ja4 !in Keys(pre) && x.ja4 !in Keys(post) && c.ja4 != x.ja4
    ensures Without(pre + [x] + post, c.ja4) + [c] == pre' + [x] + post'
    ensures x.ja4 !in Keys(pre') && x.ja4 !in Keys(post') && Keys(post') == Keys(post) + {c.ja4}
  {
    hide Without, Keys, Distinct;
    WithoutConcat(pre + [x], post, c.ja4);
    WithoutConcat(pre, [x], c.ja4);
    KeysOne(x);
    WithoutKeys([x], c.ja4);
    WithoutKeys(pre, c.ja4);
    WithoutKeys(post, c.ja4);
    pre', post' := Without(pre, c.ja4), Without(post, c.ja4) + [c];
    Append(Without(post, c.ja4), c, c.ja4);
  }

  lemma {:induction false} RecencyLast(records: seq<Ja4Components>)
    requires records != []
    ensures var c := records[|records| - 1];
            Recency(records) == Without(Recency(records[..|records| - 1]), c.ja4) + [c]
  {}

  lemma {:induction false} FoundInLast(pre: Items, x: Ja4Components, post: Items, n: nat)
    requires x.ja4 !in Keys(pre) && x.ja4 !in Keys(post)
    ensures var items := Last(pre + [x] + post, n); var i := Find(items, x.ja4);
            if |post| < n then i < |items| && items[i] == x else i == |items|
  {
    hide Find, Keys;
    if |post| < n {
      LastConcat(pre, [x] + post, n);
      assert pre + [x] + post == pre + ([x] + post);
      var p := Last(pre, n - 1 - |post|);
      LastKeys(pre, n - 1 - |post|);
      assert p + ([x] + post) == p + [x] + post;
      AtSplit(p, x, post);
    } else {
      LastConcat(pre + [x], post, n);
      LastKeys(post, n);
      FindAbsent(Last(post, n), x.ja4);
    }
  }

  lemma {:induction false} LastKeys(items: Items, n: nat)
    ensures Keys(Last(items, n)) <= Keys(items)
  {
    var r := Last(items, n);
    assert items == items[..|items| - |r|] + r;
    KeysConcat(items[..|items| - |r|], r);
  }

  /**
   * The registry is an exact LRU: a key is held exactly when it was recorded and fewer than
   * 200 distinct keys were recorded since, and then with its latest components.
   */
  lemma {:induction false} LookupMeaning(records: seq<Ja4Components>, key: PyStr)
    ensures var items := Last(Recency(records), MAX_ENTRIES); var i := Find(items, key);
            if Held(records, key) then i < |items| && items[i] == Latest(records, key) else i == |items|
  {
    RecencyKeys(records);
    hide Recency, Find, Keys, Distinct, Last;
    if key in Keys(records) {
      var pre, post := Rank(records, key);
      var x := Latest(records, key);
      DistinctConcat(pre + [x], post);
      DistinctCount(post);
      FoundInLast(pre, x, post, MAX_ENTRIES);
    } else {
      LastKeys(Recency(records), MAX_ENTRIES);
      FindAbsent(Last(Recency(records), MAX_ENTRIES), key);
    }
  }

  /** It holds min(200, number of distinct keys) entries. */
  lemma {:induction false} RegistrySize(records: seq<Ja4Components>)
    ensures |Last(Recency(records), MAX_ENTRIES)|
            == if |Keys(records)| <= 200 then |Keys(records)| else 200
  {
    RecencyKeys(records);
    DistinctCount(Recency(records));
  }

  /**
   * The diff shown for a request blocked on its fingerprint: none if either side has left the
   * registry, and otherwise never empty.
   */
  method MismatchDiff(h: StrHash, registry: Ja4Registry, presented: Option<PyStr>, bound: PyStr)
    returns (diff: Option<Diff>)
    requires registry.Valid() && forall c <- registry.records :: OwnString(h, c)
    requires presented != Some(bound)
    ensures diff.Some? <==> presented.Some? && Held(registry.records, presented.value) && Held(registry.records, bound)
    ensures diff.Some? ==>
              IsDiff(Latest(registry.records, bound), Latest(registry.records, presented.value), diff.value)
              && diff.value != map[]
  {
    hide OwnString, Held;
    var p := registry.Get(presented);
    var b := registry.Get(Some(bound));
    if p.Some? && b.Some? {
      var d := DiffJa4(b.value, p.value);
      MismatchShows(h, b.value, p.value, d);
      return Some(d);
    }
    return None;
  }
}
