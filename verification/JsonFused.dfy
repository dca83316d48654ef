/**
 * What reading back changes: which values come back as themselves, which keep their canonical text, and
 * what values a text can be read as.
 */
module JsonFused {
  import opened PyText
  import opened Json
  import G = JsonGrammar
  import opened JsonRoundTrip

  // ----- dictionaries built from pairs -----

  lemma {:induction false} DictKeys(pairs: seq<(PyStr, Json)>)
    ensures forall k :: k in Dict(pairs) <==> exists i | 0 <= i < |pairs| :: pairs[i].0 == k
  {
    if pairs != [] {
      var init := pairs[..|pairs| - 1];
      DictKeys(init);
      forall k ensures k in Dict(pairs) <==> exists i | 0 <= i < |pairs| :: pairs[i].0 == k {
        if i :| 0 <= i < |pairs| && pairs[i].0 == k && i < |init| { assert init[i].0 == k; }
        if k in Dict(init) {
          var i :| 0 <= i < |init| && init[i].0 == k;
          assert pairs[i].0 == k;
        }
      }
    }
  }

  /** The pair that counts for its key: no later one has that key. */
  predicate LastPair(pairs: seq<(PyStr, Json)>, k: PyStr, i: nat) {
    i < |pairs| && pairs[i].0 == k && forall j | i < j < |pairs| :: pairs[j].0 != k
  }

  /** Of the pairs with one key the last counts. */
  lemma {:induction false} DictIff(pairs: seq<(PyStr, Json)>, k: PyStr, x: Json)
    ensures k in Dict(pairs) && Dict(pairs)[k] == x <==> exists i: nat :: LastPair(pairs, k, i) && pairs[i].1 == x
  {
    if pairs != [] {
      var n := |pairs| - 1;
      var init := pairs[..n];
      if pairs[n].0 == k {
        assert LastPair(pairs, k, n);
      } else {
        DictIff(init, k, x);
        if i: nat :| LastPair(init, k, i) && init[i].1 == x { assert LastPair(pairs, k, i); }
        if i: nat :| LastPair(pairs, k, i) && pairs[i].1 == x { assert LastPair(init, k, i); }
      }
    }
  }

  predicate DistinctKeys(pairs: seq<(PyStr, Json)>) {
    forall i, j | 0 <= i < j < |pairs| :: pairs[i].0 != pairs[j].0
  }

  lemma {:induction false} DictAt(pairs: seq<(PyStr, Json)>, i: nat)
    requires DistinctKeys(pairs) && i < |pairs|
    ensures pairs[i].0 in Dict(pairs) && Dict(pairs)[pairs[i].0] == pairs[i].1
  {
    if i < |pairs| - 1 {
      var init := pairs[..|pairs| - 1];
      assert init[i] == pairs[i];
      DictAt(init, i);
    }
  }

  // ----- what comes back, member by member -----

  lemma {:induction false} DocsAt(items: seq<Json>, i: nat)
    requires i < |items|
    ensures DocsOf(items)[i] == DocOf(items[i])
  {
    hide DocOf;
    if i > 0 { DocsAt(items[1..], i - 1); }
  }

  lemma {:induction false} MemberAt(v: Json, keys: seq<PyStr>, i: nat)
    requires v.Obj? && (forall k <- keys :: k in v.members) && i < |keys|
    ensures MemberDocs(v, keys)[i] == (JoinPairs(keys[i]), DocOf(v.members[keys[i]]))
  {
    hide DocOf;
    if i > 0 { MemberAt(v, keys[1..], i - 1); }
  }

  function FusedItems(fl: FloatReader, items: seq<Json>): (r: seq<Json>)
    ensures |r| == |items|
  {
    seq(|items|, i requires 0 <= i < |items| => Fused(fl, items[i]))
  }

  lemma {:induction false} FusedArr(fl: FloatReader, items: seq<Json>)
    ensures Fused(fl, Arr(items)) == Arr(FusedItems(fl, items))
  {
    hide DocOf;
    var ds := DocsOf(items);
    assert DocOf(Arr(items)) == ArrDoc(ds) by { DocOfArr(items); }
    hide ValueOf;
    var vs := seq(|ds|, i requires 0 <= i < |ds| => ValueOf(fl, ds[i]));
    assert ValueOf(fl, ArrDoc(ds)) == Arr(vs) by { ValueOfArr(fl, ds); }
    forall i | 0 <= i < |items| ensures vs[i] == FusedItems(fl, items)[i] {
      DocsAt(items, i);
    }
    assert vs == FusedItems(fl, items);
  }

  lemma {:induction false} DocOfArr(items: seq<Json>)
    ensures DocOf(Arr(items)) == ArrDoc(DocsOf(items))
  {}

  lemma {:induction false} ValueOfArr(fl: FloatReader, ds: seq<Doc>)
    ensures ValueOf(fl, ArrDoc(ds)) == Arr(seq(|ds|, i requires 0 <= i < |ds| => ValueOf(fl, ds[i])))
  {}

  /** The pairs an object reads back from. */
  function FusedPairs(fl: FloatReader, m: map<PyStr, Json>): (r: seq<(PyStr, Json)>)
    ensures |r| == |SortedKeys(m.Keys)|
  {
    var ks := SortedKeys(m.Keys);
    seq(|ks|, i requires 0 <= i < |ks| => (JoinPairs(ks[i]), Fused(fl, m[ks[i]])))
  }

  lemma {:induction false} FusedObj(fl: FloatReader, m: map<PyStr, Json>)
    ensures Fused(fl, Obj(m)) == Obj(Dict(FusedPairs(fl, m)))
  {
    hide DocOf, ValueOf, SortedKeys, MemberDocs, Dict;
    var v, ks := Obj(m), SortedKeys(m.Keys);
    var ds := MemberDocs(v, ks);
    DocOfObj(m);
    ValueOfObj(fl, ds);
    var ps := seq(|ds|, i requires 0 <= i < |ds| => (ds[i].0, ValueOf(fl, ds[i].1)));
    forall i | 0 <= i < |ks| ensures ps[i] == FusedPairs(fl, m)[i] {
      MemberAt(v, ks, i);
    }
    assert ps == FusedPairs(fl, m);
  }

  lemma {:induction false} ValueOfObj(fl: FloatReader, ds: seq<(PyStr, Doc)>)
    ensures ValueOf(fl, ObjDoc(ds)) == Obj(Dict(seq(|ds|, i requires 0 <= i < |ds| => (ds[i].0, ValueOf(fl, ds[i].1)))))
  {}

  // ----- values that come back as themselves -----

  /** No string and no key in the value holds a surrogate pair. */
  predicate Plain(fl: FloatReader, v: Json) {
    match v
    case Float(t) => fl(t) == t
    case Str(s) => PairFree(s)
    case Arr(items) => forall i | 0 <= i < |items| :: Plain(fl, items[i])
    case Obj(m) => forall k | k in m :: PairFree(k) && Plain(fl, m[k])
    case _ => true
  }

  /** A value reads back as itself exactly when no string and no key in it holds a surrogate pair. */
  lemma {:induction false} RoundTripIff(fl: FloatReader, v: Json)
    ensures Parse(fl, Print(v)) == Some(v) <==> Plain(fl, v)
  {
    ParsePrint(fl, v);
    FusedIdentity(fl, v);
  }

  lemma {:induction false} FusedIdentity(fl: FloatReader, v: Json)
    ensures Fused(fl, v) == v <==> Plain(fl, v)
  {
    match v
    case Str(s) => JoinPairsIdentity(s);
    case Arr(items) => FusedItemsIdentity(fl, items);
    case Obj(m) => FusedMembersIdentity(fl, m);
    case _ =>
  }

  lemma {:induction false} FusedItemsIdentity(fl: FloatReader, items: seq<Json>)
    ensures Fused(fl, Arr(items)) == Arr(items) <==> Plain(fl, Arr(items))
    decreases Arr(items), 0
  {
    hide Fused;
    FusedArr(fl, items);
    forall i | 0 <= i < |items| ensures Fused(fl, items[i]) == items[i] <==> Plain(fl, items[i]) {
      FusedIdentity(fl, items[i]);
    }
    assert FusedItems(fl, items) == items <==> forall i | 0 <= i < |items| :: FusedItems(fl, items)[i] == items[i];
  }

  lemma {:induction false} FusedMembersIdentity(fl: FloatReader, m: map<PyStr, Json>)
    ensures Fused(fl, Obj(m)) == Obj(m) <==> Plain(fl, Obj(m))
    decreases Obj(m), 0
  {
    FusedObj(fl, m);
    forall k | k in m ensures Fused(fl, m[k]) == m[k] <==> Plain(fl, m[k]) {
      FusedIdentity(fl, m[k]);
    }
    hide Fused, Plain, Dict;
    assert Plain(fl, Obj(m)) <==> forall k | k in m :: PairFree(k) && Plain(fl, m[k]) by { PlainObj(fl, m); }
    if Plain(fl, Obj(m)) { PlainMembersKept(fl, m); }
    if Dict(FusedPairs(fl, m)) == m { KeptMembersPlain(fl, m); }
  }

  lemma {:induction false} PlainObj(fl: FloatReader, m: map<PyStr, Json>)
    ensures Plain(fl, Obj(m)) <==> forall k | k in m :: PairFree(k) && Plain(fl, m[k])
  {}

  /** Plain keys stay as they are, so the dictionary is the old one with its values read back. */
  lemma {:induction false} PlainKeysFused(fl: FloatReader, m: map<PyStr, Json>)
    requires forall k | k in m :: PairFree(k)
    ensures Dict(FusedPairs(fl, m)) == map k | k in m :: Fused(fl, m[k])
  {
    hide Fused, Dict, FusedPairs, SortedKeys, PairFree;
    var ks, ps := SortedKeys(m.Keys), FusedPairs(fl, m);
    forall i | 0 <= i < |ks| ensures ps[i] == (ks[i], Fused(fl, m[ks[i]])) {
      FusedPairAt(fl, m, i);
      JoinPairsIdentity(ks[i]);
    }
    DictKeys(ps);
    forall k | k in m ensures k in Dict(ps) && Dict(ps)[k] == Fused(fl, m[k]) {
      var i :| 0 <= i < |ks| && ks[i] == k;
      DictAt(ps, i);
    }
  }

  lemma {:induction false} FusedPairAt(fl: FloatReader, m: map<PyStr, Json>, i: nat)
    requires i < |SortedKeys(m.Keys)|
    ensures var k := SortedKeys(m.Keys)[i]; FusedPairs(fl, m)[i] == (JoinPairs(k), Fused(fl, m[k]))
  {}

  lemma {:induction false} PlainMembersKept(fl: FloatReader, m: map<PyStr, Json>)
    requires forall k | k in m :: PairFree(k) && Fused(fl, m[k]) == m[k]
    ensures Dict(FusedPairs(fl, m)) == m
  {
    hide Fused, Dict;
    PlainKeysFused(fl, m);
  }

  lemma {:induction false} KeptMembersPlain(fl: FloatReader, m: map<PyStr, Json>)
    requires Dict(FusedPairs(fl, m)) == m
    ensures forall k | k in m :: PairFree(k) && Fused(fl, m[k]) == m[k]
  {
    hide Fused, Dict;
    var ks, ps := SortedKeys(m.Keys), FusedPairs(fl, m);
    DictKeys(ps);
    forall k | k in m ensures PairFree(k) {
      var i :| 0 <= i < |ps| && ps[i].0 == k;
      JoinPairsTwice(ks[i]);
      JoinPairsIdentity(k);
    }
    PlainKeysFused(fl, m);
    var n := map k | k in m :: Fused(fl, m[k]);
    forall k | k in m ensures Fused(fl, m[k]) == m[k] {
      assert n[k] == m[k];
    }
  }

  // ----- values that keep their text -----

  predicate Before(a: PyStr, b: PyStr) { Leq(a, b) && a != b }

  /** Fusing the pairs in the keys keeps them apart and in order. */
  predicate KeysKeepOrder(keys: set<PyStr>) {
    forall k, l | k in keys && l in keys && Before(k, l) :: Before(JoinPairs(k), JoinPairs(l))
  }

  /** The keys of every object in the value keep their order. */
  predicate Stable(fl: FloatReader, v: Json) {
    match v
    case Float(t) => fl(t) == t
    case Arr(items) => forall i | 0 <= i < |items| :: Stable(fl, items[i])
    case Obj(m) => KeysKeepOrder(m.Keys) && forall k | k in m :: Stable(fl, m[k])
    case _ => true
  }

  /** A value read back has the same canonical text exactly when its keys keep their order. */
  lemma {:induction false} FusedTextIff(fl: FloatReader, v: Json)
    ensures Print(Fused(fl, v)) == Print(v) <==> Stable(fl, v)
  {
    PrintEqualIff(Fused(fl, v), v);
    FusedDocIff(fl, v);
  }

  lemma {:induction false} FusedDocIff(fl: FloatReader, v: Json)
    ensures DocOf(Fused(fl, v)) == DocOf(v) <==> Stable(fl, v)
  {
    match v
    case Str(s) => JoinPairsTwice(s);
    case Arr(items) => FusedItemsDocIff(fl, items);
    case Obj(m) => FusedMembersDocIff(fl, m);
    case _ =>
  }

  lemma {:induction false} FusedItemsDocIff(fl: FloatReader, items: seq<Json>)
    ensures DocOf(Fused(fl, Arr(items))) == DocOf(Arr(items)) <==> Stable(fl, Arr(items))
    decreases Arr(items), 0
  {
    hide Fused;
    FusedArr(fl, items);
    var fs := FusedItems(fl, items);
    DocOfArr(items);
    DocOfArr(fs);
    forall i | 0 <= i < |items|
      ensures DocsOf(fs)[i] == DocsOf(items)[i] <==> Stable(fl, items[i])
    {
      DocsAt(items, i);
      DocsAt(fs, i);
      FusedDocIff(fl, items[i]);
    }
    hide DocsOf, DocOf;
    assert DocsOf(fs) == DocsOf(items) <==> forall i | 0 <= i < |items| :: DocsOf(fs)[i] == DocsOf(items)[i];
  }

  lemma {:induction false} FusedMembersDocIff(fl: FloatReader, m: map<PyStr, Json>)
    ensures DocOf(Fused(fl, Obj(m))) == DocOf(Obj(m)) <==> Stable(fl, Obj(m))
    decreases Obj(m), 0
  {
    FusedObj(fl, m);
    forall k | k in m ensures DocOf(Fused(fl, m[k])) == DocOf(m[k]) <==> Stable(fl, m[k]) {
      FusedDocIff(fl, m[k]);
    }
    hide Fused, Stable, Dict, DocOf;
    StableObj(fl, m);
    if KeysKeepOrder(m.Keys) {
      StableKeysDoc(fl, m);
    } else if DocOf(Obj(Dict(FusedPairs(fl, m)))) == DocOf(Obj(m)) {
      SameDocKeepsOrder(fl, m);
    }
  }

  lemma {:induction false} StableObj(fl: FloatReader, m: map<PyStr, Json>)
    ensures Stable(fl, Obj(m)) <==> KeysKeepOrder(m.Keys) && forall k | k in m :: Stable(fl, m[k])
  {}

  lemma {:induction false} DocOfObj(m: map<PyStr, Json>)
    ensures DocOf(Obj(m)) == ObjDoc(MemberDocs(Obj(m), SortedKeys(m.Keys)))
  {}

  predicate Increasing(ks: seq<PyStr>) {
    forall i, j | 0 <= i < j < |ks| :: Before(ks[i], ks[j])
  }

  /** The sorted list of a set is the only increasing one. */
  lemma {:induction false} IncreasingUnique(ks: seq<PyStr>, ls: seq<PyStr>)
    requires Increasing(ks) && Increasing(ls) && forall k :: k in ks <==> k in ls
    ensures ks == ls
  {
    assert ks != [] ==> ks[0] in ls;
    assert ls != [] ==> ls[0] in ks;
    if ks != [] {
      var i :| 0 <= i < |ls| && ls[i] == ks[0];
      var j :| 0 <= j < |ks| && ks[j] == ls[0];
      if i > 0 && j > 0 { LeqAntisymmetric(ks[0], ls[0]); }
      assert ks == [ks[0]] + ks[1..] && ls == [ls[0]] + ls[1..];
      forall k ensures k in ks[1..] <==> k in ls[1..] {
        TailOf(ks, k);
        TailOf(ls, k);
      }
      IncreasingUnique(ks[1..], ls[1..]);
    }
  }

  lemma {:induction false} TailOf(ks: seq<PyStr>, k: PyStr)
    requires Increasing(ks) && ks != []
    ensures k in ks[1..] <==> k in ks && k != ks[0]
  {
    assert ks == [ks[0]] + ks[1..];
    if k in ks[1..] {
      var i :| 0 <= i < |ks| - 1 && ks[1..][i] == k;
      assert Before(ks[0], ks[i + 1]);
    }
  }

  /** The first string is a proper prefix of the second, or smaller where they first differ. */
  ghost predicate Smaller(a: PyStr, b: PyStr) {
    a != b && exists i: nat :: FirstBelow(a, b, i)
  }

  /** The members of a dictionary, listed by ascending keys, each key with its pairs fused. */
  ghost predicate InOrder(ms: seq<(PyStr, Doc)>, m: map<PyStr, Json>, ks: seq<PyStr>) {
    && |ms| == |ks| && (forall k :: k in ks <==> k in m)
    && (forall i, j | 0 <= i < j < |ks| :: Smaller(ks[i], ks[j]))
    && forall i | 0 <= i < |ks| :: ms[i] == (JoinPairs(ks[i]), DocOf(m[ks[i]]))
  }

  /** What an object prints as: its members in ascending order of their keys before fusing. */
  lemma {:induction false} MembersInOrder(m: map<PyStr, Json>, d: Doc)
    ensures d == DocOf(Obj(m)) <==> d.ObjDoc? && exists ks :: InOrder(d.members, m, ks)
  {
    hide DocOf, MemberDocs, Leq, FirstBelow, JoinPairs;
    var v, keys := Obj(m), SortedKeys(m.Keys);
    var ds := MemberDocs(v, keys);
    DocOfObj(m);
    forall i, j | 0 <= i < j < |keys| ensures Smaller(keys[i], keys[j]) { LeqIff(keys[i], keys[j]); }
    forall i | 0 <= i < |keys| ensures ds[i] == (JoinPairs(keys[i]), DocOf(m[keys[i]])) { MemberAt(v, keys, i); }
    assert InOrder(ds, m, keys);
    if d.ObjDoc? {
      if ks :| InOrder(d.members, m, ks) {
        forall i, j | 0 <= i < j < |ks| ensures Before(ks[i], ks[j]) {
          assert Smaller(ks[i], ks[j]);
          LeqIff(ks[i], ks[j]);
        }
        IncreasingUnique(ks, keys);
        assert d.members == ds;
      }
    }
  }

  lemma {:induction false} SmallerAt(a: PyStr, b: PyStr, i: nat)
    requires i < |a| && i < |b| && a[..i] == b[..i] && a[i] < b[i]
    ensures Smaller(a, b)
  {
    assert FirstBelow(a, b, i);
  }

  /** The canonical text of an object: the one spelling of its members in the order of their keys. */
  lemma {:induction false} ObjectText(m: map<PyStr, Json>, ms: seq<(PyStr, Doc)>, ks: seq<PyStr>)
    requires InOrder(ms, m, ks)
    ensures exists sp :: Canonical(sp) && G.Text(sp) == Print(Obj(m)) && G.Meaning(sp) == ObjDoc(ms)
  {
    hide Canonical, G.Text, G.Meaning, Print, InOrder, DocOf;
    MembersInOrder(m, ObjDoc(ms));
    PrintIff(Obj(m), Print(Obj(m)));
  }

  function JoinedKeys(m: map<PyStr, Json>): (r: seq<PyStr>)
    ensures |r| == |SortedKeys(m.Keys)|
  {
    var ks := SortedKeys(m.Keys);
    seq(|ks|, i requires 0 <= i < |ks| => JoinPairs(ks[i]))
  }

  lemma {:induction false} KeepOrderIff(m: map<PyStr, Json>)
    ensures KeysKeepOrder(m.Keys) <==> Increasing(JoinedKeys(m))
  {
    var ks, js := SortedKeys(m.Keys), JoinedKeys(m);
    if KeysKeepOrder(m.Keys) {
      forall i, j | 0 <= i < j < |ks| ensures Before(js[i], js[j]) {
        assert ks[i] in m.Keys && ks[j] in m.Keys && Before(ks[i], ks[j]);
      }
    }
    if Increasing(js) {
      forall k, l | k in m.Keys && l in m.Keys && Before(k, l) ensures Before(JoinPairs(k), JoinPairs(l)) {
        var i :| 0 <= i < |ks| && ks[i] == k;
        var j :| 0 <= j < |ks| && ks[j] == l;
        if j < i { LeqAntisymmetric(k, l); }
        assert Before(js[i], js[j]);
      }
    }
  }

  /** The sorted keys of what is read back. */
  lemma {:induction false} FusedKeys(fl: FloatReader, m: map<PyStr, Json>)
    ensures var n := Dict(FusedPairs(fl, m));
            && (forall k :: k in n <==> k in JoinedKeys(m))
            && (forall k | k in n :: JoinPairs(k) == k)
            && (Increasing(JoinedKeys(m)) ==> SortedKeys(n.Keys) == JoinedKeys(m))
  {
    hide Dict, Fused;
    var ks, js, ps := SortedKeys(m.Keys), JoinedKeys(m), FusedPairs(fl, m);
    var n := Dict(ps);
    DictKeys(ps);
    forall k ensures k in n <==> k in js {
      if k in n {
        var i :| 0 <= i < |ps| && ps[i].0 == k;
        assert js[i] == k;
      }
      if i :| 0 <= i < |js| && js[i] == k { assert ps[i].0 == k; }
    }
    forall k | k in n ensures JoinPairs(k) == k {
      var i :| 0 <= i < |ps| && ps[i].0 == k;
      JoinPairsTwice(ks[i]);
    }
    if Increasing(js) { IncreasingUnique(SortedKeys(n.Keys), js); }
  }

  lemma {:induction false} StableKeysDoc(fl: FloatReader, m: map<PyStr, Json>)
    requires KeysKeepOrder(m.Keys)
    ensures DocOf(Obj(Dict(FusedPairs(fl, m)))) == DocOf(Obj(m)) <==> forall k | k in m :: DocOf(Fused(fl, m[k])) == DocOf(m[k])
  {
    hide Dict, Fused, DocOf, MemberDocs, SortedKeys, FusedPairs, JoinedKeys, KeysKeepOrder;
    var ks, js, n := SortedKeys(m.Keys), JoinedKeys(m), Dict(FusedPairs(fl, m));
    KeepOrderIff(m);
    FusedKeys(fl, m);
    DocOfObj(m);
    DocOfObj(n);
    var a, b := MemberDocs(Obj(n), js), MemberDocs(Obj(m), ks);
    forall i | 0 <= i < |ks| ensures a[i] == b[i] <==> DocOf(Fused(fl, m[ks[i]])) == DocOf(m[ks[i]]) {
      StableMember(fl, m, i);
    }
    assert a == b <==> forall i | 0 <= i < |ks| :: a[i] == b[i];
    EveryKey(ks, m.Keys, iset k | k in m && DocOf(Fused(fl, m[k])) == DocOf(m[k]));
  }

  lemma {:induction false} StableMember(fl: FloatReader, m: map<PyStr, Json>, i: nat)
    requires Increasing(JoinedKeys(m)) && i < |SortedKeys(m.Keys)|
    requires forall k <- JoinedKeys(m) :: k in Dict(FusedPairs(fl, m))
    ensures var ks, js, n := SortedKeys(m.Keys), JoinedKeys(m), Dict(FusedPairs(fl, m));
            MemberDocs(Obj(n), js)[i] == MemberDocs(Obj(m), ks)[i]
            <==> DocOf(Fused(fl, m[ks[i]])) == DocOf(m[ks[i]])
  {
    hide Dict, Fused, DocOf, MemberDocs, SortedKeys;
    var ks, js, ps := SortedKeys(m.Keys), JoinedKeys(m), FusedPairs(fl, m);
    MemberAt(Obj(Dict(ps)), js, i);
    MemberAt(Obj(m), ks, i);
    JoinPairsTwice(ks[i]);
    forall i, j | 0 <= i < j < |ps| ensures ps[i].0 != ps[j].0 {
      assert Before(js[i], js[j]);
    }
    DictAt(ps, i);
  }

  lemma {:induction false} EveryKey(ks: seq<PyStr>, keys: set<PyStr>, p: iset<PyStr>)
    requires forall k :: k in ks <==> k in keys
    ensures (forall i | 0 <= i < |ks| :: ks[i] in p) <==> forall k <- keys :: k in p
  {
    if forall i | 0 <= i < |ks| :: ks[i] in p {
      forall k | k in keys ensures k in p {
        var i :| 0 <= i < |ks| && ks[i] == k;
      }
    } else {
      var i :| 0 <= i < |ks| && ks[i] !in p;
      assert ks[i] in keys;
    }
  }

  lemma {:induction false} SameDocKeepsOrder(fl: FloatReader, m: map<PyStr, Json>)
    requires DocOf(Obj(Dict(FusedPairs(fl, m)))) == DocOf(Obj(m))
    ensures KeysKeepOrder(m.Keys)
  {
    hide Dict, Fused, DocOf, SortedKeys, FusedPairs, MemberDocs;
    var ks, n := SortedKeys(m.Keys), Dict(FusedPairs(fl, m));
    var fs, js := SortedKeys(n.Keys), JoinedKeys(m);
    DocOfObj(m);
    DocOfObj(n);
    FusedKeys(fl, m);
    forall i | 0 <= i < |ks| ensures fs[i] == js[i] {
      MemberAt(Obj(n), fs, i);
      MemberAt(Obj(m), ks, i);
    }
    KeepOrderIff(m);
  }

  /** Keys without surrogate pairs keep their order. */
  lemma {:induction false} PlainKeepsOrder(keys: set<PyStr>)
    requires forall k <- keys :: PairFree(k)
    ensures KeysKeepOrder(keys)
  {
    forall k | k in keys ensures JoinPairs(k) == k {
      JoinPairsIdentity(k);
    }
  }

  /** Two lone surrogates in a key, and a key that sorts between them and their fusion. */
  const STRADDLING: map<PyStr, Json> := map[[0xD83D, 0xDE00] := Int(1), [0xE000] := Int(2)]

  /** An object that does not keep its canonical text when it is written and read back. */
  lemma {:induction false} TextNotKept(fl: FloatReader)
    ensures Print(Fused(fl, Obj(STRADDLING))) != Print(Obj(STRADDLING))
  {
    hide Print, Fused;
    var k: PyStr, l: PyStr := [0xD83D, 0xDE00], [0xE000];
    assert Before(k, l);
    assert JoinPairs(k) == [0x1_F600] + JoinPairs([]) && JoinPairs(l) == [0xE000] + JoinPairs([]);
    assert !Before(JoinPairs(k), JoinPairs(l));
    assert k in STRADDLING.Keys && l in STRADDLING.Keys;
    FusedTextIff(fl, Obj(STRADDLING));
  }

  // ----- members of objects with the same keys -----

  /** Objects over the same keys print alike exactly when their members do, key by key. */
  lemma {:induction false} SameKeysDoc(m: map<PyStr, Json>, n: map<PyStr, Json>)
    requires m.Keys == n.Keys
    ensures DocOf(Obj(m)) == DocOf(Obj(n)) <==> forall k | k in m :: DocOf(m[k]) == DocOf(n[k])
  {
    hide DocOf, MemberDocs, SortedKeys;
    var ks := SortedKeys(m.Keys);
    DocOfObj(m);
    DocOfObj(n);
    var a, b := MemberDocs(Obj(m), ks), MemberDocs(Obj(n), ks);
    forall i | 0 <= i < |ks| ensures a[i] == b[i] <==> DocOf(m[ks[i]]) == DocOf(n[ks[i]]) {
      MemberAt(Obj(m), ks, i);
      MemberAt(Obj(n), ks, i);
    }
    assert a == b <==> forall i | 0 <= i < |ks| :: a[i] == b[i];
    EveryKey(ks, m.Keys, iset k | k in m && k in n && DocOf(m[k]) == DocOf(n[k]));
  }

  // ----- what a text can be read as -----

  /** No string and no key in the document holds a surrogate pair. */
  predicate PlainDoc(d: Doc) {
    match d
    case StrDoc(s) => PairFree(s)
    case ArrDoc(items) => forall i | 0 <= i < |items| :: PlainDoc(items[i])
    case ObjDoc(ms) => forall i | 0 <= i < |ms| :: PairFree(ms[i].0) && PlainDoc(ms[i].1)
    case _ => true
  }

  /** A string literal starts with a low surrogate only if its text starts with one's escape. */
  predicate StartsLow(t: PyStr, s: string) {
    t != [] && Low(t[0]) ==>
      |s| >= 2 && s[0] == '\\' && s[1] == 'u' && ReadU4(s[2..]).Some? && Low(ReadU4(s[2..]).value.0)
  }

  lemma {:induction false} ConsPairFree(c: Code, t: PyStr)
    requires PairFree(t) && (High(c) ==> t == [] || !Low(t[0]))
    ensures PairFree([c] + t)
  {
    var s := [c] + t;
    forall i | 0 <= i < |s| - 1 ensures !(High(s[i]) && Low(s[i + 1])) {
      if i > 0 { assert s[i] == t[i - 1] && s[i + 1] == t[i]; }
    }
  }

  lemma {:induction false} ReadStringPlain(s: string)
    ensures ReadString(s).Some? ==> PairFree(ReadString(s).value.0) && StartsLow(ReadString(s).value.0, s)
    decreases |s|
  {
    hide PairFree, ReadU4, ShortEscape;
    if s == [] {
    } else if s[0] == '"' {
      assert PairFree([]) by { JoinPairsIdentity([]); }
    } else if s[0] >= ' ' && s[0] != '\\' {
      ReadStringPlain(s[1..]);
      if ReadString(s[1..]).Some? { ConsPairFree(s[0] as int, ReadString(s[1..]).value.0); }
    } else if s[0] == '\\' && |s| > 1 {
      if s[1] == 'u' {
        ReadUnicodePlain(s);
      } else if ShortEscape(s[1]).Some? {
        ShortEscapePlain(s[1]);
        ReadStringPlain(s[2..]);
        if ReadString(s[2..]).Some? { ConsPairFree(ShortEscape(s[1]).value, ReadString(s[2..]).value.0); }
      }
    }
  }

  lemma {:induction false} ShortEscapePlain(c: char)
    ensures ShortEscape(c).Some? ==> ShortEscape(c).value < 0x100
  {}

  lemma {:induction false} ReadUnicodePlain(s: string)
    requires |s| > 1 && s[0] == '\\' && s[1] == 'u'
    ensures ReadString(s).Some? ==> PairFree(ReadString(s).value.0) && StartsLow(ReadString(s).value.0, s)
    decreases |s|, 0
  {
    hide PairFree, ReadU4;
    var r := ReadUnicode(s[2..]);
    if r.Some? {
      var (c, rest) := r.value;
      ReadStringPlain(rest);
      var tail := ReadString(rest);
      if tail.Some? { ConsPairFree(c, tail.value.0); }
    }
  }

  lemma {:induction false} ReadValuePlain(s: string)
    ensures ReadValue(s).Some? ==> PlainDoc(ReadValue(s).value.0)
    decreases |s|, 2
  {
    hide PlainDoc, ReadString, ReadNat, ReadMembers, ReadItems, PairFree;
    PlainLeaves();
    if s != [] {
      var t := SkipWs(s[1..]);
      if s[0] == '"' {
        ReadStringPlain(s[1..]);
        if ReadString(s[1..]).Some? { PlainStr(ReadString(s[1..]).value.0); }
      } else if s[0] == '{' {
        ReadMembersPlain(t, []);
      } else if s[0] == '[' {
        ReadItemsPlain(t, []);
      }
    }
  }

  lemma {:induction false} PlainStr(s: PyStr)
    ensures PlainDoc(StrDoc(s)) <==> PairFree(s)
  {}

  lemma {:induction false} PlainLeaves()
    ensures PlainDoc(ArrDoc([])) && PlainDoc(ObjDoc([])) && PlainDoc(NullDoc)
    ensures forall b :: PlainDoc(BoolDoc(b))
    ensures forall n :: PlainDoc(IntDoc(n))
    ensures forall t :: PlainDoc(FloatDoc(t))
  {}

  lemma {:induction false} PlainMember(done: seq<(PyStr, Doc)>, k: PyStr, d: Doc)
    requires PlainDoc(ObjDoc(done)) && PairFree(k) && PlainDoc(d)
    ensures PlainDoc(ObjDoc(done + [(k, d)]))
  {
    hide PairFree;
  }

  lemma {:induction false} PlainItem(done: seq<Doc>, d: Doc)
    requires PlainDoc(ArrDoc(done)) && PlainDoc(d)
    ensures PlainDoc(ArrDoc(done + [d]))
  {}

  lemma {:induction false} ReadMembersPlain(s: string, done: seq<(PyStr, Doc)>)
    requires PlainDoc(ObjDoc(done))
    ensures ReadMembers(s, done).Some? ==> PlainDoc(ReadMembers(s, done).value.0)
    decreases |s|, 1
  {
    hide PlainDoc, ReadString, ReadValue, PairFree;
    if s != [] && s[0] == '"' {
      ReadStringPlain(s[1..]);
      if ReadString(s[1..]).Some? {
        var (key, t) := ReadString(s[1..]).value;
        var t1 := SkipWs(t);
        if t1 != [] && t1[0] == ':' {
          ReadValuePlain(SkipWs(t1[1..]));
          if ReadValue(SkipWs(t1[1..])).Some? {
            var (d, t2) := ReadValue(SkipWs(t1[1..])).value;
            PlainMember(done, key, d);
            var t3 := SkipWs(t2);
            if t3 != [] && t3[0] == ',' { ReadMembersPlain(SkipWs(t3[1..]), done + [(key, d)]); }
          }
        }
      }
    }
  }

  lemma {:induction false} ReadItemsPlain(s: string, done: seq<Doc>)
    requires PlainDoc(ArrDoc(done))
    ensures ReadItems(s, done).Some? ==> PlainDoc(ReadItems(s, done).value.0)
    decreases |s|, 3
  {
    hide PlainDoc, ReadValue;
    ReadValuePlain(s);
    if ReadValue(s).Some? {
      var (d, t) := ReadValue(s).value;
      PlainItem(done, d);
      var t1 := SkipWs(t);
      if t1 != [] && t1[0] == ',' { ReadItemsPlain(SkipWs(t1[1..]), done + [d]); }
    }
  }

  lemma {:induction false} PlainValue(fl: FloatReader, d: Doc)
    requires PlainDoc(d) && Settled(fl)
    ensures Plain(fl, ValueOf(fl, d))
  {
    match d
    case ArrDoc(items) =>
      forall i | 0 <= i < |items| ensures Plain(fl, ValueOf(fl, items[i])) {
        PlainValue(fl, items[i]);
      }
    case ObjDoc(ms) =>
      var ps := seq(|ms|, i requires 0 <= i < |ms| => (ms[i].0, ValueOf(fl, ms[i].1)));
      forall i | 0 <= i < |ps| ensures PairFree(ps[i].0) && Plain(fl, ps[i].1) {
        PlainValue(fl, ms[i].1);
      }
      PlainDict(fl, ps);
    case _ =>
  }

  lemma {:induction false} PlainDict(fl: FloatReader, ps: seq<(PyStr, Json)>)
    requires forall i | 0 <= i < |ps| :: PairFree(ps[i].0) && Plain(fl, ps[i].1)
    ensures Plain(fl, Obj(Dict(ps)))
  {
    hide PairFree;
    if ps != [] {
      var init := ps[..|ps| - 1];
      PlainDict(fl, init);
    }
  }

  /** What a float prints as reads back as that float. */
  ghost predicate Settled(fl: FloatReader) {
    forall t :: fl(fl(t)) == fl(t)
  }

  /** Whatever text is read, no string and no key of the value holds a surrogate pair. */
  lemma {:induction false} ParsedIsPlain(fl: FloatReader, s: string)
    requires Settled(fl)
    ensures Parse(fl, s).Some? ==> Plain(fl, Parse(fl, s).value)
  {
    hide PlainDoc, Plain, ValueOf;
    ReadValuePlain(SkipWs(s));
    if ParseDoc(s).Some? { PlainValue(fl, ParseDoc(s).value); }
  }

  /** Of two plain values with one canonical text there is only one. */
  lemma {:induction false} PlainPrintInjective(fl: FloatReader, v: Json, w: Json)
    requires Plain(fl, v) && Plain(fl, w) && Print(v) == Print(w)
    ensures v == w
  {
    hide Plain, Print, DocOf, ValueOf;
    PrintEqualIff(v, w);
    FusedIdentity(fl, v);
    FusedIdentity(fl, w);
  }
}
