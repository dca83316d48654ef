/** What two JA4 strings say about their components, and the diff shown for two of them (proxy/ja4.py). */
module Ja4Diff {
  import opened PyText
  import opened Hashing
  import opened Ja4

  // ----- comparison -----

  datatype Field = VersionField | SniField | CipherCountField | ExtCountField | AlpnField | CiphersField | ExtensionsField

  const FIELDS := [VersionField, SniField, CipherCountField, ExtCountField, AlpnField, CiphersField, ExtensionsField]

  datatype Value = Text(s: PyStr) | Number(n: nat) | Listing(xs: seq<PyStr>)

  /** `getattr(c, field)`. */
  function Get(c: Ja4Components, f: Field): Value {
    match f
    case VersionField => Text(c.versionCode)
    case SniField => Text(c.sniChar)
    case CipherCountField => Number(c.cipherCount)
    case ExtCountField => Number(c.extCount)
    case AlpnField => Text(c.alpnCode)
    case CiphersField => Listing(c.ciphers)
    case ExtensionsField => Listing(c.extensions)
  }

  type Diff = map<Field, (Value, Value)>

  /** Exactly the differing fields, each with both values. */
  predicate IsDiff(a: Ja4Components, b: Ja4Components, diff: Diff) {
    forall f: Field ::
      (f in diff <==> Get(a, f) != Get(b, f)) && (f in diff ==> diff[f] == (Get(a, f), Get(b, f)))
  }

  method DiffJa4(a: Ja4Components, b: Ja4Components) returns (diff: Diff)
    ensures IsDiff(a, b, diff)
  {
    diff := map[];
    for i := 0 to |FIELDS|
      invariant forall f :: f in diff <==> f in FIELDS[..i] && Get(a, f) != Get(b, f)
      invariant forall f :: f in diff ==> diff[f] == (Get(a, f), Get(b, f))
    {
      var f := FIELDS[i];
      var va, vb := Get(a, f), Get(b, f);
      assert FIELDS[..i + 1] == FIELDS[..i] + [f];
      if va != vb {
        diff := diff[f := (va, vb)];
      }
    }
    assert FIELDS[..|FIELDS|] == FIELDS;
    forall f: Field ensures f in FIELDS {
      match f
      case VersionField => assert FIELDS[0] == f;
      case SniField => assert FIELDS[1] == f;
      case CipherCountField => assert FIELDS[2] == f;
      case ExtCountField => assert FIELDS[3] == f;
      case AlpnField => assert FIELDS[4] == f;
      case CiphersField => assert FIELDS[5] == f;
      case ExtensionsField => assert FIELDS[6] == f;
    }
  }

  /** The field is shown when the two values differ, and then with both. */
  predicate Shows(diff: Diff, f: Field, x: Value, y: Value) {
    if x == y then f !in diff else f in diff && diff[f] == (x, y)
  }

  /** What the diff shows, field by field. */
  lemma {:induction false} DiffIff(a: Ja4Components, b: Ja4Components, diff: Diff)
    ensures IsDiff(a, b, diff) <==>
            && Shows(diff, VersionField, Text(a.versionCode), Text(b.versionCode))
            && Shows(diff, SniField, Text(a.sniChar), Text(b.sniChar))
            && Shows(diff, CipherCountField, Number(a.cipherCount), Number(b.cipherCount))
            && Shows(diff, ExtCountField, Number(a.extCount), Number(b.extCount))
            && Shows(diff, AlpnField, Text(a.alpnCode), Text(b.alpnCode))
            && Shows(diff, CiphersField, Listing(a.ciphers), Listing(b.ciphers))
            && Shows(diff, ExtensionsField, Listing(a.extensions), Listing(b.extensions))
  {
    assert IsDiff(a, b, diff) <==> forall f: Field :: Shows(diff, f, Get(a, f), Get(b, f));
    if IsDiff(a, b, diff) {
      assert Shows(diff, VersionField, Get(a, VersionField), Get(b, VersionField));
      assert Shows(diff, SniField, Get(a, SniField), Get(b, SniField));
      assert Shows(diff, CipherCountField, Get(a, CipherCountField), Get(b, CipherCountField));
      assert Shows(diff, ExtCountField, Get(a, ExtCountField), Get(b, ExtCountField));
      assert Shows(diff, AlpnField, Get(a, AlpnField), Get(b, AlpnField));
      assert Shows(diff, CiphersField, Get(a, CiphersField), Get(b, CiphersField));
      assert Shows(diff, ExtensionsField, Get(a, ExtensionsField), Get(b, ExtensionsField));
    }
  }

  /** The components carry the string computed from their own fields. */
  predicate OwnString(h: StrHash, c: Ja4Components) {
    && c.ja4 == Ja4String(h, c)
    && |c.versionCode| == 2 && |c.sniChar| == 1 && |c.alpnCode| == 2
    && c.cipherCount <= 99 && c.extCount <= 99
  }

  lemma {:induction false} ComponentsOwnString(h: StrHash, ch: ClientHello)
    ensures OwnString(h, Components(h, ch))
  {
    hide Ja4String, SortedHex, VersionCode, VisibleCiphers, VisibleExtensions, HashedExtensions, AlpnCode;
    VersionLength(ch);
    var c := Components(h, ch);
    assert Ja4String(h, c) == Ja4String(h, c.(ja4 := [])) by { StringIgnoresItself(h, c); }
  }

  lemma {:induction false} StringIgnoresItself(h: StrHash, c: Ja4Components)
    ensures Ja4String(h, c) == Ja4String(h, c.(ja4 := []))
  {
    hide Hash12, Count2;
  }

  lemma {:induction false} VersionLength(ch: ClientHello)
    ensures |VersionCode(ch)| == 2
  {
    hide BestFrom, Offered;
  }

  /** A difference in the strings always shows in the fields. */
  lemma {:induction false} MismatchShows(h: StrHash, a: Ja4Components, b: Ja4Components, diff: Diff)
    requires OwnString(h, a) && OwnString(h, b) && IsDiff(a, b, diff)
    ensures a.ja4 != b.ja4 ==> diff != map[]
  {
    if diff == map[] {
      assert forall f: Field :: Get(a, f) == Get(b, f);
      assert Get(a, VersionField) == Get(b, VersionField) && Get(a, SniField) == Get(b, SniField);
      assert Get(a, CipherCountField) == Get(b, CipherCountField) && Get(a, ExtCountField) == Get(b, ExtCountField);
      assert Get(a, AlpnField) == Get(b, AlpnField) && Get(a, CiphersField) == Get(b, CiphersField);
      assert Get(a, ExtensionsField) == Get(b, ExtensionsField);
    }
  }

  lemma {:induction false} AppendUnique(a: PyStr, r: PyStr, b: PyStr, s: PyStr)
    requires |a| == |b| && a + r == b + s
    ensures a == b && r == s
  {
    assert (a + r)[..|a|] == a && (b + s)[..|b|] == b;
    assert (a + r)[|a|..] == r && (b + s)[|b|..] == s;
  }

  lemma {:induction false} Count2Injective(m: nat, n: nat)
    requires m <= 99 && n <= 99 && Count2(m) == Count2(n)
    ensures m == n
  {
    assert Count2(m)[0] == Count2(n)[0] && Count2(m)[1] == Count2(n)[1];
  }

  /**
   * Two JA4 strings are equal exactly when the five plain fields are, and the truncated hashes of the
   * two lists are.
   */
  lemma {:induction false} Ja4EqualIff(h: StrHash, a: Ja4Components, b: Ja4Components)
    requires OwnString(h, a) && OwnString(h, b)
    ensures a.ja4 == b.ja4 <==>
              && a.versionCode == b.versionCode && a.sniChar == b.sniChar && a.alpnCode == b.alpnCode
              && a.cipherCount == b.cipherCount && a.extCount == b.extCount
              && Hash12(h, a.ciphers) == Hash12(h, b.ciphers)
              && Hash12(h, a.extensions) == Hash12(h, b.extensions)
  {
    if a.ja4 == b.ja4 {
      hide Hash12, Count2;
      var u: PyStr := [UNDERSCORE];
      var t := Py("t");
      var a7, b7 := t + a.versionCode + a.sniChar + Count2(a.cipherCount) + Count2(a.extCount) + a.alpnCode,
                    t + b.versionCode + b.sniChar + Count2(b.cipherCount) + Count2(b.extCount) + b.alpnCode;
      var a8, b8 := a7 + u + Hash12(h, a.ciphers) + u, b7 + u + Hash12(h, b.ciphers) + u;
      AppendUnique(a8, Hash12(h, a.extensions), b8, Hash12(h, b.extensions));
      AppendUnique(a7 + u + Hash12(h, a.ciphers), u, b7 + u + Hash12(h, b.ciphers), u);
      AppendUnique(a7 + u, Hash12(h, a.ciphers), b7 + u, Hash12(h, b.ciphers));
      AppendUnique(a7, u, b7, u);
      PlainFields(a, b);
    }
  }

  lemma {:induction false} PlainFields(a: Ja4Components, b: Ja4Components)
    requires |a.versionCode| == |b.versionCode| && |a.sniChar| == |b.sniChar| && |a.alpnCode| == |b.alpnCode|
    requires a.cipherCount <= 99 && a.extCount <= 99 && b.cipherCount <= 99 && b.extCount <= 99
    requires Py("t") + a.versionCode + a.sniChar + Count2(a.cipherCount) + Count2(a.extCount) + a.alpnCode
             == Py("t") + b.versionCode + b.sniChar + Count2(b.cipherCount) + Count2(b.extCount) + b.alpnCode
    ensures a.versionCode == b.versionCode && a.sniChar == b.sniChar && a.alpnCode == b.alpnCode
    ensures a.cipherCount == b.cipherCount && a.extCount == b.extCount
  {
    var t := Py("t");
    var p, q := t + a.versionCode, t + b.versionCode;
    AppendUnique(p + a.sniChar + Count2(a.cipherCount) + Count2(a.extCount), a.alpnCode,
                 q + b.sniChar + Count2(b.cipherCount) + Count2(b.extCount), b.alpnCode);
    AppendUnique(p + a.sniChar + Count2(a.cipherCount), Count2(a.extCount),
                 q + b.sniChar + Count2(b.cipherCount), Count2(b.extCount));
    AppendUnique(p + a.sniChar, Count2(a.cipherCount), q + b.sniChar, Count2(b.cipherCount));
    AppendUnique(p, a.sniChar, q, b.sniChar);
    AppendUnique(t, a.versionCode, t, b.versionCode);
    Count2Injective(a.cipherCount, b.cipherCount);
    Count2Injective(a.extCount, b.extCount);
  }

  /** Equal strings over different components exhibit two lists with one truncated hash. */
  lemma {:induction false} Ja4Determines(h: StrHash, a: Ja4Components, b: Ja4Components)
    requires OwnString(h, a) && OwnString(h, b) && a.ja4 == b.ja4
    ensures a == b
            || (a.ciphers != b.ciphers && Hash12(h, a.ciphers) == Hash12(h, b.ciphers))
            || (a.extensions != b.extensions && Hash12(h, a.extensions) == Hash12(h, b.extensions))
  {
    Ja4EqualIff(h, a, b);
  }

  /** Two code lists differ as multisets and still have one truncated hash. */
  predicate TwelveCollide(h: StrHash, xs: seq<U16>, ys: seq<U16>) {
    multiset(xs) != multiset(ys) && Hash12(h, SortedHex(xs)) == Hash12(h, SortedHex(ys))
  }

  /** What two equal JA4 strings say about the two ClientHellos, and all they say. */
  lemma {:induction false} FingerprintsEqualIff(h: StrHash, a: ClientHello, b: ClientHello)
    ensures Components(h, a).ja4 == Components(h, b).ja4 <==>
              && VersionCode(a) == VersionCode(b) && (a.sni == [] <==> b.sni == []) && AlpnCode(a.alpn) == AlpnCode(b.alpn)
              && Min99(|VisibleCiphers(a)|) == Min99(|VisibleCiphers(b)|)
              && Min99(|VisibleExtensions(a)|) == Min99(|VisibleExtensions(b)|)
              && (multiset(VisibleCiphers(a)) == multiset(VisibleCiphers(b))
                  || TwelveCollide(h, VisibleCiphers(a), VisibleCiphers(b)))
              && (multiset(HashedExtensions(a)) == multiset(HashedExtensions(b))
                  || TwelveCollide(h, HashedExtensions(a), HashedExtensions(b)))
  {
    hide Ja4String, OwnString, SortedHex, VersionCode, VisibleCiphers, VisibleExtensions, HashedExtensions, AlpnCode, Hash12, Min99;
    ComponentsOwnString(h, a);
    ComponentsOwnString(h, b);
    Ja4EqualIff(h, Components(h, a), Components(h, b));
    PreimageIff(VisibleCiphers(a), VisibleCiphers(b));
    PreimageIff(HashedExtensions(a), HashedExtensions(b));
    assert Py("d")[0] != Py("i")[0];
  }
}
