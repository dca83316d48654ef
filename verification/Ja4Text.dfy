/** What the JA4 string of any ClientHello reads, character by character (proxy/ja4.py). */
module Ja4Text {
  import opened PyText
  import opened Json
  import opened Hashing
  import opened Strs
  import opened Ja4

  // ----- what a ClientHello shows -----

  /** Two equal bytes that end in A (RFC 8701). */
  predicate Reserved(n: int) { n / 256 == n % 256 && n % 16 == 10 }

  /** The version stands at the k-th place of a supported_versions extension, within its length and its body. */
  predicate OffersAt(e: Extension, k: nat, v: Version) {
    && e.typ == 43 && e.body != [] && 2 * k + 2 <= e.body[0] && 2 * k + 2 < |e.body|
    && v == (e.body[2 * k + 1], e.body[2 * k + 2])
  }

  /** Some extension offers the version, and it is not reserved. */
  ghost predicate Offers(ch: ClientHello, v: Version) {
    !Reserved(256 * v.0 + v.1) && exists e, k: nat :: e in ch.extensions && OffersAt(e, k, v)
  }

  /** No offered version has a greater major, or the same major and a greater minor. */
  ghost predicate OffersAtMost(ch: ClientHello, v: Version) {
    forall w: Version :: Offers(ch, w) ==> w.0 < v.0 || (w.0 == v.0 && w.1 <= v.1)
  }

  /** The two characters of a version: 1.3 down to 1.0, SSL 3, or anything else. */
  predicate ReadsVersion(a: Code, b: Code, v: Version) {
    if v.0 == 3 && 1 <= v.1 <= 4 then a == '1' as int && b == '0' as int + v.1 - 1
    else if v == (3, 0) then a == 's' as int && b == '3' as int
    else a == '0' as int && b == '0' as int
  }

  /** Two digits that read n, or 99 if n is greater. */
  predicate ReadsCount(a: Code, b: Code, n: nat) {
    && '0' as int <= a <= '9' as int && '0' as int <= b <= '9' as int
    && 10 * (a - '0' as int) + (b - '0' as int) == if n < 99 then n else 99
  }

  /** A character of a protocol name as ASCII text shows it. */
  predicate ReadsByte(a: Code, b: Byte) { a == if b < 128 then b else 0xFFFD }

  /** How often a code stands in a list. */
  function Times(xs: seq<U16>, n: U16): nat { multiset(xs)[n] }

  /** The codes in increasing order, each in four lower-case hexadecimal digits, with commas between. */
  predicate ListsCodes(t: PyStr, xs: seq<U16>) {
    && (forall i, j | 0 <= i < j < |xs| :: xs[i] <= xs[j])
    && |t| == (if xs == [] then 0 else 5 * |xs| - 1)
    && (forall i | 0 <= i < |xs| :: ReadsCode(t, 5 * i, xs[i]))
    && forall i | 0 < i < |xs| :: t[5 * i - 1] == ',' as int
  }

  predicate ReadsCode(t: PyStr, p: nat, n: U16) {
    && p + 4 <= |t|
    && LowerHex(t[p]) && LowerHex(t[p + 1]) && LowerHex(t[p + 2]) && LowerHex(t[p + 3])
    && 4096 * NibbleOf(t[p]) + 256 * NibbleOf(t[p + 1]) + 16 * NibbleOf(t[p + 2]) + NibbleOf(t[p + 3]) == n
  }

  /** The visible ciphers, as often as they are offered. */
  predicate VisibleCiphersAre(ch: ClientHello, xs: seq<U16>) {
    forall n: U16 :: Times(xs, n) == if Reserved(n) then 0 else Times(ch.ciphers, n)
  }

  /** The visible extension types but server name and ALPN. */
  predicate HashedExtensionsAre(ch: ClientHello, xs: seq<U16>) {
    forall n: U16 :: Times(xs, n) == if Reserved(n) || n == 0 || n == 16 then 0 else Times(Types(ch.extensions), n)
  }

  // ----- versions -----

  lemma {:induction false} PairsIn(bs: seq<Byte>, v: Version)
    ensures v in Pairs(bs) <==> exists k: nat :: 2 * k + 1 < |bs| && v == (bs[2 * k], bs[2 * k + 1])
  {
    if |bs| >= 2 {
      PairsIn(bs[2..], v);
      if v in Pairs(bs[2..]) {
        var k: nat :| 2 * k + 1 < |bs[2..]| && v == (bs[2..][2 * k], bs[2..][2 * k + 1]);
        assert v == (bs[2 * (k + 1)], bs[2 * (k + 1) + 1]);
      }
      if k: nat :| 2 * k + 1 < |bs| && v == (bs[2 * k], bs[2 * k + 1]) && k > 0 {
        assert v == (bs[2..][2 * (k - 1)], bs[2..][2 * (k - 1) + 1]);
      }
      if v == (bs[0], bs[1]) { assert v == (bs[2 * 0], bs[2 * 0 + 1]); }
    }
  }

  lemma {:induction false} VersionsInIff(e: Extension, v: Version)
    ensures v in VersionsIn(e) <==> exists k: nat :: OffersAt(e, k, v)
  {
    hide Pairs;
    PairsIn(VersionBytes(e.body), v);
    if v in VersionsIn(e) {
      var bs := VersionBytes(e.body);
      var k: nat :| 2 * k + 1 < |bs| && v == (bs[2 * k], bs[2 * k + 1]);
      assert OffersAt(e, k, v);
    }
    if k: nat :| OffersAt(e, k, v) {
      var bs := VersionBytes(e.body);
      assert 2 * k + 1 < |bs| && v == (bs[2 * k], bs[2 * k + 1]);
    }
  }

  lemma {:induction false} OffersIff(ch: ClientHello, v: Version)
    ensures Offers(ch, v) <==> v in Offered(ch.extensions) && !IsGreaseVersion(v)
  {
    hide VersionsIn, OffersAt, Grease, Offered;
    OfferedIn(ch.extensions, v);
    GreaseIff(256 * v.0 + v.1);
    if e :| e in ch.extensions && v in VersionsIn(e) { VersionsInIff(e, v); }
    if Offers(ch, v) {
      var e, k: nat :| e in ch.extensions && OffersAt(e, k, v);
      VersionsInIff(e, v);
    }
  }

  /** The version characters are those of the greatest version offered, or of the legacy field. */
  lemma {:induction false} VersionReads(ch: ClientHello)
    ensures var t := VersionCode(ch);
            && |t| == 2
            && (forall v: Version | Offers(ch, v) && OffersAtMost(ch, v) :: ReadsVersion(t[0], t[1], v))
            && ((forall v: Version :: !Offers(ch, v)) ==> ReadsVersion(t[0], t[1], (ch.legacyMajor, ch.legacyMinor)))
  {
    hide VersionCode, Offered, Offers;
    VersionCodeMeaning(ch);
    var vs := Offered(ch.extensions);
    if AllGrease(vs) {
      forall v: Version ensures !Offers(ch, v) {
        OffersIff(ch, v);
        if v in vs {
          var i :| 0 <= i < |vs| && vs[i] == v;
        }
      }
      NameReads((ch.legacyMajor, ch.legacyMinor));
    } else {
      var v :| IsGreatest(v, vs) && VersionCode(ch) == VersionName(v);
      OffersIff(ch, v);
      NameReads(v);
      forall w: Version | Offers(ch, w) && OffersAtMost(ch, w) ensures w == v {
        OffersIff(ch, w);
        var i :| 0 <= i < |vs| && vs[i] == w;
      }
    }
  }

  lemma {:induction false} NameReads(v: Version)
    ensures |VersionName(v)| == 2 && ReadsVersion(VersionName(v)[0], VersionName(v)[1], v)
  {}

  // ----- lists -----

  lemma {:induction false} HexReads(n: U16)
    ensures |Hex(n)| == 4 && ReadsCode(Hex(n), 0, n)
  {
    Hex4RoundTrip(n);
    var s := Hex4(n);
    assert s[0] in s && s[1] in s && s[2] in s && s[3] in s;
    NibbleIs(s[0]);
    NibbleIs(s[1]);
    NibbleIs(s[2]);
    NibbleIs(s[3]);
  }

  lemma {:induction false} NibbleIs(c: char)
    requires '0' <= c <= '9' || 'a' <= c <= 'f'
    ensures LowerHex(c as int) && NibbleOf(c as int) == HexValue(c)
  {}

  /** Four-digit forms sort as the numbers do. */
  lemma {:induction false} HexOrder(m: U16, n: U16)
    requires Leq(Hex(m), Hex(n))
    ensures m <= n
  {
    hide Hex, Leq, FirstBelow;
    var a, b := Hex(m), Hex(n);
    HexReads(m);
    HexReads(n);
    LeqIff(a, b);
    var i: nat :| FirstBelow(a, b, i);
    FirstNibble(a, b, i);
    FourBelow(NibbleOf(a[0]), NibbleOf(a[1]), NibbleOf(a[2]), NibbleOf(a[3]),
              NibbleOf(b[0]), NibbleOf(b[1]), NibbleOf(b[2]), NibbleOf(b[3]));
  }

  predicate AllHex(t: PyStr) { forall i | 0 <= i < |t| :: LowerHex(t[i]) }

  lemma {:induction false} FirstNibble(a: PyStr, b: PyStr, i: nat)
    requires |a| == |b| == 4 && FirstBelow(a, b, i) && AllHex(a) && AllHex(b)
    ensures var x, y := NibbleOf(a[0]), NibbleOf(b[0]);
            x < y || (x == y && (NibbleOf(a[1]) < NibbleOf(b[1]) || (NibbleOf(a[1]) == NibbleOf(b[1]) &&
              (NibbleOf(a[2]) < NibbleOf(b[2]) || (NibbleOf(a[2]) == NibbleOf(b[2]) && NibbleOf(a[3]) <= NibbleOf(b[3]))))))
  {
    Agree(a, b, i);
    if i < 4 { NibbleGrows(a[i], b[i]); }
  }

  lemma {:induction false} FourBelow(a0: int, a1: int, a2: int, a3: int, b0: int, b1: int, b2: int, b3: int)
    requires 0 <= a1 < 16 && 0 <= a2 < 16 && 0 <= a3 < 16 && 0 <= b1 && 0 <= b2 && 0 <= b3
    requires a0 < b0 || (a0 == b0 && (a1 < b1 || (a1 == b1 && (a2 < b2 || (a2 == b2 && a3 <= b3)))))
    ensures 4096 * a0 + 256 * a1 + 16 * a2 + a3 <= 4096 * b0 + 256 * b1 + 16 * b2 + b3
  {}

  lemma {:induction false} Agree(a: PyStr, b: PyStr, i: nat)
    requires i <= |a| && i <= |b| && a[..i] == b[..i]
    ensures forall j | 0 <= j < i :: a[j] == b[j]
  {
    forall j | 0 <= j < i ensures a[j] == b[j] {
      assert a[..i][j] == b[..i][j];
    }
  }

  lemma {:induction false} NibbleGrows(a: Code, b: Code)
    requires LowerHex(a) && LowerHex(b) && a < b
    ensures 0 <= NibbleOf(a) < NibbleOf(b) < 16
  {}

  /** The sorted four-digit forms of a list are those of some list, sorted. */
  lemma {:induction false} SortedCodes(xs: seq<U16>) returns (ys: seq<U16>)
    ensures SortedHex(xs) == HexAll(ys) && multiset(ys) == multiset(xs)
    ensures forall i, j | 0 <= i < j < |ys| :: ys[i] <= ys[j]
  {
    hide Hex, Sort, Leq, HexAll;
    var ts := SortedHex(xs);
    SortSorts(HexAll(xs));
    forall t | t in ts ensures t in HexAll(xs) {
      assert t in multiset(ts);
    }
    ys := CodesOf(ts, xs);
    HexMultiset(xs, ys);
    SameLength(ys);
    forall i, j | 0 <= i < j < |ys| ensures ys[i] <= ys[j] {
      assert Leq(ts[i], ts[j]);
      HexOrder(ys[i], ys[j]);
    }
  }

  lemma {:induction false} SameLength(ys: seq<U16>)
    ensures |HexAll(ys)| == |ys| && forall i | 0 <= i < |ys| :: HexAll(ys)[i] == Hex(ys[i])
  {}

  /** Texts that are all four-digit forms are the forms of some codes. */
  lemma {:induction false} CodesOf(ts: seq<PyStr>, xs: seq<U16>) returns (ys: seq<U16>)
    requires forall t <- ts :: t in HexAll(xs)
    ensures HexAll(ys) == ts
  {
    hide Hex;
    if ts == [] {
      ys := [];
    } else {
      var init := ts[..|ts| - 1];
      assert forall t <- init :: t in ts;
      ys := CodesOf(init, xs);
      var last := ts[|ts| - 1];
      assert last in HexAll(xs);
      var i :| 0 <= i < |xs| && HexAll(xs)[i] == last;
      assert HexAll(ys + [xs[i]]) == HexAll(ys) + [Hex(xs[i])];
      ys := ys + [xs[i]];
    }
  }

  /** Joined four-digit forms list the codes. */
  lemma {:induction false} JoinedReads(ys: seq<U16>)
    ensures var t := Join(COMMA, HexAll(ys));
            && |t| == (if ys == [] then 0 else 5 * |ys| - 1)
            && (forall i | 0 <= i < |ys| :: ReadsCode(t, 5 * i, ys[i]))
            && forall i | 0 < i < |ys| :: t[5 * i - 1] == ',' as int
  {
    hide Hex, ReadsCode;
    if ys != [] {
      var rest, t := Join(COMMA, HexAll(ys[1..])), Join(COMMA, HexAll(ys));
      JoinedReads(ys[1..]);
      HexReads(ys[0]);
      assert HexAll(ys)[1..] == HexAll(ys[1..]);
      if |ys| == 1 {
        assert t == Hex(ys[0]);
      } else {
        assert t == Hex(ys[0]) + [COMMA] + rest;
        ReadsShifted(Hex(ys[0]), [], [COMMA] + rest, ys[0], 0);
        assert [] + Hex(ys[0]) + ([COMMA] + rest) == t;
        forall i | 0 < i < |ys| ensures ReadsCode(t, 5 * i, ys[i]) && t[5 * i - 1] == ',' as int {
          ReadsShifted(rest, Hex(ys[0]) + [COMMA], [], ys[i], 5 * (i - 1));
          assert (Hex(ys[0]) + [COMMA]) + rest + [] == t;
          if i > 1 { assert rest[5 * (i - 1) - 1] == ',' as int && t[5 * i - 1] == rest[5 * (i - 1) - 1]; }
        }
      }
    }
  }

  lemma {:induction false} ReadsShifted(t: PyStr, before: PyStr, after: PyStr, n: U16, p: nat)
    requires ReadsCode(t, p, n)
    ensures ReadsCode(before + t + after, |before| + p, n)
  {}

  /** What is hashed for a list of codes. */
  lemma {:induction false} ListReads(xs: seq<U16>) returns (ys: seq<U16>)
    ensures ListsCodes(Join(COMMA, SortedHex(xs)), ys) && multiset(ys) == multiset(xs)
  {
    hide ReadsCode, SortedHex, HexAll;
    ys := SortedCodes(xs);
    JoinedReads(ys);
  }

  lemma {:induction false} VisibleTimes(xs: seq<U16>, ys: seq<U16>)
    requires multiset(ys) == multiset(NotGrease(xs))
    ensures forall n: U16 :: Times(ys, n) == if Reserved(n) then 0 else Times(xs, n)
  {
    forall n: U16 ensures Times(ys, n) == if Reserved(n) then 0 else Times(xs, n) {
      NotGreaseCount(xs, n);
      GreaseIff(n);
    }
  }

  lemma {:induction false} HashedTimes(xs: seq<U16>, ys: seq<U16>)
    requires multiset(ys) == multiset(NotNamed(NotGrease(xs)))
    ensures forall n: U16 :: Times(ys, n) == if Reserved(n) || n == 0 || n == 16 then 0 else Times(xs, n)
  {
    forall n: U16 ensures Times(ys, n) == if Reserved(n) || n == 0 || n == 16 then 0 else Times(xs, n) {
      NotNamedCount(NotGrease(xs), n);
      NotGreaseCount(xs, n);
      GreaseIff(n);
    }
  }

  /** Where the codes that are not reserved stand. */
  function VisiblePlaces(xs: seq<U16>): set<nat> { set i: nat | i < |xs| && !Reserved(xs[i]) }

  lemma {:induction false} VisibleCount(xs: seq<U16>)
    ensures |NotGrease(xs)| == |VisiblePlaces(xs)|
  {
    if xs == [] {
      assert VisiblePlaces(xs) == {};
    } else {
      hide Grease;
      VisibleCount(xs[1..]);
      GreaseIff(xs[0]);
      ShiftedSize(VisiblePlaces(xs[1..]));
      PlacesShift(xs);
    }
  }

  lemma {:induction false} PlacesShift(xs: seq<U16>)
    requires xs != []
    ensures var shifted := Shifted(VisiblePlaces(xs[1..]));
            0 !in shifted && VisiblePlaces(xs) == shifted + if Reserved(xs[0]) then {} else {0}
  {
    hide Shifted;
    var places := VisiblePlaces(xs[1..]);
    ShiftedIn(places, 0);
    forall k: nat ensures k in VisiblePlaces(xs) <==> k in Shifted(places) || (k == 0 && !Reserved(xs[0])) {
      ShiftedIn(places, k);
      if 0 < k < |xs| { assert xs[1..][k - 1] == xs[k]; }
    }
  }

  function Shifted(s: set<nat>): set<nat> { set i | i in s :: i + 1 }

  lemma {:induction false} ShiftedIn(s: set<nat>, k: nat)
    ensures k in Shifted(s) <==> k > 0 && k - 1 in s
  {
    if k > 0 && k - 1 in s { assert (k - 1) + 1 in Shifted(s); }
  }

  lemma {:induction false} ShiftedSize(s: set<nat>)
    ensures |Shifted(s)| == |s|
  {
    if s != {} {
      var x :| x in s;
      ShiftedSize(s - {x});
      forall k: nat ensures k in Shifted(s) <==> k in Shifted(s - {x}) || k == x + 1 {
        ShiftedIn(s, k);
        ShiftedIn(s - {x}, k);
      }
      ShiftedIn(s - {x}, x + 1);
      assert Shifted(s) == Shifted(s - {x}) + {x + 1};
    } else {
      assert Shifted(s) == {};
    }
  }

  // ----- the string -----

  /**
   * What the fingerprint of any ClientHello reads: 't', the version, 'd' or 'i' for the server name, the
   * counts of visible ciphers and extensions, the ends of the first protocol, and after an underscore each
   * the first twelve digits of the hashes of the sorted cipher and extension lists.
   */
  lemma {:induction false} Ja4Reads(h: StrHash, ch: ClientHello)
    returns (ciphers: seq<U16>, extensions: seq<U16>, cipherText: PyStr, extensionText: PyStr)
    ensures VisibleCiphersAre(ch, ciphers) && ListsCodes(cipherText, ciphers)
    ensures HashedExtensionsAre(ch, extensions) && ListsCodes(extensionText, extensions)
    ensures var t := Components(h, ch).ja4;
            && |t| == 36 && t[0] == 't' as int && t[10] == '_' as int && t[23] == '_' as int
            && (forall v: Version | Offers(ch, v) && OffersAtMost(ch, v) :: ReadsVersion(t[1], t[2], v))
            && ((forall v: Version :: !Offers(ch, v)) ==> ReadsVersion(t[1], t[2], (ch.legacyMajor, ch.legacyMinor)))
            && t[3] == (if ch.sni == [] then 'i' as int else 'd' as int)
            && ReadsCount(t[4], t[5], |VisiblePlaces(ch.ciphers)|)
            && ReadsCount(t[6], t[7], |VisiblePlaces(Types(ch.extensions))|)
            && (if ch.alpn == [] || ch.alpn[0] == [] then t[8] == t[9] == '0' as int
                else ReadsByte(t[8], ch.alpn[0][0]) && ReadsByte(t[9], ch.alpn[0][|ch.alpn[0]| - 1]))
            && t[11..23] == HexDigest(h(cipherText))[..12]
            && t[24..] == HexDigest(h(extensionText))[..12]
  {
    hide VersionCode, SortedHex, ListsCodes, VisiblePlaces, Ja4String, Components, Offers, Hash12, HexDigest, NotGrease,
      NotNamed, Count2, Join, AlpnCode, VisibleCiphersAre, HashedExtensionsAre, ReadsCount, ReadsVersion;
    ciphers, cipherText := CipherList(ch);
    extensions, extensionText := ExtensionList(ch);
    VersionReads(ch);
    CountReads(ch.ciphers);
    CountReads(Types(ch.extensions));
    AlpnReads(ch.alpn);
    Positions(h, ch);
    HashReads(h, SortedHex(VisibleCiphers(ch)));
    HashReads(h, SortedHex(HashedExtensions(ch)));
  }

  lemma {:induction false} HashReads(h: StrHash, values: seq<PyStr>)
    ensures Hash12(h, values) == HexDigest(h(Join(COMMA, values)))[..12]
  {}

  lemma {:induction false} CipherList(ch: ClientHello) returns (xs: seq<U16>, text: PyStr)
    ensures VisibleCiphersAre(ch, xs) && ListsCodes(text, xs) && text == Join(COMMA, SortedHex(VisibleCiphers(ch)))
  {
    hide SortedHex, ListsCodes, NotGrease, Join;
    xs := ListReads(VisibleCiphers(ch));
    text := Join(COMMA, SortedHex(VisibleCiphers(ch)));
    VisibleTimes(ch.ciphers, xs);
  }

  lemma {:induction false} ExtensionList(ch: ClientHello) returns (xs: seq<U16>, text: PyStr)
    ensures HashedExtensionsAre(ch, xs) && ListsCodes(text, xs) && text == Join(COMMA, SortedHex(HashedExtensions(ch)))
  {
    hide SortedHex, ListsCodes, NotGrease, NotNamed, Join;
    xs := ListReads(HashedExtensions(ch));
    text := Join(COMMA, SortedHex(HashedExtensions(ch)));
    HashedTimes(Types(ch.extensions), xs);
  }

  lemma {:induction false} AlpnReads(alpn: seq<seq<Byte>>)
    ensures var a := AlpnCode(alpn);
            if alpn == [] || alpn[0] == [] then a[0] == a[1] == '0' as int
            else ReadsByte(a[0], alpn[0][0]) && ReadsByte(a[1], alpn[0][|alpn[0]| - 1])
  {}

  lemma {:induction false} CountReads(xs: seq<U16>)
    ensures var m := Count2(Min99(|NotGrease(xs)|)); ReadsCount(m[0], m[1], |VisiblePlaces(xs)|)
  {
    hide NotGrease, VisiblePlaces;
    VisibleCount(xs);
  }

  /** Where each part stands. */
  lemma {:induction false} Positions(h: StrHash, ch: ClientHello)
    ensures var t, v, a := Components(h, ch).ja4, VersionCode(ch), AlpnCode(ch.alpn);
            var m, n := Count2(Min99(|VisibleCiphers(ch)|)), Count2(Min99(|VisibleExtensions(ch)|));
            && |v| == 2 && |t| == 36 && t[0] == 't' as int && t[1] == v[0] && t[2] == v[1]
            && t[3] == (if ch.sni == [] then 'i' as int else 'd' as int)
            && t[4] == m[0] && t[5] == m[1] && t[6] == n[0] && t[7] == n[1] && t[8] == a[0] && t[9] == a[1]
            && t[10] == '_' as int && t[23] == '_' as int
            && t[11..23] == Hash12(h, SortedHex(VisibleCiphers(ch)))
            && t[24..] == Hash12(h, SortedHex(HashedExtensions(ch)))
  {
    VersionReads(ch);
    hide VersionCode, Count2, AlpnCode, Hash12, SortedHex, VisibleCiphers, VisibleExtensions, HashedExtensions, Min99, Offers;
  }
}
