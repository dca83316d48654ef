/** The JA4 fingerprint of a ClientHello and its field-by-field comparison (proxy/ja4.py). */
module Ja4 {
  import opened PyText
  import opened Json
  import opened Hashing
  import opened Strs

  type U16 = n: int | 0 <= n < 0x1_0000

  datatype Extension = Extension(typ: U16, body: seq<Byte>)

  /** A parsed ClientHello; an absent server name or protocol list is the empty one. */
  datatype ClientHello = ClientHello(
    sni: seq<Byte>,
    ciphers: seq<U16>,
    extensions: seq<Extension>,
    alpn: seq<seq<Byte>>,
    legacyMajor: Byte,
    legacyMinor: Byte)

  /** The sixteen reserved code points of RFC 8701. */
  predicate Grease(n: int) {
    n in {0x0A0A, 0x1A1A, 0x2A2A, 0x3A3A, 0x4A4A, 0x5A5A, 0x6A6A, 0x7A7A,
          0x8A8A, 0x9A9A, 0xAAAA, 0xBABA, 0xCACA, 0xDADA, 0xEAEA, 0xFAFA}
  }

  /** Two equal bytes that end in A. */
  lemma {:induction false} GreaseIff(n: U16)
    ensures Grease(n) <==> n / 256 == n % 256 && n % 16 == 10
  {}

  const SNI_EXTENSION := 0x0000
  const ALPN_EXTENSION := 0x0010
  const SUPPORTED_VERSIONS_EXTENSION := 0x002B

  // ----- the version code -----

  type Version = (Byte, Byte)

  function VersionName(v: Version): PyStr {
    if v == (3, 4) then Py("13")
    else if v == (3, 3) then Py("12")
    else if v == (3, 2) then Py("11")
    else if v == (3, 1) then Py("10")
    else if v == (3, 0) then Py("s3")
    else Py("00")
  }

  predicate IsGreaseVersion(v: Version) { Grease(256 * v.0 + v.1) }

  /** Tuple comparison. */
  predicate Greater(v: Version, w: Version) {
    v.0 > w.0 || (v.0 == w.0 && v.1 > w.1)
  }

  function Better(best: Option<Version>, v: Version): Option<Version> {
    if IsGreaseVersion(v) then best
    else if best.None? || Greater(v, best.value) then Some(v)
    else best
  }

  function BestFrom(best: Option<Version>, vs: seq<Version>): Option<Version>
    decreases |vs|
  {
    if vs == [] then best else BestFrom(Better(best, vs[0]), vs[1..])
  }

  /** The version bytes a supported_versions body declares, as far as the body reaches. */
  function VersionBytes(body: seq<Byte>): seq<Byte> {
    if body == [] then [] else body[1..if 1 + body[0] <= |body| then 1 + body[0] else |body|]
  }

  function Pairs(bs: seq<Byte>): seq<Version> {
    if |bs| < 2 then [] else [(bs[0], bs[1])] + Pairs(bs[2..])
  }

  /** The versions one extension offers. */
  function VersionsIn(e: Extension): seq<Version> {
    if e.typ == SUPPORTED_VERSIONS_EXTENSION then Pairs(VersionBytes(e.body)) else []
  }

  function Offered(exts: seq<Extension>): seq<Version> {
    if exts == [] then [] else VersionsIn(exts[0]) + Offered(exts[1..])
  }

  function VersionCode(ch: ClientHello): PyStr {
    match BestFrom(None, Offered(ch.extensions))
    case Some(v) => VersionName(v)
    case None => VersionName((ch.legacyMajor, ch.legacyMinor))
  }

  method TlsVersionCode(ch: ClientHello) returns (code: PyStr)
    ensures code == VersionCode(ch)
  {
    var best: Option<Version> := None;
    for k := 0 to |ch.extensions|
      invariant BestFrom(best, Offered(ch.extensions[k..])) == BestFrom(None, Offered(ch.extensions))
    {
      var e := ch.extensions[k];
      assert ch.extensions[k..][0] == e && ch.extensions[k..][1..] == ch.extensions[k + 1..];
      BestFromConcat(best, VersionsIn(e), Offered(ch.extensions[k + 1..]));
      if e.typ == SUPPORTED_VERSIONS_EXTENSION && |e.body| >= 1 {
        var count := e.body[0];
        var versions := e.body[1..if 1 + count <= |e.body| then 1 + count else |e.body|];
        var before := best;
        var i := 0;
        assert versions[0..] == versions;
        while i < |versions| - 1
          invariant 0 <= i <= |versions|
          invariant BestFrom(best, Pairs(versions[i..])) == BestFrom(before, Pairs(versions))
        {
          var v := (versions[i], versions[i + 1]);
          assert versions[i..][2..] == versions[i + 2..];
          best := Better(best, v);
          i := i + 2;
        }
      }
    }
    if best.Some? {
      return VersionName(best.value);
    }
    return VersionName((ch.legacyMajor, ch.legacyMinor));
  }

  lemma {:induction false} BestFromConcat(best: Option<Version>, a: seq<Version>, b: seq<Version>)
    ensures BestFrom(best, a + b) == BestFrom(BestFrom(best, a), b)
    decreases |a|
  {
    if a == [] {
      assert a + b == b;
    } else {
      assert (a + b)[1..] == a[1..] + b;
      BestFromConcat(Better(best, a[0]), a[1..], b);
    }
  }

  /** The version is a non-GREASE one of the list, and none of the list is greater. */
  predicate IsGreatest(v: Version, vs: seq<Version>) {
    v in vs && !IsGreaseVersion(v) && forall i | 0 <= i < |vs| :: IsGreaseVersion(vs[i]) || !Greater(vs[i], v)
  }

  predicate AllGrease(vs: seq<Version>) {
    forall i | 0 <= i < |vs| :: IsGreaseVersion(vs[i])
  }

  lemma {:induction false} BestFromKeeps(best: Option<Version>, vs: seq<Version>)
    ensures best.Some? ==> BestFrom(best, vs).Some?
    decreases |vs|
  {
    if vs != [] { BestFromKeeps(Better(best, vs[0]), vs[1..]); }
  }

  /** The same with the best version so far taken into account. */
  predicate GreatestOf(best: Option<Version>, vs: seq<Version>, v: Version) {
    && (best == Some(v) || v in vs) && !IsGreaseVersion(v)
    && (best.Some? ==> !Greater(best.value, v))
    && forall i | 0 <= i < |vs| :: IsGreaseVersion(vs[i]) || !Greater(vs[i], v)
  }

  lemma {:induction false} BestFromIsGreatest(best: Option<Version>, vs: seq<Version>)
    requires best.Some? ==> !IsGreaseVersion(best.value)
    ensures match BestFrom(best, vs)
            case None => best.None? && AllGrease(vs)
            case Some(v) => GreatestOf(best, vs, v)
    decreases |vs|
  {
    hide Grease;
    if vs != [] {
      var next := Better(best, vs[0]);
      BestFromIsGreatest(next, vs[1..]);
      match BestFrom(next, vs[1..]) {
        case Some(v) => GreatestStep(best, vs, v);
        case None =>
          forall i | 0 <= i < |vs| ensures IsGreaseVersion(vs[i]) {
            if i > 0 { assert vs[1..][i - 1] == vs[i]; }
          }
      }
    }
  }

  lemma {:induction false} GreatestStep(best: Option<Version>, vs: seq<Version>, v: Version)
    requires vs != [] && (best.Some? ==> !IsGreaseVersion(best.value))
    requires GreatestOf(Better(best, vs[0]), vs[1..], v)
    ensures GreatestOf(best, vs, v)
  {
    hide IsGreaseVersion;
    assert vs == [vs[0]] + vs[1..];
    forall i | 0 <= i < |vs| ensures IsGreaseVersion(vs[i]) || !Greater(vs[i], v) {
      if i > 0 { assert vs[1..][i - 1] == vs[i]; }
    }
  }

  /**
   * The version code is that of the greatest non-GREASE version over all supported_versions
   * extensions, and the legacy field's exactly when they hold none, for bodies of any shape.
   */
  lemma {:induction false} VersionCodeMeaning(ch: ClientHello)
    ensures var vs := Offered(ch.extensions);
            if AllGrease(vs) then VersionCode(ch) == VersionName((ch.legacyMajor, ch.legacyMinor))
            else exists v :: IsGreatest(v, vs) && VersionCode(ch) == VersionName(v)
  {
    var vs := Offered(ch.extensions);
    BestFromIsGreatest(None, vs);
    match BestFrom(None, vs) {
      case Some(v) =>
        assert IsGreatest(v, vs);
        var i :| 0 <= i < |vs| && vs[i] == v;
      case None =>
    }
  }

  lemma {:induction false} GreatestUnique(v: Version, w: Version, vs: seq<Version>, ws: seq<Version>)
    requires IsGreatest(v, vs) && IsGreatest(w, ws)
    requires forall x :: x in vs <==> x in ws
    ensures v == w
  {
    hide IsGreaseVersion;
    assert v in ws && w in vs;
    var i :| 0 <= i < |ws| && ws[i] == v;
    var j :| 0 <= j < |vs| && vs[j] == w;
  }

  lemma {:induction false} OfferedIn(exts: seq<Extension>, v: Version)
    ensures v in Offered(exts) <==> exists e :: e in exts && v in VersionsIn(e)
  {
    if exts != [] {
      OfferedIn(exts[1..], v);
      assert exts == [exts[0]] + exts[1..];
      if v in VersionsIn(exts[0]) { assert exts[0] in exts; }
      if e :| e in exts[1..] && v in VersionsIn(e) { assert e in exts; }
    }
  }

  /** The version code ignores the order of the extensions. */
  lemma {:induction false} VersionCodeUnordered(a: ClientHello, b: ClientHello)
    requires multiset(a.extensions) == multiset(b.extensions)
    requires a.legacyMajor == b.legacyMajor && a.legacyMinor == b.legacyMinor
    ensures VersionCode(a) == VersionCode(b)
  {
    var vs, ws := Offered(a.extensions), Offered(b.extensions);
    forall v ensures v in vs <==> v in ws {
      OfferedIn(a.extensions, v);
      OfferedIn(b.extensions, v);
      assert forall e :: e in a.extensions <==> e in multiset(a.extensions);
      assert forall e :: e in b.extensions <==> e in multiset(b.extensions);
    }
    VersionCodeMeaning(a);
    VersionCodeMeaning(b);
    AllGreaseIn(vs);
    AllGreaseIn(ws);
    if !AllGrease(vs) {
      var v :| IsGreatest(v, vs) && VersionCode(a) == VersionName(v);
      var w :| IsGreatest(w, ws) && VersionCode(b) == VersionName(w);
      GreatestUnique(v, w, vs, ws);
    }
  }

  lemma {:induction false} AllGreaseIn(vs: seq<Version>)
    ensures AllGrease(vs) <==> forall v :: v in vs ==> IsGreaseVersion(v)
  {
    hide IsGreaseVersion;
  }

  // ----- ciphers and extensions -----

  /** The list without its GREASE values, in order. */
  function NotGrease(xs: seq<U16>): (r: seq<U16>)
    ensures |r| <= |xs|
  {
    if xs == [] then []
    else if Grease(xs[0]) then NotGrease(xs[1..])
    else [xs[0]] + NotGrease(xs[1..])
  }

  function Types(exts: seq<Extension>): seq<U16> {
    seq(|exts|, i requires 0 <= i < |exts| => exts[i].typ)
  }

  /** The list without the server-name and ALPN extensions, in order. */
  function NotNamed(xs: seq<U16>): seq<U16> {
    if xs == [] then []
    else if xs[0] == SNI_EXTENSION || xs[0] == ALPN_EXTENSION then NotNamed(xs[1..])
    else [xs[0]] + NotNamed(xs[1..])
  }

  function Hex(n: U16): PyStr { Py(Hex4(n)) }

  function HexAll(xs: seq<U16>): seq<PyStr> {
    seq(|xs|, i requires 0 <= i < |xs| => Hex(xs[i]))
  }

  function SortedHex(xs: seq<U16>): seq<PyStr> { Sort(HexAll(xs)) }

  const COMMA: Code := 0x2C

  function Hash12(h: StrHash, values: seq<PyStr>): (r: PyStr)
    ensures |r| == 12
  {
    HexDigest(h(Join(COMMA, values)))[..12]
  }

  /** `min(n, 99)` in two digits. */
  function Count2(n: nat): (r: PyStr)
    ensures |r| == 2
  {
    var m := if n <= 99 then n else 99;
    [0x30 + m / 10, 0x30 + m % 10]
  }

  /** The first and last character of the first protocol, decoded as ASCII. */
  function AlpnCode(alpn: seq<seq<Byte>>): (r: PyStr)
    ensures |r| == 2
  {
    if alpn == [] || alpn[0] == [] then Py("00")
    else [Ascii(alpn[0][0]), Ascii(alpn[0][|alpn[0]| - 1])]
  }

  function Ascii(b: Byte): Code { if b < 128 then b else 0xFFFD }

  datatype Ja4Components = Ja4Components(
    ja4: PyStr,
    versionCode: PyStr,
    sniChar: PyStr,
    cipherCount: nat,
    extCount: nat,
    alpnCode: PyStr,
    ciphers: seq<PyStr>,
    extensions: seq<PyStr>)

  function Min99(n: nat): nat { if n <= 99 then n else 99 }

  const UNDERSCORE: Code := 0x5F

  function Ja4String(h: StrHash, c: Ja4Components): PyStr {
    Py("t") + c.versionCode + c.sniChar + Count2(c.cipherCount) + Count2(c.extCount) + c.alpnCode
    + [UNDERSCORE] + Hash12(h, c.ciphers) + [UNDERSCORE] + Hash12(h, c.extensions)
  }

  function VisibleCiphers(ch: ClientHello): seq<U16> { NotGrease(ch.ciphers) }

  function VisibleExtensions(ch: ClientHello): seq<U16> { NotGrease(Types(ch.extensions)) }

  function HashedExtensions(ch: ClientHello): seq<U16> { NotNamed(VisibleExtensions(ch)) }

  function Components(h: StrHash, ch: ClientHello): Ja4Components {
    var c := Ja4Components([], VersionCode(ch), if ch.sni != [] then Py("d") else Py("i"),
                           Min99(|VisibleCiphers(ch)|), Min99(|VisibleExtensions(ch)|), AlpnCode(ch.alpn),
                           SortedHex(VisibleCiphers(ch)), SortedHex(HashedExtensions(ch)));
    c.(ja4 := Ja4String(h, c))
  }

  // ----- what the hash preimages determine -----

  lemma {:induction false} PyInjective(s: string, t: string)
    requires Py(s) == Py(t)
    ensures s == t
  {
    assert |s| == |Py(s)| == |Py(t)| == |t|;
    forall i | 0 <= i < |s| ensures s[i] == t[i] {
      assert Py(s)[i] == Py(t)[i];
    }
  }

  lemma {:induction false} HexInjective(m: U16, n: U16)
    requires Hex(m) == Hex(n)
    ensures m == n
  {
    PyInjective(Hex4(m), Hex4(n));
    Hex4Injective(m, n);
  }

  lemma {:induction false} HexCount(xs: seq<U16>, n: U16)
    ensures multiset(HexAll(xs))[Hex(n)] == multiset(xs)[n]
  {
    hide Hex;
    if xs != [] {
      HexCount(xs[1..], n);
      assert xs == [xs[0]] + xs[1..] && HexAll(xs) == [Hex(xs[0])] + HexAll(xs[1..]);
      if Hex(xs[0]) == Hex(n) { HexInjective(xs[0], n); }
    }
  }

  lemma {:induction false} HexMultiset(xs: seq<U16>, ys: seq<U16>)
    ensures multiset(HexAll(xs)) == multiset(HexAll(ys)) <==> multiset(xs) == multiset(ys)
  {
    if multiset(HexAll(xs)) == multiset(HexAll(ys)) {
      forall n: U16 ensures multiset(xs)[n] == multiset(ys)[n] {
        HexCount(xs, n);
        HexCount(ys, n);
      }
    }
    if multiset(xs) == multiset(ys) {
      forall s ensures multiset(HexAll(xs))[s] == multiset(HexAll(ys))[s] {
        if s in HexAll(xs) || s in HexAll(ys) {
          var n :| s == Hex(n);
          HexCount(xs, n);
          HexCount(ys, n);
        }
      }
    }
  }

  lemma {:induction false} HexPlain(xs: seq<U16>)
    ensures Free(COMMA, SortedHex(xs)) && NonEmpty(SortedHex(xs))
  {
    var r := SortedHex(xs);
    forall i | 0 <= i < |r| ensures COMMA !in r[i] && r[i] != [] {
      assert r[i] in multiset(HexAll(xs));
      var k :| 0 <= k < |xs| && r[i] == Hex(xs[k]);
      forall j | 0 <= j < |r[i]| ensures r[i][j] != COMMA {
        assert Hex4(xs[k])[j] in Hex4(xs[k]);
      }
    }
  }

  /** Two lists hash from the same text exactly when they are rearrangements of each other. */
  lemma {:induction false} PreimageIff(xs: seq<U16>, ys: seq<U16>)
    ensures Join(COMMA, SortedHex(xs)) == Join(COMMA, SortedHex(ys)) <==> multiset(xs) == multiset(ys)
    ensures SortedHex(xs) == SortedHex(ys) <==> multiset(xs) == multiset(ys)
  {
    HexPlain(xs);
    HexPlain(ys);
    SortCanonical(HexAll(xs), HexAll(ys));
    HexMultiset(xs, ys);
    if Join(COMMA, SortedHex(xs)) == Join(COMMA, SortedHex(ys)) {
      JoinInjective(COMMA, SortedHex(xs), SortedHex(ys));
    }
  }

  // ----- order does not matter -----

  lemma {:induction false} NotGreaseCount(xs: seq<U16>, n: U16)
    ensures multiset(NotGrease(xs))[n] == if Grease(n) then 0 else multiset(xs)[n]
  {
    hide Grease;
    if xs != [] {
      NotGreaseCount(xs[1..], n);
      assert xs == [xs[0]] + xs[1..];
    }
  }

  lemma {:induction false} NotNamedCount(xs: seq<U16>, n: U16)
    ensures multiset(NotNamed(xs))[n] == if n == SNI_EXTENSION || n == ALPN_EXTENSION then 0 else multiset(xs)[n]
  {
    if xs != [] {
      NotNamedCount(xs[1..], n);
      assert xs == [xs[0]] + xs[1..];
    }
  }

  lemma {:induction false} FiltersUnordered(xs: seq<U16>, ys: seq<U16>)
    requires multiset(xs) == multiset(ys)
    ensures multiset(NotGrease(xs)) == multiset(NotGrease(ys))
    ensures multiset(NotNamed(xs)) == multiset(NotNamed(ys))
    ensures |NotGrease(xs)| == |NotGrease(ys)|
  {
    forall n: U16
      ensures multiset(NotGrease(xs))[n] == multiset(NotGrease(ys))[n]
      ensures multiset(NotNamed(xs))[n] == multiset(NotNamed(ys))[n]
    {
      NotGreaseCount(xs, n);
      NotGreaseCount(ys, n);
      NotNamedCount(xs, n);
      NotNamedCount(ys, n);
    }
    assert multiset(NotGrease(xs)) == multiset(NotGrease(ys));
    assert |NotGrease(xs)| == |multiset(NotGrease(xs))| && |NotGrease(ys)| == |multiset(NotGrease(ys))|;
  }

  lemma {:induction false} TypesUnordered(a: seq<Extension>, b: seq<Extension>)
    requires multiset(a) == multiset(b)
    ensures multiset(Types(a)) == multiset(Types(b))
    decreases |a|
  {
    if a == [] {
      assert |b| == |multiset(b)| == 0;
    } else {
      assert a[0] in multiset(b);
      var k :| 0 <= k < |b| && b[k] == a[0];
      var c := b[..k] + b[k + 1..];
      assert a[..0] + a[1..] == a[1..];
      TypesWithout(a, 0, a[1..]);
      TypesWithout(b, k, c);
      SameRest(multiset(a), multiset(a[1..]), multiset(c), a[0]);
      hide Types;
      TypesUnordered(a[1..], c);
    }
  }

  lemma {:induction false} SameRest<T>(all: multiset<T>, m: multiset<T>, n: multiset<T>, x: T)
    requires all == m + multiset{x} == n + multiset{x}
    ensures m == n
  {
    assert m == all - multiset{x} == n;
  }

  lemma {:induction false} TypesWithout(b: seq<Extension>, k: nat, c: seq<Extension>)
    requires k < |b| && c == b[..k] + b[k + 1..]
    ensures multiset(b) == multiset(c) + multiset{b[k]}
    ensures multiset(Types(b)) == multiset(Types(c)) + multiset{b[k].typ}
  {
    assert b == b[..k] + [b[k]] + b[k + 1..];
    assert Types(b) == Types(b[..k]) + [b[k].typ] + Types(b[k + 1..]);
    assert Types(c) == Types(b[..k]) + Types(b[k + 1..]);
  }

  /** JA4 ignores the order of ciphers and extensions. */
  lemma {:induction false} Ja4Unordered(h: StrHash, a: ClientHello, b: ClientHello)
    requires multiset(a.ciphers) == multiset(b.ciphers) && multiset(a.extensions) == multiset(b.extensions)
    requires a.sni == b.sni && a.alpn == b.alpn
    requires a.legacyMajor == b.legacyMajor && a.legacyMinor == b.legacyMinor
    ensures Components(h, a) == Components(h, b)
  {
    hide Ja4String, AlpnCode, NotGrease, NotNamed, SortedHex, VersionCode;
    VersionCodeUnordered(a, b);
    FiltersUnordered(a.ciphers, b.ciphers);
    PreimageIff(VisibleCiphers(a), VisibleCiphers(b));
    TypesUnordered(a.extensions, b.extensions);
    FiltersUnordered(Types(a.extensions), Types(b.extensions));
    FiltersUnordered(VisibleExtensions(a), VisibleExtensions(b));
    PreimageIff(HashedExtensions(a), HashedExtensions(b));
  }

  // ----- GREASE does not matter -----

  function Inserted<T>(xs: seq<T>, i: nat, x: T): seq<T>
    requires i <= |xs|
  {
    xs[..i] + [x] + xs[i..]
  }

  lemma {:induction false} NotGreaseInsert(xs: seq<U16>, i: nat, g: U16)
    requires i <= |xs| && Grease(g)
    ensures NotGrease(Inserted(xs, i, g)) == NotGrease(xs)
  {
    hide Grease;
    var ys := Inserted(xs, i, g);
    if i == 0 {
      assert ys == [g] + xs && ys[1..] == xs;
    } else {
      assert ys[0] == xs[0] && ys[1..] == Inserted(xs[1..], i - 1, g);
      NotGreaseInsert(xs[1..], i - 1, g);
    }
  }

  /** A GREASE cipher anywhere in the list leaves every component unchanged. */
  lemma {:induction false} GreaseCipherInvisible(h: StrHash, ch: ClientHello, i: nat, g: U16)
    requires i <= |ch.ciphers| && Grease(g)
    ensures Components(h, ch.(ciphers := Inserted(ch.ciphers, i, g))) == Components(h, ch)
  {
    NotGreaseInsert(ch.ciphers, i, g);
  }

  lemma {:induction false} OfferedInsert(exts: seq<Extension>, i: nat, e: Extension)
    requires i <= |exts| && VersionsIn(e) == []
    ensures Offered(Inserted(exts, i, e)) == Offered(exts)
  {
    var ys := Inserted(exts, i, e);
    if i == 0 {
      assert ys == [e] + exts && ys[1..] == exts;
      assert [] + Offered(exts) == Offered(exts);
    } else {
      assert ys[0] == exts[0] && ys[1..] == Inserted(exts[1..], i - 1, e);
      OfferedInsert(exts[1..], i - 1, e);
    }
  }

  /** A GREASE extension anywhere in the list, whatever its body, leaves every component unchanged. */
  lemma {:induction false} GreaseExtensionInvisible(h: StrHash, ch: ClientHello, i: nat, e: Extension)
    requires i <= |ch.extensions| && Grease(e.typ)
    ensures Components(h, ch.(extensions := Inserted(ch.extensions, i, e))) == Components(h, ch)
  {
    OfferedInsert(ch.extensions, i, e);
    NotGreaseInsert(Types(ch.extensions), i, e.typ);
    assert Types(Inserted(ch.extensions, i, e)) == Inserted(Types(ch.extensions), i, e.typ);
  }

  lemma {:induction false} PairsHead(bs: seq<Byte>)
    ensures |bs| >= 2 ==> Pairs(bs) == [(bs[0], bs[1])] + Pairs(bs[2..])
  {}

  lemma {:induction false} InsertedFirst<T>(xs: seq<T>, x: T)
    ensures Inserted(xs, 0, x) == [x] + xs
  {}

  lemma {:induction false} InsertedLater<T>(head: T, tail: seq<T>, k: nat, x: T)
    requires 0 < k <= |tail| + 1
    ensures Inserted([head] + tail, k, x) == [head] + Inserted(tail, k - 1, x)
  {}

  lemma {:induction false} PairsInsert(bs: seq<Byte>, k: nat, hi: Byte, lo: Byte)
    requires 2 * k <= |bs|
    ensures k <= |Pairs(bs)|
    ensures Pairs(bs[..2 * k] + [hi, lo] + bs[2 * k..]) == Inserted(Pairs(bs), k, (hi, lo))
  {
    hide Pairs, Inserted;
    var cs := bs[..2 * k] + [hi, lo] + bs[2 * k..];
    PairsHead(cs);
    if k == 0 {
      assert cs == [hi, lo] + bs && cs[2..] == bs;
      InsertedFirst(Pairs(bs), (hi, lo));
    } else {
      PairsHead(bs);
      var tail := bs[2..];
      assert cs[2..] == tail[..2 * (k - 1)] + [hi, lo] + tail[2 * (k - 1)..];
      PairsInsert(tail, k - 1, hi, lo);
      InsertedLater((bs[0], bs[1]), Pairs(tail), k, (hi, lo));
    }
  }

  lemma {:induction false} BestFromInsert(best: Option<Version>, vs: seq<Version>, k: nat, g: Version)
    requires k <= |vs| && IsGreaseVersion(g)
    ensures BestFrom(best, Inserted(vs, k, g)) == BestFrom(best, vs)
    decreases |vs|
  {
    hide IsGreaseVersion;
    var ws := Inserted(vs, k, g);
    if k == 0 {
      assert ws == [g] + vs && ws[1..] == vs;
    } else {
      assert ws[0] == vs[0] && ws[1..] == Inserted(vs[1..], k - 1, g);
      BestFromInsert(Better(best, vs[0]), vs[1..], k - 1, g);
    }
  }

  lemma {:induction false} OfferedSplit(exts: seq<Extension>, j: nat)
    requires j < |exts|
    ensures Offered(exts) == Offered(exts[..j]) + (VersionsIn(exts[j]) + Offered(exts[j + 1..]))
  {
    hide VersionsIn;
    if j == 0 {
      assert exts[1..] == exts[0 + 1..];
    } else {
      OfferedSplit(exts[1..], j - 1);
      assert exts[1..][..j - 1] == exts[..j][1..] && exts[1..][j..] == exts[j + 1..];
      assert exts[..j][0] == exts[0];
    }
  }

  /** The supported_versions body with one more version before its k-th, its length byte raised. */
  function WithVersion(body: seq<Byte>, k: nat, v: Version): seq<Byte>
    requires body != [] && body[0] <= 253 && 2 * k <= |VersionBytes(body)|
  {
    [body[0] + 2] + body[1..1 + 2 * k] + [v.0, v.1] + body[1 + 2 * k..]
  }

  lemma {:induction false} SliceInsert<T>(x: T, body: seq<T>, a: nat, ins: seq<T>, b: nat)
    requires 1 <= a <= b <= |body|
    ensures ([x] + body[1..a] + ins + body[a..])[1..b + |ins|] == body[1..a] + ins + body[a..b]
  {
    var front := body[1..a] + ins;
    assert [x] + body[1..a] + ins + body[a..] == [x] + (front + body[a..]);
    assert (front + body[a..])[..b - 1 + |ins|] == front + body[a..][..b - a];
  }

  lemma {:induction false} VersionBytesWith(body: seq<Byte>, k: nat, v: Version)
    requires body != [] && body[0] <= 253 && 2 * k <= |VersionBytes(body)|
    ensures VersionBytes(WithVersion(body, k, v))
            == VersionBytes(body)[..2 * k] + [v.0, v.1] + VersionBytes(body)[2 * k..]
  {
    var m := |VersionBytes(body)|;
    var all := WithVersion(body, k, v);
    assert VersionBytes(body) == body[1..1 + m];
    assert VersionBytes(all) == all[1..m + 3];
    SliceInsert(body[0] + 2, body, 1 + 2 * k, [v.0, v.1], 1 + m);
    assert body[1..1 + m][..2 * k] == body[1..1 + 2 * k] && body[1..1 + m][2 * k..] == body[1 + 2 * k..1 + m];
  }

  /** A GREASE version among the supported versions, bodies cut short included, changes no component. */
  lemma {:induction false} GreaseVersionInvisible(h: StrHash, ch: ClientHello, j: nat, k: nat, g: Version)
    requires j < |ch.extensions| && ch.extensions[j].typ == SUPPORTED_VERSIONS_EXTENSION && IsGreaseVersion(g)
    requires var body := ch.extensions[j].body;
             body != [] && body[0] <= 253 && 2 * k <= |VersionBytes(body)|
    ensures var e := ch.extensions[j];
            Components(h, ch.(extensions := ch.extensions[j := e.(body := WithVersion(e.body, k, g))]))
            == Components(h, ch)
  {
    var e := ch.extensions[j];
    var f := e.(body := WithVersion(e.body, k, g));
    var exts := ch.extensions[j := f];
    VersionBytesWith(e.body, k, g);
    PairsInsert(VersionBytes(e.body), k, g.0, g.1);
    OfferedSplit(ch.extensions, j);
    OfferedSplit(exts, j);
    assert exts[..j] == ch.extensions[..j] && exts[j + 1..] == ch.extensions[j + 1..];
    var a, b, c := Offered(exts[..j]), VersionsIn(e), Offered(exts[j + 1..]);
    assert VersionsIn(f) == Inserted(b, k, g);
    BestFromConcat(None, a, b + c);
    BestFromConcat(None, a, Inserted(b, k, g) + c);
    BestFromConcat(BestFrom(None, a), b, c);
    BestFromConcat(BestFrom(None, a), Inserted(b, k, g), c);
    BestFromInsert(BestFrom(None, a), b, k, g);
    assert Types(exts) == Types(ch.extensions);
  }
}
