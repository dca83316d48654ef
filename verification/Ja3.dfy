/** The JA3 fingerprint up to its hash (proxy/ja3.py), and how it differs from JA4. */
module Ja3 {
  import opened PyText
  import opened Hashing
  import opened Strs
  import opened Ja4

  const SUPPORTED_GROUPS_EXTENSION := 0x000A
  const EC_POINT_FORMATS_EXTENSION := 0x000B

  // ----- length-prefixed lists -----

  /** One element at position i, in one or two bytes. */
  function At(body: seq<Byte>, i: nat, step: nat): U16
    requires (step == 1 || step == 2) && i + step <= |body|
  {
    if step == 2 then 256 * body[i] as int + body[i + 1] as int else body[i] as int
  }

  /** The elements from position i on, up to the declared end and as far as the body reaches. */
  function Elements(body: seq<Byte>, i: nat, end: nat, step: nat): seq<U16>
    requires step == 1 || step == 2
    decreases end - i
  {
    if i >= end then []
    else if i + step <= |body| then [At(body, i, step)] + Elements(body, i + step, end, step)
    else Elements(body, i + step, end, step)
  }

  function DeclaredLength(body: seq<Byte>, step: nat): nat
    requires (step == 1 || step == 2) && |body| >= step
  {
    if step == 2 then 256 * body[0] as int + body[1] as int else body[0] as int
  }

  /** `_parse_u16_list(body, step)`: the length prefix is as wide as an element. */
  function ParseList(body: seq<Byte>, step: nat): seq<U16>
    requires step == 1 || step == 2
  {
    if |body| < step then [] else Elements(body, step, step + DeclaredLength(body, step), step)
  }

  method ParseU16List(body: seq<Byte>, lengthBytes: nat) returns (values: seq<U16>)
    requires lengthBytes == 1 || lengthBytes == 2
    ensures values == ParseList(body, lengthBytes)
  {
    if |body| < lengthBytes {
      return [];
    }
    var listLen := if lengthBytes == 2 then 256 * body[0] as int + body[1] as int else body[0] as int;
    var step := if lengthBytes == 2 then 2 else 1;
    var offset := step;
    values := [];
    var i := offset;
    while i < offset + listLen
      invariant offset <= i
      invariant values + Elements(body, i, offset + listLen, step) == ParseList(body, lengthBytes)
    {
      if i + step <= |body| {
        values := values + [At(body, i, step)];
      }
      i := i + step;
    }
  }

  /** How many elements start before the declared end and lie within the body. */
  function Contained(i: nat, end: nat, length: nat, step: nat): nat
    requires step == 1 || step == 2
  {
    var declared := if i >= end then 0 else (end - i + step - 1) / step;
    var present := if i >= length then 0 else (length - i) / step;
    if declared <= present then declared else present
  }

  lemma {:induction false} ElementsMeaning(body: seq<Byte>, i: nat, end: nat, step: nat)
    requires step == 1 || step == 2
    ensures var r := Elements(body, i, end, step);
            |r| == Contained(i, end, |body|, step)
            && forall j | 0 <= j < |r| :: i + step * j + step <= |body| && r[j] == At(body, i + step * j, step)
    decreases end - i
  {
    if i < end {
      ElementsMeaning(body, i + step, end, step);
      if step == 2 {
        ContainedStep2(i, end, |body|);
      }
    }
  }

  lemma {:induction false} ContainedStep2(i: nat, end: nat, length: nat)
    requires i < end
    ensures Contained(i, end, length, 2) == if i + 2 <= length then 1 + Contained(i + 2, end, length, 2) else 0
    ensures i + 2 > length ==> Contained(i + 2, end, length, 2) == 0
  {}

  /** A number in the given count of bytes, big-endian. */
  function Bytes(n: U16, step: nat): (r: seq<Byte>)
    requires step == 2 || (step == 1 && n < 256)
    ensures |r| == step
  {
    if step == 2 then [n / 256, n % 256] else [n]
  }

  predicate Fits(xs: seq<U16>, step: nat) {
    && (step == 1 || step == 2)
    && (step == 1 ==> |xs| < 256 && forall i | 0 <= i < |xs| :: xs[i] < 256)
    && (step == 2 ==> 2 * |xs| < 0x1_0000)
  }

  function Payload(xs: seq<U16>, step: nat): (r: seq<Byte>)
    requires Fits(xs, step)
    ensures |r| == step * |xs|
  {
    if xs == [] then [] else Payload(xs[..|xs| - 1], step) + Bytes(xs[|xs| - 1], step)
  }

  /** The wire form: a byte length, then the elements (RFC 8446 section 4.2.7, RFC 8422 section 5.1.2). */
  function Encode(xs: seq<U16>, step: nat): (r: seq<Byte>)
    requires Fits(xs, step)
    ensures |r| == step + step * |xs|
  {
    Bytes(step * |xs|, step) + Payload(xs, step)
  }

  lemma {:induction false} PayloadAt(xs: seq<U16>, step: nat, j: nat)
    requires Fits(xs, step) && j < |xs|
    ensures step * j + step <= |Payload(xs, step)| && At(Payload(xs, step), step * j, step) == xs[j]
  {
    if j < |xs| - 1 {
      PayloadAt(xs[..|xs| - 1], step, j);
    }
  }

  /**
   * The list codec: an encoding cut to n bytes parses to exactly the elements it still contains in
   * full, whatever follows it is ignored, and uncut it parses to the list itself.
   */
  lemma {:induction false} CodecRoundTrip(xs: seq<U16>, step: nat, n: nat, extra: seq<Byte>)
    requires Fits(xs, step) && n <= |Encode(xs, step)|
    ensures ParseList(Encode(xs, step) + extra, step) == xs
    ensures ParseList(Encode(xs, step)[..n], step) == if n < step then [] else xs[..(n - step) / step]
  {
    Decoded(xs, step, Encode(xs, step) + extra, |xs|);
    if n >= step {
      Decoded(xs, step, Encode(xs, step)[..n], (n - step) / step);
    }
  }

  /** Any body that starts like the encoding, as far as it goes, parses to the elements it holds. */
  lemma {:induction false} Decoded(xs: seq<U16>, step: nat, body: seq<Byte>, k: nat)
    requires Fits(xs, step) && k <= |xs| && step <= |body|
    requires forall i | 0 <= i < |body| && i < |Encode(xs, step)| :: body[i] == Encode(xs, step)[i]
    requires k == |xs| ==> step + step * k <= |body|
    requires k < |xs| ==> k == (|body| - step) / step
    ensures ParseList(body, step) == xs[..k]
  {
    LengthDecoded(xs, step, body);
    var end := step + step * |xs|;
    ElementsMeaning(body, step, end, step);
    ContainedCount(step, |xs|, |body|, k);
    var r := ParseList(body, step);
    forall j | 0 <= j < k ensures r[j] == xs[j] {
      hide Elements, Contained;
      ElementDecoded(xs, step, body, j);
    }
  }

  lemma {:induction false} LengthDecoded(xs: seq<U16>, step: nat, body: seq<Byte>)
    requires Fits(xs, step) && step <= |body|
    requires forall i | 0 <= i < |body| && i < |Encode(xs, step)| :: body[i] == Encode(xs, step)[i]
    ensures DeclaredLength(body, step) == step * |xs|
  {
    hide Payload;
    var all := Encode(xs, step);
    assert body[0] == all[0] == Bytes(step * |xs|, step)[0];
    if step == 2 { assert body[1] == all[1] == Bytes(step * |xs|, step)[1]; }
  }

  lemma {:induction false} ContainedCount(step: nat, count: nat, length: nat, k: nat)
    requires (step == 1 || step == 2) && step <= length && k <= count
    requires k == count ==> step + step * k <= length
    requires k < count ==> k == (length - step) / step
    ensures Contained(step, step + step * count, length, step) == k
  {}

  lemma {:induction false} ElementDecoded(xs: seq<U16>, step: nat, body: seq<Byte>, j: nat)
    requires Fits(xs, step) && j < |xs| && step + step * j + step <= |body|
    requires forall i | 0 <= i < |body| && i < |Encode(xs, step)| :: body[i] == Encode(xs, step)[i]
    ensures At(body, step + step * j, step) == xs[j]
  {
    PayloadAt(xs, step, j);
    hide Payload, Bytes;
    var p := step + step * j;
    assert Encode(xs, step)[p] == Payload(xs, step)[step * j];
    if step == 2 { assert Encode(xs, step)[p + 1] == Payload(xs, step)[step * j + 1]; }
  }

  // ----- the fingerprint -----

  /** The groups of the last supported_groups extension. */
  function Curves(exts: seq<Extension>): seq<U16> {
    if exts == [] then []
    else
      var e := exts[|exts| - 1];
      if e.typ == SUPPORTED_GROUPS_EXTENSION then NotGrease(ParseList(e.body, 2)) else Curves(exts[..|exts| - 1])
  }

  /** The formats of the last ec_point_formats extension. */
  function PointFormats(exts: seq<Extension>): seq<U16> {
    if exts == [] then []
    else
      var e := exts[|exts| - 1];
      if e.typ == EC_POINT_FORMATS_EXTENSION then ParseList(e.body, 1) else PointFormats(exts[..|exts| - 1])
  }

  const DASH: Code := 0x2D

  function Dec(n: nat): PyStr { Py(Decimal(n)) }

  function DecAll(xs: seq<U16>): seq<PyStr> {
    seq(|xs|, i requires 0 <= i < |xs| => Dec(xs[i]))
  }

  function Dashed(xs: seq<U16>): PyStr { Join(DASH, DecAll(xs)) }

  function LegacyVersion(ch: ClientHello): nat { 256 * ch.legacyMajor + ch.legacyMinor }

  function Fields(ch: ClientHello): seq<PyStr> {
    [Dec(LegacyVersion(ch)), Dashed(VisibleCiphers(ch)), Dashed(VisibleExtensions(ch)),
     Dashed(Curves(ch.extensions)), Dashed(PointFormats(ch.extensions))]
  }

  /** The string JA3 hashes. */
  function Ja3String(ch: ClientHello): PyStr { Join(COMMA, Fields(ch)) }

  method ComputeJa3(md5: PyStr -> seq<Byte>, ch: ClientHello) returns (ja3: PyStr)
    ensures ja3 == HexDigest(md5(Ja3String(ch)))
  {
    var version := 256 * ch.legacyMajor + ch.legacyMinor;
    var ciphers := NotGrease(ch.ciphers);
    var curves: seq<U16>, pointFormats: seq<U16>, extTypes: seq<U16> := [], [], [];
    var exts := ch.extensions;
    for k := 0 to |exts|
      invariant extTypes == NotGrease(Types(exts[..k]))
      invariant curves == Curves(exts[..k]) && pointFormats == PointFormats(exts[..k])
    {
      var e := exts[k];
      assert exts[..k + 1][..k] == exts[..k] && Types(exts[..k + 1]) == Types(exts[..k]) + [e.typ];
      NotGreaseSnoc(Types(exts[..k]), e.typ);
      if Grease(e.typ) {
        continue;
      }
      extTypes := extTypes + [e.typ];
      if e.typ == SUPPORTED_GROUPS_EXTENSION {
        var groups := ParseU16List(e.body, 2);
        curves := NotGrease(groups);
      } else if e.typ == EC_POINT_FORMATS_EXTENSION {
        pointFormats := ParseU16List(e.body, 1);
      }
    }
    assert exts[..|exts|] == exts;
    ja3 := HexDigest(md5(Join(COMMA, [Dec(version), Dashed(ciphers), Dashed(extTypes), Dashed(curves),
                                      Dashed(pointFormats)])));
  }

  lemma {:induction false} NotGreaseSnoc(xs: seq<U16>, x: U16)
    ensures NotGrease(xs + [x]) == if Grease(x) then NotGrease(xs) else NotGrease(xs) + [x]
  {
    hide Grease;
    if xs == [] {
      assert xs + [x] == [x];
    } else {
      NotGreaseSnoc(xs[1..], x);
      assert (xs + [x])[1..] == xs[1..] + [x];
    }
  }

  // ----- what the preimage determines -----

  lemma {:induction false} DecFacts(n: nat)
    ensures Dec(n) != [] && DASH !in Dec(n) && COMMA !in Dec(n)
  {
    var s := Decimal(n);
    forall i | 0 <= i < |s| ensures Dec(n)[i] != DASH && Dec(n)[i] != COMMA {
      assert s[i] in s;
    }
  }

  lemma {:induction false} DecInjective(m: nat, n: nat)
    requires Dec(m) == Dec(n)
    ensures m == n
  {
    PyInjective(Decimal(m), Decimal(n));
    DecimalInjective(m, n);
  }

  lemma {:induction false} DecAllPlain(xs: seq<U16>)
    ensures Free(DASH, DecAll(xs)) && Free(COMMA, DecAll(xs)) && NonEmpty(DecAll(xs))
  {
    forall i | 0 <= i < |xs|
      ensures DASH !in DecAll(xs)[i] && COMMA !in DecAll(xs)[i] && DecAll(xs)[i] != []
    {
      DecFacts(xs[i]);
    }
  }

  lemma {:induction false} DashedInjective(xs: seq<U16>, ys: seq<U16>)
    requires Dashed(xs) == Dashed(ys)
    ensures xs == ys
  {
    DecAllPlain(xs);
    DecAllPlain(ys);
    JoinInjective(DASH, DecAll(xs), DecAll(ys));
    assert |xs| == |DecAll(xs)| == |DecAll(ys)| == |ys|;
    forall i | 0 <= i < |xs| ensures xs[i] == ys[i] {
      assert DecAll(xs)[i] == DecAll(ys)[i];
      DecInjective(xs[i], ys[i]);
    }
  }

  lemma {:induction false} JoinAvoids(sep: Code, c: Code, xs: seq<PyStr>)
    requires sep != c && Free(c, xs)
    ensures c !in Join(sep, xs)
  {
    if |xs| > 1 { JoinAvoids(sep, c, xs[1..]); }
  }

  lemma {:induction false} FieldsPlain(ch: ClientHello)
    ensures Free(COMMA, Fields(ch))
  {
    DecFacts(LegacyVersion(ch));
    DashedPlain(VisibleCiphers(ch));
    DashedPlain(VisibleExtensions(ch));
    DashedPlain(Curves(ch.extensions));
    DashedPlain(PointFormats(ch.extensions));
  }

  lemma {:induction false} DashedPlain(xs: seq<U16>)
    ensures COMMA !in Dashed(xs)
  {
    DecAllPlain(xs);
    JoinAvoids(DASH, COMMA, DecAll(xs));
  }

  /**
   * Two ClientHellos have the same JA3 preimage exactly when the legacy version and the four
   * GREASE-free lists agree, each in the order sent.
   */
  lemma {:induction false} Ja3PreimageIff(a: ClientHello, b: ClientHello)
    ensures Ja3String(a) == Ja3String(b) <==>
              && a.legacyMajor == b.legacyMajor && a.legacyMinor == b.legacyMinor
              && VisibleCiphers(a) == VisibleCiphers(b)
              && VisibleExtensions(a) == VisibleExtensions(b)
              && Curves(a.extensions) == Curves(b.extensions)
              && PointFormats(a.extensions) == PointFormats(b.extensions)
  {
    if Ja3String(a) == Ja3String(b) {
      FieldsPlain(a);
      FieldsPlain(b);
      JoinInjective(COMMA, Fields(a), Fields(b));
      assert Fields(a)[0] == Fields(b)[0] && Fields(a)[1] == Fields(b)[1] && Fields(a)[2] == Fields(b)[2];
      assert Fields(a)[3] == Fields(b)[3] && Fields(a)[4] == Fields(b)[4];
      DecInjective(LegacyVersion(a), LegacyVersion(b));
      DashedInjective(VisibleCiphers(a), VisibleCiphers(b));
      DashedInjective(VisibleExtensions(a), VisibleExtensions(b));
      DashedInjective(Curves(a.extensions), Curves(b.extensions));
      DashedInjective(PointFormats(a.extensions), PointFormats(b.extensions));
    }
  }

  /**
   * Why JA4 superseded JA3: reordering the extensions of a ClientHello never changes its JA4, and
   * changes its JA3 preimage whenever the order of the non-GREASE types changes.
   */
  lemma {:induction false} ReorderingContrast(h: StrHash, a: ClientHello, extensions: seq<Extension>)
    requires multiset(extensions) == multiset(a.extensions)
    ensures var b := a.(extensions := extensions);
            Components(h, a) == Components(h, b)
            && (VisibleExtensions(a) != VisibleExtensions(b) ==> Ja3String(a) != Ja3String(b))
  {
    var b := a.(extensions := extensions);
    Ja4Unordered(h, a, b);
    Ja3PreimageIff(a, b);
  }

  lemma {:induction false} ListsInsert(exts: seq<Extension>, i: nat, e: Extension)
    requires i <= |exts| && e.typ != SUPPORTED_GROUPS_EXTENSION && e.typ != EC_POINT_FORMATS_EXTENSION
    ensures Curves(Inserted(exts, i, e)) == Curves(exts)
    ensures PointFormats(Inserted(exts, i, e)) == PointFormats(exts)
  {
    var ys := Inserted(exts, i, e);
    if i == |exts| {
      assert ys[..|ys| - 1] == exts;
    } else {
      assert ys[..|ys| - 1] == Inserted(exts[..|exts| - 1], i, e) && ys[|ys| - 1] == exts[|exts| - 1];
      ListsInsert(exts[..|exts| - 1], i, e);
    }
  }

  /** GREASE ciphers and extensions do not reach the JA3 preimage either. */
  lemma {:induction false} GreaseInvisible(ch: ClientHello, i: nat, g: U16, j: nat, e: Extension)
    requires i <= |ch.ciphers| && Grease(g) && j <= |ch.extensions| && Grease(e.typ)
    ensures Ja3String(ch.(ciphers := Inserted(ch.ciphers, i, g), extensions := Inserted(ch.extensions, j, e)))
            == Ja3String(ch)
  {
    hide Ja3String, NotGrease, Curves, PointFormats;
    NotGreaseInsert(ch.ciphers, i, g);
    NotGreaseInsert(Types(ch.extensions), j, e.typ);
    assert Types(Inserted(ch.extensions, j, e)) == Inserted(Types(ch.extensions), j, e.typ);
    ListsInsert(ch.extensions, j, e);
    Ja3PreimageIff(ch.(ciphers := Inserted(ch.ciphers, i, g), extensions := Inserted(ch.extensions, j, e)), ch);
  }
}
