/** What the string JA3 hashes reads for any ClientHello, part by part (proxy/ja3.py). */
module Ja3Text {
  import opened PyText
  import opened Json
  import G = JsonGrammar
  import opened JsonRoundTrip
  import opened Hashing
  import opened Strs
  import opened Ja4
  import opened Ja3
  import opened Ja4Text

  // ----- reading numbers and lists -----

  /** The number in decimal, without leading zeros. */
  ghost predicate ReadsNumber(t: PyStr, n: nat) {
    exists w: G.Whole :: t == Py(w) && DecimalValue(w) == n
  }

  /** The numbers in their order with dashes between; nothing for none. */
  ghost predicate ReadsList(t: PyStr, xs: seq<U16>) {
    if xs == [] then t == []
    else
      var parts := Split('-' as int, t);
      |parts| == |xs| && forall i | 0 <= i < |xs| :: ReadsNumber(parts[i], xs[i])
  }

  lemma {:induction false} NumberReads(n: nat)
    ensures ReadsNumber(Dec(n), n)
  {
    DecimalRoundTrip(n);
    var w: G.Whole := Decimal(n);
    assert Dec(n) == Py(w) && DecimalValue(w) == n;
  }

  lemma {:induction false} NumbersRead(xs: seq<U16>)
    ensures ReadsList(Dashed(xs), xs)
  {
    hide ReadsNumber, Dec, Split, Join;
    if xs == [] {
      NoDashes();
    } else {
      DecAllPlain(xs);
      SplitJoin(DASH, DecAll(xs));
      forall i | 0 <= i < |xs| ensures ReadsNumber(DecAll(xs)[i], xs[i]) {
        NumberReads(xs[i]);
      }
    }
  }

  lemma {:induction false} NoDashes()
    ensures Dashed([]) == []
  {}

  // ----- the lists it shows -----

  /** Leaving out reserved values, one by one and in order. */
  lemma {:induction false} NotGreaseMeaning(xs: seq<U16>, n: U16, ys: seq<U16>)
    ensures NotGrease([]) == []
    ensures NotGrease([n]) == if Reserved(n) then [] else [n]
    ensures NotGrease(xs + ys) == NotGrease(xs) + NotGrease(ys)
  {
    hide Grease;
    GreaseIff(n);
    NotGreaseSnoc([], n);
    assert [] + [n] == [n];
    NotGreaseConcat(xs, ys);
  }

  lemma {:induction false} NotGreaseConcat(xs: seq<U16>, ys: seq<U16>)
    ensures NotGrease(xs + ys) == NotGrease(xs) + NotGrease(ys)
  {
    hide Grease;
    if xs == [] {
      assert xs + ys == ys;
    } else {
      assert (xs + ys)[1..] == xs[1..] + ys;
      NotGreaseConcat(xs[1..], ys);
    }
  }

  /** The last extension of a type, if there is one, at place k. */
  predicate LastAt(exts: seq<Extension>, typ: U16, k: nat) {
    k < |exts| && exts[k].typ == typ && forall m | k < m < |exts| :: exts[m].typ != typ
  }

  /** The groups of the last supported_groups extension, the formats of the last ec_point_formats one. */
  lemma {:induction false} ListsMeaning(exts: seq<Extension>, k: nat)
    ensures LastAt(exts, 10, k) ==> Curves(exts) == NotGrease(ParseList(exts[k].body, 2))
    ensures LastAt(exts, 11, k) ==> PointFormats(exts) == ParseList(exts[k].body, 1)
    ensures (forall m | 0 <= m < |exts| :: exts[m].typ != 10) ==> Curves(exts) == []
    ensures (forall m | 0 <= m < |exts| :: exts[m].typ != 11) ==> PointFormats(exts) == []
  {
    hide NotGrease, ParseList;
    if exts != [] {
      var init := exts[..|exts| - 1];
      ListsMeaning(init, k);
      assert LastAt(exts, 10, k) && k < |init| ==> LastAt(init, 10, k);
      assert LastAt(exts, 11, k) && k < |init| ==> LastAt(init, 11, k);
      assert exts[|init|] == exts[|exts| - 1];
    }
  }

  // ----- the string -----

  /**
   * Five parts with commas between: the legacy version, and in the order sent the visible ciphers and
   * extension types, the visible groups and the point formats.
   */
  lemma {:induction false} Ja3Reads(ch: ClientHello)
    ensures var parts := Split(',' as int, Ja3String(ch));
            && |parts| == 5
            && ReadsNumber(parts[0], 256 * ch.legacyMajor + ch.legacyMinor)
            && ReadsList(parts[1], NotGrease(ch.ciphers))
            && ReadsList(parts[2], NotGrease(Types(ch.extensions)))
            && ReadsList(parts[3], Curves(ch.extensions))
            && ReadsList(parts[4], PointFormats(ch.extensions))
  {
    hide ReadsNumber, ReadsList, Split, Join, Dashed, NotGrease, Curves, PointFormats, Dec, Types;
    FieldsPlain(ch);
    SplitJoin(COMMA, Fields(ch));
    NumberReads(LegacyVersion(ch));
    NumbersRead(VisibleCiphers(ch));
    NumbersRead(VisibleExtensions(ch));
    NumbersRead(Curves(ch.extensions));
    NumbersRead(PointFormats(ch.extensions));
  }
}
