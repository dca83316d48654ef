/**
 * The canonical text of a value: among all the texts that show the value's document, the one the printer
 * writes, and what it determines.
 */
module JsonRoundTrip {
  import opened PyText
  import opened Json
  import opened JsonGrammar
  import opened JsonSpelling

  // ----- canonical spellings -----

  /** A unit as `ensure_ascii` spells it. */
  predicate CanonicalUnit(u: Unit) {
    match u
    case Raw(c) => c <= '~'
    case Short(e) => e != '/'
    case Hex(n3, n2, n1, n0) =>
      && !n3.upper && !n2.upper && !n1.upper && !n0.upper
      && !(0x20 <= UnitCode(u) <= 0x7E) && UnitCode(u) !in {0x08, 0x09, 0x0A, 0x0C, 0x0D}
  }

  predicate CanonicalUnits(us: seq<Unit>) {
    forall i | 0 <= i < |us| :: CanonicalUnit(us[i])
  }

  /** No white space anywhere, every unit spelled the one way, and no minus before zero. */
  predicate Canonical(sp: Spelling)
    decreases sp
  {
    match sp
    case Word(_) => true
    case Numeral(minus, whole, frac, exp) => minus && whole == "0" ==> frac.Some? || exp.Some?
    case Literal(us) => CanonicalUnits(us)
    case Listing(pad, items) => (items == [] ==> pad == "") && forall i | 0 <= i < |items| :: CanonicalItem(items[i])
    case Record(pad, ms) =>
      && (ms == [] ==> pad == "")
      && forall i | 0 <= i < |ms| ::
           ms[i].before == ms[i].between == "" && CanonicalUnits(ms[i].key) && CanonicalItem(ms[i].item)
  }

  predicate CanonicalItem(i: Item)
    decreases i
  {
    i.before == i.after == "" && Canonical(i.value)
  }

  // ----- UTF-16 -----

  /** The UTF-16 code units of a string; a lone surrogate is its own. */
  function Utf16(s: PyStr): (r: PyStr)
    ensures forall i | 0 <= i < |r| :: r[i] < 0x1_0000
  {
    if s == [] then []
    else if s[0] < 0x1_0000 then [s[0]] + Utf16(s[1..])
    else [0xD800 + (s[0] - 0x1_0000) / 0x400, 0xDC00 + (s[0] - 0x1_0000) % 0x400] + Utf16(s[1..])
  }

  lemma {:induction false} CombineHalves(c: Code)
    requires c >= 0x1_0000
    ensures var h, l := 0xD800 + (c - 0x1_0000) / 0x400, 0xDC00 + (c - 0x1_0000) % 0x400;
            High(h) && Low(l) && Combine(h, l) == c
  {}

  lemma {:induction false} Utf16Combine(h: Code, l: Code, s: PyStr)
    requires High(h) && Low(l)
    ensures Utf16([Combine(h, l)] + s) == [h, l] + Utf16(s)
  {
    var c := Combine(h, l);
    assert 0xD800 + (c - 0x1_0000) / 0x400 == h && 0xDC00 + (c - 0x1_0000) % 0x400 == l;
    assert ([c] + s)[1..] == s;
  }

  lemma {:induction false} Utf16Two(s: PyStr)
    requires |s| >= 2 && s[0] < 0x1_0000 && s[1] < 0x1_0000
    ensures Utf16(s) == [s[0], s[1]] + Utf16(s[2..])
  {
    assert s[1..][1..] == s[2..];
  }

  lemma {:induction false} Utf16Cons(c: Code, s: PyStr, t: PyStr)
    requires Utf16(s) == Utf16(t)
    ensures Utf16([c] + s) == Utf16([c] + t)
  {
    assert ([c] + s)[1..] == s && ([c] + t)[1..] == t;
  }

  /** Fusing pairs keeps the code units. */
  lemma {:induction false} Utf16Join(s: PyStr)
    ensures Utf16(JoinPairs(s)) == Utf16(s)
    decreases |s|
  {
    hide Combine, Utf16;
    if s == [] {
    } else if |s| >= 2 && High(s[0]) && Low(s[1]) {
      Utf16Join(s[2..]);
      Utf16Combine(s[0], s[1], JoinPairs(s[2..]));
      Utf16Two(s);
    } else {
      Utf16Join(s[1..]);
      Utf16Cons(s[0], JoinPairs(s[1..]), s[1..]);
      assert s == [s[0]] + s[1..];
    }
  }

  /** Fusing the code units of a string is fusing the string. */
  lemma {:induction false} JoinUtf16(s: PyStr)
    ensures JoinPairs(Utf16(s)) == JoinPairs(s)
    decreases |s|
  {
    hide Combine;
    if s == [] {
    } else if s[0] >= 0x1_0000 {
      JoinUtf16(s[1..]);
      CombineHalves(s[0]);
      assert Utf16(s)[2..] == Utf16(s[1..]);
    } else if |s| >= 2 && High(s[0]) && Low(s[1]) {
      JoinUtf16(s[2..]);
      Utf16Two(s);
      assert Utf16(s)[2..] == Utf16(s[2..]);
    } else {
      JoinUtf16(s[1..]);
      assert Utf16(s)[1..] == Utf16(s[1..]);
      if |s| >= 2 { assert Utf16(s)[1] == s[1] || High(Utf16(s)[1]) by { UnitNext(s[1..]); } }
    }
  }

  lemma {:induction false} UnitNext(s: PyStr)
    requires s != []
    ensures Utf16(s) != [] && (Utf16(s)[0] == s[0] || High(Utf16(s)[0]))
  {
    if s[0] >= 0x1_0000 { CombineHalves(s[0]); }
  }

  lemma {:induction false} JoinPairsFree(s: PyStr)
    ensures PairFree(JoinPairs(s))
    decreases |s|
  {
    JoinPairsTwice(s);
    JoinPairsIdentity(JoinPairs(s));
  }

  lemma {:induction false} JoinPairsTwice(s: PyStr)
    ensures JoinPairs(JoinPairs(s)) == JoinPairs(s)
  {
    Utf16Join(s);
    JoinUtf16(s);
    JoinUtf16(JoinPairs(s));
  }

  /** Fused text: the one string of the same UTF-16 form in which no surrogate pair is left. */
  lemma {:induction false} JoinPairsIff(s: PyStr, r: PyStr)
    ensures r == JoinPairs(s) <==> PairFree(r) && Utf16(r) == Utf16(s)
  {
    hide PairFree, Utf16;
    JoinPairsFree(s);
    Utf16Join(s);
    JoinPairsIdentity(r);
    JoinUtf16(r);
    JoinUtf16(s);
  }

  /** A literal has no surrogates at all. */
  lemma {:induction false} LiteralKept(s: string)
    ensures JoinPairs(Py(s)) == Py(s)
  {
    forall i | 0 <= i < |Py(s)| - 1 ensures !High(Py(s)[i]) {
      assert Py(s)[i] == s[i] as int;
    }
    JoinPairsIdentity(Py(s));
  }

  // ----- canonical string literals -----

  function LowerNibble(q: Quad): Nibble { Nibble(q, false) }

  /** How a code unit is spelled. */
  function UnitOf(c: Code): (u: Unit)
    requires c < 0x1_0000
    ensures UnitCode(u) == c && CanonicalUnit(u)
  {
    if c == 0x22 then Short('"') else if c == 0x5C then Short('\\')
    else if c == 0x0A then Short('n') else if c == 0x0D then Short('r') else if c == 0x09 then Short('t')
    else if c == 0x0C then Short('f') else if c == 0x08 then Short('b')
    else if 0x20 <= c <= 0x7E then Raw(c as char)
    else
      var q := c / 16;
      var r := q / 16;
      Hex(LowerNibble(r / 16), LowerNibble(r % 16), LowerNibble(q % 16), LowerNibble(c % 16))
  }

  lemma {:induction false} UnitOfUnique(u: Unit)
    requires CanonicalUnit(u)
    ensures UnitCode(u) < 0x1_0000 && u == UnitOf(UnitCode(u))
  {
    match u
    case Hex(n3, n2, n1, n0) =>
      var c := UnitCode(u);
      assert c / 16 == 0x100 * n3.value + 0x10 * n2.value + n1.value && c % 16 == n0.value;
      assert c / 16 / 16 == 0x10 * n3.value + n2.value && c / 16 % 16 == n1.value;
    case _ =>
  }

  function UnitsOf(cs: PyStr): (us: seq<Unit>)
    requires forall i | 0 <= i < |cs| :: cs[i] < 0x1_0000
    ensures |us| == |cs| && CanonicalUnits(us) && Codes(us) == cs
  {
    seq(|cs|, i requires 0 <= i < |cs| => UnitOf(cs[i]))
  }

  lemma {:induction false} UnitsOfUnique(us: seq<Unit>)
    requires CanonicalUnits(us)
    ensures Utf16(JoinPairs(Codes(us))) == Codes(us)
    ensures us == UnitsOf(Codes(us))
  {
    hide UnitCode, UnitOf, CanonicalUnit;
    forall i | 0 <= i < |us| ensures UnitCode(us[i]) < 0x1_0000 && us[i] == UnitOf(UnitCode(us[i])) {
      assert CanonicalUnit(us[i]);
      UnitOfUnique(us[i]);
    }
    Utf16Join(Codes(us));
    Utf16Units(Codes(us));
  }

  lemma {:induction false} Utf16Units(cs: PyStr)
    requires forall i | 0 <= i < |cs| :: cs[i] < 0x1_0000
    ensures Utf16(cs) == cs
  {
    if cs != [] {
      Utf16Units(cs[1..]);
      assert cs == [cs[0]] + cs[1..];
    }
  }

  /** Two canonical literals of one string are the same. */
  lemma {:induction false} SameUnits(us: seq<Unit>, vs: seq<Unit>)
    requires CanonicalUnits(us) && CanonicalUnits(vs) && JoinPairs(Codes(us)) == JoinPairs(Codes(vs))
    ensures us == vs
  {
    UnitsOfUnique(us);
    UnitsOfUnique(vs);
  }

  lemma {:induction false} HexSpelled(c: Code)
    requires c < 0x1_0000 && NeedsUnicode(c)
    ensures UnitText(UnitOf(c)) == U4(c)
  {}

  lemma {:induction false} UnitSpelled(c: Code)
    requires c < 0x1_0000
    ensures UnitText(UnitOf(c)) == EscapeCode(c)
  {
    hide HexText, Hex4;
    if NeedsUnicode(c) { HexSpelled(c); }
  }

  lemma {:induction false} UnitsCons(c: Code, cs: PyStr)
    requires c < 0x1_0000 && forall i | 0 <= i < |cs| :: cs[i] < 0x1_0000
    ensures UnitsText(UnitsOf([c] + cs)) == EscapeCode(c) + UnitsText(UnitsOf(cs))
  {
    hide UnitOf, UnitText, EscapeCode;
    UnitSpelled(c);
    assert UnitsOf([c] + cs) == [UnitOf(c)] + UnitsOf(cs);
  }

  lemma {:induction false} EscapeHalves(c: Code)
    requires c >= 0x1_0000
    ensures var h, l := 0xD800 + (c - 0x1_0000) / 0x400, 0xDC00 + (c - 0x1_0000) % 0x400;
            EscapeCode(c) == EscapeCode(h) + EscapeCode(l)
  {
    hide Hex4;
  }

  lemma {:induction false} EscapeSpelled(s: PyStr)
    ensures Escape(s) == UnitsText(UnitsOf(Utf16(s)))
  {
    hide EscapeCode, UnitsOf, UnitsText;
    if s == [] {
      NoUnitsOf();
    } else {
      EscapeSpelled(s[1..]);
      var rest := Utf16(s[1..]);
      if s[0] < 0x1_0000 {
        UnitsCons(s[0], rest);
      } else {
        HalvesSpelled(s[0], rest);
      }
    }
  }

  lemma {:induction false} HalvesSpelled(c: Code, rest: PyStr)
    requires c >= 0x1_0000 && forall i | 0 <= i < |rest| :: rest[i] < 0x1_0000
    ensures var h, l := 0xD800 + (c - 0x1_0000) / 0x400, 0xDC00 + (c - 0x1_0000) % 0x400;
            UnitsText(UnitsOf([h, l] + rest)) == EscapeCode(c) + UnitsText(UnitsOf(rest))
  {
    hide EscapeCode, UnitsOf, UnitsText;
    var h, l := 0xD800 + (c - 0x1_0000) / 0x400, 0xDC00 + (c - 0x1_0000) % 0x400;
    EscapeHalves(c);
    assert [h, l] + rest == [h] + ([l] + rest);
    UnitsCons(h, [l] + rest);
    UnitsCons(l, rest);
    Regroup(EscapeCode(h), EscapeCode(l), UnitsText(UnitsOf(rest)));
  }

  lemma {:induction false} NoUnitsOf()
    ensures UnitsText(UnitsOf([])) == ""
  {}

  // ----- canonical integers -----

  lemma {:induction false} DecimalOfValue(d: Digits)
    requires d[0] == '0' ==> |d| == 1
    ensures Decimal(DecimalValue(d)) == d && (DecimalValue(d) == 0 <==> d == "0")
  {
    hide Decimal, DecimalValue;
    var n := |d| - 1;
    if n == 0 {
      assert d == [d[0]];
      OneDigit(d[0]);
    } else {
      var init: Digits := d[..n];
      assert init[0] == d[0];
      DecimalOfValue(init);
      assert d == init + [d[n]];
      DecimalMore(DecimalValue(init), d[n]);
      LastDigit(init, d[n]);
    }
  }

  lemma {:induction false} OneDigit(c: char)
    requires IsDigit(c)
    ensures DecimalValue([c]) == DigitValue(c) && Decimal(DigitValue(c)) == [c]
  {
    assert [c][..0] == [];
  }

  lemma {:induction false} LastDigit(s: string, c: char)
    requires (forall x <- s :: IsDigit(x)) && IsDigit(c)
    ensures DecimalValue(s + [c]) == 10 * DecimalValue(s) + DigitValue(c)
  {
    assert (s + [c])[..|s|] == s;
  }

  lemma {:induction false} DecimalMore(m: nat, c: char)
    requires m > 0 && IsDigit(c)
    ensures Decimal(10 * m + DigitValue(c)) == Decimal(m) + [c]
  {
    var n := 10 * m + DigitValue(c);
    assert n / 10 == m && n % 10 == DigitValue(c);
  }

  lemma {:induction false} IntegerSpelled(n: int) returns (sp: Spelling)
    ensures Canonical(sp) && Text(sp) == IntText(n) && Meaning(sp) == IntDoc(n)
  {
    hide Decimal, DecimalValue;
    var whole := Decimal(if n < 0 then -n else n);
    DecimalRoundTrip(if n < 0 then -n else n);
    sp := Numeral(n < 0, whole, None, None);
    IntegerText(sp);
    DecimalOfValue(whole);
  }

  lemma {:induction false} IntegerUnique(sp: Spelling)
    requires Canonical(sp) && Meaning(sp).IntDoc?
    ensures Text(sp) == IntText(Meaning(sp).n)
  {
    hide Decimal, DecimalValue;
    IntegerText(sp);
    DecimalOfValue(sp.whole);
  }

  // ----- values -----

  /** The document a value prints as: sorted members, surrogate pairs fused in every string and key. */
  function DocOf(v: Json): Doc
    decreases v
  {
    match v
    case Null => NullDoc
    case Bool(b) => BoolDoc(b)
    case Int(n) => IntDoc(n)
    case Float(t) => FloatDoc(t)
    case Str(s) => StrDoc(JoinPairs(s))
    case Arr(items) => ArrDoc(DocsOf(items))
    case Obj(m) => ObjDoc(MemberDocs(v, SortedKeys(m.Keys)))
  }

  function DocsOf(items: seq<Json>): (r: seq<Doc>)
    ensures |r| == |items|
    decreases items
  {
    if items == [] then [] else [DocOf(items[0])] + DocsOf(items[1..])
  }

  function MemberDocs(v: Json, keys: seq<PyStr>): (r: seq<(PyStr, Doc)>)
    requires v.Obj? && forall k <- keys :: k in v.members
    ensures |r| == |keys|
    decreases v, |keys|
  {
    if keys == [] then [] else [(JoinPairs(keys[0]), DocOf(v.members[keys[0]]))] + MemberDocs(v, keys[1..])
  }

  lemma {:induction false} FloatSpelled(t: FloatText) returns (sp: Spelling)
    ensures Canonical(sp) && Text(sp) == t && Meaning(sp) == FloatDoc(t)
  {
    hide NumeralEnd;
    if t in {NAN, INFINITY, MINUS_INFINITY} {
      sp := Word(t);
    } else {
      sp := SpelledFloat(t);
      assert t[..|t|] == t;
      FloatIsCanonical(sp);
    }
  }

  lemma {:induction false} FloatIsCanonical(sp: Spelling)
    requires sp.Numeral? && Meaning(sp).FloatDoc?
    ensures Canonical(sp)
  {}

  /** The canonical text is a canonical spelling of the value's document. */
  lemma {:induction false} PrintSpelled(v: Json) returns (sp: Spelling)
    ensures Canonical(sp) && Text(sp) == Print(v) && Meaning(sp) == DocOf(v)
    decreases v, 1
  {
    hide IntText, Escape, Utf16, JoinPairs, PrintItems, PrintMembers, DocsOf, MemberDocs, ItemsText, MembersText;
    match v
    case Null => sp := Word("null");
    case Bool(b) => sp := Word(if b then "true" else "false");
    case Int(n) => sp := IntegerSpelled(n);
    case Float(t) => sp := FloatSpelled(t);
    case Str(s) =>
      sp := Literal(UnitsOf(Utf16(s)));
      EscapeSpelled(s);
      JoinUtf16(s);
    case Arr(items) =>
      var its := ItemsSpelled(items);
      sp := Listing("", its);
      NothingSpelled();
    case Obj(m) =>
      var ms := MembersSpelled(v, SortedKeys(m.Keys));
      sp := Record("", ms);
      NothingSpelled();
  }

  lemma {:induction false} NothingSpelled()
    ensures ItemsText([]) == "" && MembersText([]) == ""
  {}

  lemma {:induction false} ItemsSpelled(items: seq<Json>) returns (its: seq<Item>)
    ensures forall i | 0 <= i < |its| :: CanonicalItem(its[i])
    ensures ItemsText(its) == PrintItems(items) && ItemDocs(its) == DocsOf(items)
    decreases items
  {
    hide Text, Print, DocOf, Meaning, Canonical;
    if items == [] {
      its := [];
    } else {
      var sp := PrintSpelled(items[0]);
      var more := ItemsSpelled(items[1..]);
      its := [Item("", sp, "")] + more;
      BareItem(sp);
      OneItem(its[0]);
      if more != [] { ConsItem(its[0], more); }
      assert |its| == |items|;
    }
  }

  lemma {:induction false} BareItem(sp: Spelling)
    ensures ItemText(Item("", sp, "")) == Text(sp)
  {
    hide Text;
  }

  lemma {:induction false} MembersSpelled(v: Json, keys: seq<PyStr>) returns (ms: seq<Member>)
    requires v.Obj? && forall k <- keys :: k in v.members
    ensures Canonical(Record("", ms))
    ensures MembersText(ms) == PrintMembers(v, keys) && RecordDocs(ms) == MemberDocs(v, keys)
    decreases v, 0, |keys|
  {
    hide Text, Print, DocOf, Meaning, JoinPairs, Escape, UnitsText, Utf16, Canonical, UnitsOf;
    if keys == [] {
      ms := [];
      assert Canonical(Record("", [])) by { NothingCanonical(); }
    } else {
      var k := keys[0];
      var sp := PrintSpelled(v.members[k]);
      var more := MembersSpelled(v, keys[1..]);
      var first := Member("", UnitsOf(Utf16(k)), "", Item("", sp, ""));
      ms := [first] + more;
      EscapeSpelled(k);
      JoinUtf16(k);
      BareMember(first);
      ConsCanonical(first, more);
      OneMember(first);
      if more != [] { ConsMember(first, more); }
      assert |ms| == |keys|;
    }
  }

  lemma {:induction false} NothingCanonical()
    ensures Canonical(Record("", []))
  {}

  lemma {:induction false} ConsCanonical(m: Member, ms: seq<Member>)
    ensures Canonical(Record("", [m] + ms))
            <==> && m.before == m.between == "" && CanonicalUnits(m.key) && CanonicalItem(m.item)
                 && Canonical(Record("", ms))
  {
    hide CanonicalUnits, CanonicalItem;
    var all := [m] + ms;
    if Canonical(Record("", all)) {
      assert all[0] == m;
      forall i | 0 <= i < |ms|
        ensures ms[i].before == ms[i].between == "" && CanonicalUnits(ms[i].key) && CanonicalItem(ms[i].item)
      {
        assert all[i + 1] == ms[i];
      }
    }
  }

  lemma {:induction false} BareMember(m: Member)
    requires m.before == m.between == m.item.before == m.item.after == ""
    ensures MemberText(m) == "\"" + UnitsText(m.key) + "\"" + ":" + Text(m.item.value)
  {
    hide Text, UnitsText;
    BareItem(m.item.value);
  }

  // ----- one document has one canonical text -----

  lemma {:induction false} FloatUnique(sp: Spelling)
    requires Meaning(sp).FloatDoc?
    ensures Text(sp) == Meaning(sp).literal
  {}

  lemma {:induction false} CanonicalUnique(a: Spelling, b: Spelling)
    requires Canonical(a) && Canonical(b) && Meaning(a) == Meaning(b)
    ensures Text(a) == Text(b)
    decreases a, 1
  {
    hide JoinPairs, UnitsText, ItemsText, MembersText, ItemDocs, RecordDocs, IntText;
    match Meaning(a)
    case FloatDoc(_) =>
      FloatUnique(a);
      FloatUnique(b);
    case IntDoc(_) =>
      IntegerUnique(a);
      IntegerUnique(b);
    case StrDoc(_) => SameUnits(a.units, b.units);
    case ArrDoc(_) => ItemsUnique(a.items, b.items);
    case ObjDoc(_) => MembersUnique(a.members, b.members);
    case _ =>
  }

  lemma {:induction false} ItemsUnique(a: seq<Item>, b: seq<Item>)
    requires forall i | 0 <= i < |a| :: CanonicalItem(a[i])
    requires forall i | 0 <= i < |b| :: CanonicalItem(b[i])
    requires ItemDocs(a) == ItemDocs(b)
    ensures |a| == |b| && ItemsText(a) == ItemsText(b)
    decreases a
  {
    hide Text, Meaning, Canonical;
    if a != [] {
      assert ItemDocs(a)[0] == ItemDocs(b)[0] && ItemDocs(a)[1..] == ItemDocs(b)[1..];
      CanonicalUnique(a[0].value, b[0].value);
      ItemsUnique(a[1..], b[1..]);
    }
  }

  lemma {:induction false} MembersUnique(a: seq<Member>, b: seq<Member>)
    requires Canonical(Record("", a)) && Canonical(Record("", b)) && RecordDocs(a) == RecordDocs(b)
    ensures |a| == |b| && MembersText(a) == MembersText(b)
    decreases a
  {
    hide Text, Meaning, JoinPairs, Canonical, MemberText, UnitsText;
    if a != [] {
      assert a == [a[0]] + a[1..] && b == [b[0]] + b[1..];
      ConsCanonical(a[0], a[1..]);
      ConsCanonical(b[0], b[1..]);
      BareMember(a[0]);
      BareMember(b[0]);
      assert RecordDocs(a)[0] == RecordDocs(b)[0] && RecordDocs(a)[1..] == RecordDocs(b)[1..];
      CanonicalUnique(a[0].item.value, b[0].item.value);
      SameUnits(a[0].key, b[0].key);
      MembersUnique(a[1..], b[1..]);
    }
  }

  /** Of all texts, the printer writes the one canonical spelling of the value's document. */
  lemma {:induction false} PrintIff(v: Json, t: string)
    ensures t == Print(v) <==> exists sp :: Canonical(sp) && Text(sp) == t && Meaning(sp) == DocOf(v)
  {
    hide Print, Canonical, Text, Meaning, DocOf;
    var c := PrintSpelled(v);
    if sp :| Canonical(sp) && Text(sp) == t && Meaning(sp) == DocOf(v) {
      CanonicalUnique(sp, c);
    }
  }

  // ----- reading back -----

  /**
   * The value that comes back: pairs fused in strings and keys, the last of two keys that fuse alike
   * kept, floats as they read. */
  function Fused(fl: FloatReader, v: Json): Json { ValueOf(fl, DocOf(v)) }

  /** The document that comes back, for every value. */
  lemma {:induction false} ParsePrintDoc(v: Json)
    ensures ParseDoc(Print(v)) == Some(DocOf(v))
  {
    hide DocOf, Print, Text, Meaning;
    var sp := PrintSpelled(v);
    assert Spells(Print(v), "", sp, "");
    ParseDocIff(Print(v), DocOf(v));
  }

  /** `json.loads(json.dumps(v))`, for every value. */
  lemma {:induction false} ParsePrint(fl: FloatReader, v: Json)
    ensures Parse(fl, Print(v)) == Some(Fused(fl, v))
  {
    hide ParseDoc;
    ParsePrintDoc(v);
  }

  // ----- what the canonical text determines -----

  /** Two values have the same canonical text exactly when it shows the same document. */
  lemma {:induction false} PrintEqualIff(v: Json, w: Json)
    ensures Print(v) == Print(w) <==> DocOf(v) == DocOf(w)
  {
    hide Print, DocOf, ParseDoc, Canonical, Text, Meaning;
    ParsePrintDoc(v);
    ParsePrintDoc(w);
    if DocOf(v) == DocOf(w) {
      var sp := PrintSpelled(v);
      PrintIff(w, Print(v));
    }
  }

  /** The canonical text does not determine the value: these two differ and print alike. */
  lemma {:induction false} PrintNotInjective()
    ensures exists v, w :: v != w && Print(v) == Print(w)
  {
    hide Print, DocOf, JoinPairs;
    var a: PyStr, b: PyStr := [0xD83D, 0xDE00], [0x1_F600];
    TwoSpellings();
    StrDocs(a);
    StrDocs(b);
    PrintEqualIff(Str(a), Str(b));
    assert |a| != |b|;
    assert Str(a) != Str(b) && Print(Str(a)) == Print(Str(b));
  }

  lemma {:induction false} StrDocs(s: PyStr)
    ensures DocOf(Str(s)) == StrDoc(JoinPairs(s))
  {}

  lemma {:induction false} TwoSpellings()
    ensures JoinPairs([0xD83D, 0xDE00]) == JoinPairs([0x1_F600])
  {
    assert JoinPairs([0xD83D, 0xDE00]) == [0x1_F600] + JoinPairs([]);
    assert JoinPairs([0x1_F600]) == [0x1_F600] + JoinPairs([]);
  }
}
