/** Whatever the JSON reader reads is a spelling of what it is read as. */
module JsonSpelling {
  import opened PyText
  import opened Json
  import opened JsonGrammar

  // ----- string literals -----

  lemma {:induction false} SpelledNibble(c: char) returns (n: Nibble)
    requires HexValue(c) >= 0
    ensures NibbleText(n) == c && n.value == HexValue(c)
  {
    n := Nibble(HexValue(c), 'A' <= c <= 'F');
  }

  lemma {:induction false} SpelledHex(s: string) returns (u: Unit)
    requires ReadU4(s).Some?
    ensures u.Hex? && UnitCode(u) == ReadU4(s).value.0 && "\\u" + s == UnitText(u) + ReadU4(s).value.1
  {
    var n3 := SpelledNibble(s[0]);
    var n2 := SpelledNibble(s[1]);
    var n1 := SpelledNibble(s[2]);
    var n0 := SpelledNibble(s[3]);
    hide NibbleText, HexValue;
    u := Hex(n3, n2, n1, n0);
    assert HexText(n3, n2, n1, n0) == s[..4];
    assert s == s[..4] + s[4..];
  }

  lemma {:induction false} UnitFirst(u: Unit, us: seq<Unit>)
    requires !(High(UnitCode(u)) && us != [] && Low(UnitCode(us[0])))
    ensures JoinPairs(Codes([u] + us)) == [UnitCode(u)] + JoinPairs(Codes(us))
    ensures UnitsText([u] + us) == UnitText(u) + UnitsText(us)
  {
    hide UnitCode, UnitText;
    var all := [u] + us;
    assert all[1..] == us && Codes(all)[1..] == Codes(us);
    assert us != [] ==> Codes(all)[1] == UnitCode(us[0]);
  }

  lemma {:induction false} PairFirst(u: Unit, v: Unit, us: seq<Unit>)
    requires High(UnitCode(u)) && Low(UnitCode(v))
    ensures JoinPairs(Codes([u, v] + us)) == [Combine(UnitCode(u), UnitCode(v))] + JoinPairs(Codes(us))
    ensures UnitsText([u, v] + us) == UnitText(u) + (UnitText(v) + UnitsText(us))
  {
    hide UnitCode, UnitText, Combine;
    var all := [u, v] + us;
    TextTwo(all);
    assert all[2..] == us && Codes(all)[2..] == Codes(us);
  }

  /** One unit, then a literal spelled already. */
  lemma {:induction false} ConsUnit(s: string, u: Unit, us: seq<Unit>, tail: string, rest: string)
    requires s == UnitText(u) + tail && tail == UnitsText(us) + ("\"" + rest)
    requires !(High(UnitCode(u)) && us != [] && Low(UnitCode(us[0])))
    ensures s == UnitsText([u] + us) + ("\"" + rest)
    ensures JoinPairs(Codes([u] + us)) == [UnitCode(u)] + JoinPairs(Codes(us))
  {
    hide UnitText, UnitCode;
    UnitFirst(u, us);
    Regroup(UnitText(u), UnitsText(us), "\"" + rest);
  }

  lemma {:induction false} SpelledUnits(s: string) returns (us: seq<Unit>)
    requires ReadString(s).Some?
    ensures var (t, rest) := ReadString(s).value;
            s == UnitsText(us) + ("\"" + rest) && t == JoinPairs(Codes(us))
    decreases |s|, 1
  {
    hide UnitText, UnitsText, ReadUnicode, JoinPairs, ShortEscape;
    if s[0] == '"' {
      us := [];
      NoUnits(s);
    } else if s[0] != '\\' {
      var more := SpelledUnits(s[1..]);
      RawUnit(s);
      us := [Raw(s[0])] + more;
      ConsUnit(s, Raw(s[0]), more, s[1..], ReadString(s).value.1);
    } else if s[1] == 'u' {
      us := SpelledUnicode(s);
    } else {
      var more := SpelledUnits(s[2..]);
      ShortUnit(s);
      us := [Short(s[1])] + more;
      ConsUnit(s, Short(s[1]), more, s[2..], ReadString(s).value.1);
    }
  }

  lemma {:induction false} NoUnits(s: string)
    requires s != [] && s[0] == '"'
    ensures s == UnitsText([]) + ("\"" + s[1..]) && JoinPairs(Codes([])) == []
  {}

  lemma {:induction false} RawUnit(s: string)
    requires s != [] && s[0] >= ' ' && s[0] != '"' && s[0] != '\\'
    ensures s == UnitText(Raw(s[0])) + s[1..] && UnitCode(Raw(s[0])) == s[0] as int && !High(s[0] as int)
  {}

  lemma {:induction false} ShortUnit(s: string)
    requires |s| >= 2 && s[0] == '\\' && ShortEscape(s[1]).Some?
    ensures s[1] in {'"', '\\', '/', 'n', 'r', 't', 'f', 'b'}
    ensures s == UnitText(Short(s[1])) + s[2..] && Some(UnitCode(Short(s[1]))) == ShortEscape(s[1])
    ensures !High(UnitCode(Short(s[1])))
  {}

  lemma {:induction false} SpelledUnicode(s: string) returns (us: seq<Unit>)
    requires |s| >= 2 && s[..2] == "\\u" && ReadString(s).Some?
    ensures var (t, rest) := ReadString(s).value;
            s == UnitsText(us) + ("\"" + rest) && t == JoinPairs(Codes(us))
    decreases |s|, 0
  {
    hide UnitText, UnitCode, UnitsText, JoinPairs, ReadU4, Combine;
    assert s[0] == s[..2][0] && s[1] == s[..2][1] && s == "\\u" + s[2..];
    var u := SpelledHex(s[2..]);
    var (c, tail) := ReadUnicode(s[2..]).value;
    var more := SpelledUnits(tail);
    var rest := ReadString(s).value.1;
    var t := ReadU4(s[2..]).value.1;
    if t == tail && c == UnitCode(u) {
      if High(c) && more != [] && Low(UnitCode(more[0])) { LowFirst(more, tail, rest); }
      us := [u] + more;
      ConsUnit(s, u, more, tail, rest);
    } else {
      assert t == "\\u" + t[2..];
      var v := SpelledHex(t[2..]);
      us := [u, v] + more;
      PairFirst(u, v, more);
      Regroup(UnitText(u), UnitText(v) + UnitsText(more), "\"" + rest);
      Regroup(UnitText(v), UnitsText(more), "\"" + rest);
    }
  }

  /** A literal that starts with a low surrogate is spelled with that surrogate's escape. */
  lemma {:induction false} LowFirst(us: seq<Unit>, s: string, rest: string)
    requires s == UnitsText(us) + ("\"" + rest) && us != [] && Low(UnitCode(us[0]))
    ensures |s| >= 2 && s[0] == '\\' && s[1] == 'u' && ReadU4(s[2..]).Some? && Low(ReadU4(s[2..]).value.0)
  {
    hide UnitCode, UnitText, ReadU4;
    SurrogateIsHex(us[0]);
    var tail := UnitsText(us[1..]) + ("\"" + rest);
    ReadHex(us[0], tail);
    Regroup(UnitText(us[0]), UnitsText(us[1..]), "\"" + rest);
    assert UnitText(us[0])[..2][0] == '\\' && UnitText(us[0])[..2][1] == 'u';
  }

  // ----- numbers -----

  lemma {:induction false} RunIsDigits(s: string)
    ensures forall c <- s[..DigitRun(s)] :: IsDigit(c)
  {}

  lemma {:induction false} SpelledWhole(s: string) returns (whole: Whole)
    requires IntEnd(s) > 0
    ensures s[..IntEnd(s)] == (if s[0] == '-' then "-" else "") + whole
  {
    hide DigitRun;
    var n, sign := IntEnd(s), if s[0] == '-' then 1 else 0;
    RunIsDigits(s[sign..]);
    assert forall i | sign <= i < n :: s[i] == s[sign..][i - sign];
    assert s[sign..n] == s[sign..][..n - sign];
    whole := s[sign..n];
    assert s[..n] == s[..sign] + s[sign..n];
  }

  lemma {:induction false} SpelledFrac(s: string) returns (f: Option<Digits>)
    ensures FracText(f) == s[..FracEnd(s)] && (f.Some? <==> FracEnd(s) > 0)
  {
    hide DigitRun;
    var n := FracEnd(s);
    if n == 0 {
      f := None;
    } else {
      RunIsDigits(s[1..]);
      assert s[1..n] == s[1..][..n - 1];
      f := Some(s[1..n]);
      assert s[..n] == "." + s[1..n];
    }
  }

  lemma {:induction false} SpelledPower(s: string) returns (e: Option<Power>)
    ensures PowerText(e) == s[..ExpEnd(s)] && (e.Some? <==> ExpEnd(s) > 0)
  {
    hide DigitRun;
    var n := ExpEnd(s);
    if n == 0 {
      e := None;
    } else {
      var sign := if |s| >= 2 && s[1] in {'+', '-'} then 2 else 1;
      RunIsDigits(s[sign..]);
      assert s[sign..n] == s[sign..][..n - sign];
      assert s[1..sign] == if sign == 2 then [s[1]] else "";
      e := Some(Exponent(s[0], s[1..sign], s[sign..n]));
      assert s[..n] == [s[0]] + s[1..sign] + s[sign..n];
    }
  }

  lemma {:induction false} SpelledFloat(s: string) returns (sp: Spelling)
    requires NumeralEnd(s).1
    ensures sp.Numeral? && Text(sp) == s[..NumeralEnd(s).0] && Meaning(sp) == FloatDoc(Text(sp))
  {
    hide IntEnd, FracEnd, ExpEnd, FracText, PowerText;
    var n := IntEnd(s);
    var whole := SpelledWhole(s);
    var frac := SpelledFrac(s[n..]);
    var f := FracEnd(s[n..]);
    var power := SpelledPower(s[n + f..]);
    var e := ExpEnd(s[n + f..]);
    sp := Numeral(s[0] == '-', whole, frac, power);
    assert s[..n + f + e] == s[..n] + (s[n..][..f] + s[n + f..][..e]);
  }

  lemma {:induction false} SpelledNat(s: string) returns (whole: Whole)
    requires ReadNat(s).Some?
    ensures s == whole + ReadNat(s).value.1 && ReadNat(s).value.0 == DecimalValue(whole)
  {
    hide DigitRun, DecimalValue;
    RunIsDigits(s);
    var n := if s != [] && s[0] == '0' then 1 else DigitRun(s);
    assert s[0] == '0' ==> s[..1] == "0";
    whole := s[..n];
    assert s == s[..n] + s[n..];
  }

  // ----- values -----

  lemma {:induction false} SpelledBlanks(s: string) returns (w: Blanks)
    ensures s == w + SkipWs(s) && (SkipWs(s) == [] || !IsWs(SkipWs(s)[0]))
  {
    if s != [] && IsWs(s[0]) {
      var more := SpelledBlanks(s[1..]);
      w := [s[0]] + more;
    } else {
      w := "";
    }
  }

  lemma {:induction false} SpelledLeaf(s: string) returns (sp: Spelling)
    requires ReadValue(s).Some? && s[0] !in {'"', '{', '['}
    ensures var (d, rest) := ReadValue(s).value; s == Text(sp) + rest && d == Meaning(sp)
  {
    hide NumeralEnd, ReadNat, ReadValue, Text, Meaning;
    if !(MINUS_INFINITY <= s) && NumeralEnd(s).1 {
      sp := SpelledFloat(s);
      FloatStep(s);
      assert s == s[..NumeralEnd(s).0] + s[NumeralEnd(s).0..];
    } else if !(MINUS_INFINITY <= s) && (s[0] == '-' || IsDigit(s[0])) {
      sp := SpelledInteger(s);
    } else {
      var w := WordStep(s);
      sp := SpelledWord(w, s);
    }
  }

  lemma {:induction false} FloatStep(s: string)
    requires ReadValue(s).Some? && s[0] !in {'"', '{', '['} && !(MINUS_INFINITY <= s) && NumeralEnd(s).1
    ensures ReadValue(s) == Some((FloatDoc(s[..NumeralEnd(s).0]), s[NumeralEnd(s).0..]))
  {
    hide NumeralEnd;
  }

  lemma {:induction false} WordStep(s: string) returns (w: Constant)
    requires ReadValue(s).Some? && s[0] !in {'"', '{', '['}
    requires MINUS_INFINITY <= s || (!NumeralEnd(s).1 && s[0] != '-' && !IsDigit(s[0]))
    ensures w <= s && ReadValue(s) == Some((Meaning(Word(w)), s[|w|..]))
  {
    hide NumeralEnd, ReadNat;
    if MINUS_INFINITY <= s {
      w := MINUS_INFINITY;
    } else if NAN <= s {
      w := NAN;
    } else if INFINITY <= s {
      w := INFINITY;
    } else if "null" <= s {
      w := "null";
    } else if "true" <= s {
      w := "true";
    } else {
      w := "false";
    }
  }

  lemma {:induction false} SpelledInteger(s: string) returns (sp: Spelling)
    requires ReadValue(s).Some? && !(MINUS_INFINITY <= s) && !NumeralEnd(s).1 && (s[0] == '-' || IsDigit(s[0]))
    ensures var (d, rest) := ReadValue(s).value; s == Text(sp) + rest && d == Meaning(sp)
  {
    hide NumeralEnd, ReadNat, ReadValue, Text, Meaning, DecimalValue;
    IntegerStep(s);
    var whole := SpelledNat(if s[0] == '-' then s[1..] else s);
    sp := Numeral(s[0] == '-', whole, None, None);
    IntegerText(sp);
    IntegerMeaning(sp);
    if s[0] == '-' { Regroup("-", whole, ReadValue(s).value.1); }
  }

  lemma {:induction false} IntegerMeaning(sp: Spelling)
    requires sp.Numeral? && sp.frac.None? && sp.exp.None?
    ensures Meaning(sp) == IntDoc(if sp.minus then 0 - DecimalValue(sp.whole) else DecimalValue(sp.whole))
  {}

  lemma {:induction false} IntegerStep(s: string)
    requires ReadValue(s).Some? && !(MINUS_INFINITY <= s) && !NumeralEnd(s).1 && (s[0] == '-' || IsDigit(s[0]))
    ensures var r := ReadNat(if s[0] == '-' then s[1..] else s);
            r.Some? && ReadValue(s) == Some((IntDoc(if s[0] == '-' then 0 - r.value.0 else r.value.0), r.value.1))
  {
    hide NumeralEnd, ReadNat;
  }

  lemma {:induction false} SpelledWord(w: Constant, s: string) returns (sp: Spelling)
    requires w <= s
    ensures sp == Word(w) && s == Text(sp) + s[|w|..]
  {
    sp := Word(w);
  }

  lemma {:induction false} SpelledValue(s: string) returns (sp: Spelling)
    requires ReadValue(s).Some?
    ensures var (d, rest) := ReadValue(s).value; s == Text(sp) + rest && d == Meaning(sp)
    decreases |s|, 2
  {
    hide ReadString, ReadMembers, ReadItems, JoinPairs, UnitsText, ItemsText, MembersText, SkipWs, NumeralEnd, ReadNat;
    if s[0] == '"' {
      var us := SpelledUnits(s[1..]);
      sp := Literal(us);
      assert s == "\"" + s[1..];
      Regroup("\"" + UnitsText(us), "\"", ReadString(s[1..]).value.1);
      Regroup("\"", UnitsText(us), "\"" + ReadString(s[1..]).value.1);
    } else if s[0] == '{' {
      sp := SpelledRecord(s);
    } else if s[0] == '[' {
      sp := SpelledListing(s);
    } else {
      sp := SpelledLeaf(s);
    }
  }

  lemma {:induction false} SpelledListing(s: string) returns (sp: Spelling)
    requires ReadValue(s).Some? && s[0] == '['
    ensures var (d, rest) := ReadValue(s).value; s == Text(sp) + rest && d == Meaning(sp)
    decreases |s|, 1
  {
    hide ReadItems, SkipWs, ReadValue, ItemDocs, ItemsText;
    var pad := SpelledBlanks(s[1..]);
    var t, rest := SkipWs(s[1..]), ReadValue(s).value.1;
    assert s == "[" + s[1..];
    StepArr(s[1..]);
    if t != [] && t[0] == ']' {
      sp := Listing(pad, []);
      NoDocs();
      assert t == "]" + t[1..];
    } else {
      var items := SpelledItems(t, []);
      var padded := [PadItem(pad, items[0])] + items[1..];
      sp := Listing("", padded);
      Padded(pad, items);
      ListingText(padded, rest);
      Regroup(pad, ItemsText(items), "]" + rest);
      assert [] + ItemDocs(items) == ItemDocs(items);
    }
  }

  lemma {:induction false} ListingText(items: seq<Item>, rest: string)
    requires items != []
    ensures Text(Listing("", items)) + rest == "[" + (ItemsText(items) + ("]" + rest))
  {
    Regroup("[" + ItemsText(items), "]", rest);
    Regroup("[", ItemsText(items), "]" + rest);
  }

  function PadItem(pad: Blanks, i: Item): Item {
    i.(before := pad + i.before)
  }

  lemma {:induction false} Padded(pad: Blanks, items: seq<Item>)
    requires items != []
    ensures var r := [PadItem(pad, items[0])] + items[1..];
            ItemsText(r) == pad + ItemsText(items) && ItemDocs(r) == ItemDocs(items)
  {
    hide Text, Meaning;
  }

  lemma {:induction false} SpelledItems(s: string, done: seq<Doc>) returns (items: seq<Item>)
    requires ReadItems(s, done).Some?
    ensures items != []
    ensures var (d, rest) := ReadItems(s, done).value;
            s == ItemsText(items) + ("]" + rest) && d == ArrDoc(done + ItemDocs(items))
    decreases |s|, 3
  {
    hide ReadItems, ReadValue, SkipWs, Text, Meaning, ItemsText, ItemDocs, ItemText;
    ItemsStep(s, done);
    var sp := SpelledValue(s);
    var (v, t) := ReadValue(s).value;
    var after := SpelledBlanks(t);
    var t1, rest := SkipWs(t), ReadItems(s, done).value.1;
    var first := Item("", sp, after);
    assert s == ItemText(first) + t1 by { FirstSpelled(sp, after, t1); }
    if t1[0] == ']' {
      items := [first];
      OneItem(first);
      assert t1 == "]" + rest;
    } else {
      var pad := SpelledBlanks(t1[1..]);
      var later := SpelledItems(SkipWs(t1[1..]), done + [v]);
      items := ConsPadded(first, pad, later, "]" + rest);
      assert t1 == "," + t1[1..];
      assert done + [v] + ItemDocs(later) == done + ItemDocs(items);
    }
  }

  /** What reading the items does with the first one. */
  lemma {:induction false} ItemsStep(s: string, done: seq<Doc>)
    requires ReadItems(s, done).Some?
    ensures ReadValue(s).Some?
    ensures var (v, t) := ReadValue(s).value;
            var t1 := SkipWs(t);
            && |t1| < |s| && t1 != [] && t1[0] in {']', ','}
            && ReadItems(s, done)
               == if t1[0] == ']' then Some((ArrDoc(done + [v]), t1[1..])) else ReadItems(SkipWs(t1[1..]), done + [v])
  {
    hide ReadValue;
  }

  lemma {:induction false} FirstSpelled(sp: Spelling, after: Blanks, rest: string)
    ensures Text(sp) + (after + rest) == ItemText(Item("", sp, after)) + rest
  {
    hide Text;
    assert "" + Text(sp) + after == Text(sp) + after;
  }

  lemma {:induction false} ConsPadded(i: Item, pad: Blanks, later: seq<Item>, close: string) returns (items: seq<Item>)
    requires later != []
    ensures items != [] && ItemDocs(items) == [Meaning(i.value)] + ItemDocs(later)
    ensures ItemsText(items) + close == ItemText(i) + ("," + (pad + (ItemsText(later) + close)))
  {
    hide ItemsText, ItemDocs, ItemText, Meaning;
    var padded := [PadItem(pad, later[0])] + later[1..];
    items := [i] + padded;
    Padded(pad, later);
    ConsItem(i, padded);
    Regroup(pad, ItemsText(later), close);
    Regroup(",", pad + ItemsText(later), close);
    Regroup(ItemText(i), "," + (pad + ItemsText(later)), close);
  }

  lemma {:induction false} OneItem(i: Item)
    ensures ItemsText([i]) == ItemText(i) && ItemDocs([i]) == [Meaning(i.value)]
  {
    hide Text, Meaning;
  }

  lemma {:induction false} ConsItem(i: Item, items: seq<Item>)
    requires items != []
    ensures ItemsText([i] + items) == ItemText(i) + ("," + ItemsText(items))
    ensures ItemDocs([i] + items) == [Meaning(i.value)] + ItemDocs(items)
  {
    hide Text, Meaning;
    assert ([i] + items)[1..] == items;
  }

  lemma {:induction false} SpelledRecord(s: string) returns (sp: Spelling)
    requires ReadValue(s).Some? && s[0] == '{'
    ensures var (d, rest) := ReadValue(s).value; s == Text(sp) + rest && d == Meaning(sp)
    decreases |s|, 1
  {
    hide ReadMembers, SkipWs, ReadValue, RecordDocs, MembersText;
    var pad := SpelledBlanks(s[1..]);
    var t, rest := SkipWs(s[1..]), ReadValue(s).value.1;
    assert s == "{" + s[1..];
    StepObj(s[1..]);
    if t != [] && t[0] == '}' {
      sp := Record(pad, []);
      NoDocs();
      assert t == "}" + t[1..];
    } else {
      var ms := SpelledMembers(t, []);
      var padded := [PadMember(pad, ms[0])] + ms[1..];
      sp := Record("", padded);
      PaddedMembers(pad, ms);
      RecordText(padded, rest);
      Regroup(pad, MembersText(ms), "}" + rest);
      assert [] + RecordDocs(ms) == RecordDocs(ms);
    }
  }

  lemma {:induction false} RecordText(ms: seq<Member>, rest: string)
    requires ms != []
    ensures Text(Record("", ms)) + rest == "{" + (MembersText(ms) + ("}" + rest))
  {
    Regroup("{" + MembersText(ms), "}", rest);
    Regroup("{", MembersText(ms), "}" + rest);
  }

  function PadMember(pad: Blanks, m: Member): Member {
    m.(before := pad + m.before)
  }

  lemma {:induction false} PaddedMembers(pad: Blanks, ms: seq<Member>)
    requires ms != []
    ensures var r := [PadMember(pad, ms[0])] + ms[1..];
            MembersText(r) == pad + MembersText(ms) && RecordDocs(r) == RecordDocs(ms)
  {
    hide Text, Meaning, UnitsText, JoinPairs, MemberText;
    PaddedMember(pad, ms[0]);
  }

  lemma {:induction false} PaddedMember(pad: Blanks, m: Member)
    ensures MemberText(PadMember(pad, m)) == pad + MemberText(m)
  {
    hide Text, UnitsText, ItemText;
    var k, i := UnitsText(m.key), ItemText(m.item);
    assert (pad + m.before) + "\"" + k + "\"" + m.between + ":" + i
        == pad + (m.before + "\"" + k + "\"" + m.between + ":" + i);
  }

  lemma {:induction false} SpelledMembers(s: string, done: seq<(PyStr, Doc)>) returns (ms: seq<Member>)
    requires ReadMembers(s, done).Some?
    ensures ms != []
    ensures var (d, rest) := ReadMembers(s, done).value;
            s == MembersText(ms) + ("}" + rest) && d == ObjDoc(done + RecordDocs(ms))
    decreases |s|, 1
  {
    hide ReadValue, SkipWs, Text, Meaning, MembersText, RecordDocs, UnitsText, JoinPairs, ReadString, MemberText;
    var (key, t) := ReadString(s[1..]).value;
    var t1 := SkipWs(t);
    var s1 := SkipWs(t1[1..]);
    var (v, t2) := ReadValue(s1).value;
    var t3, rest := SkipWs(t2), ReadMembers(s, done).value.1;
    var sp := SpelledValue(s1);
    var first := SpelledFirst(s, sp);
    if t3[0] == '}' {
      ms := [first];
      OneMember(first);
      assert t3 == "}" + rest;
    } else {
      var pad := SpelledBlanks(t3[1..]);
      var later := SpelledMembers(SkipWs(t3[1..]), done + [(key, v)]);
      ms := ConsPaddedMember(first, pad, later, "}" + rest);
      assert t3 == "," + t3[1..];
      assert done + [(key, v)] + RecordDocs(later) == done + RecordDocs(ms);
    }
  }

  lemma {:induction false} ConsPaddedMember(m: Member, pad: Blanks, later: seq<Member>, close: string)
    returns (ms: seq<Member>)
    requires later != []
    ensures ms != [] && RecordDocs(ms) == [(JoinPairs(Codes(m.key)), Meaning(m.item.value))] + RecordDocs(later)
    ensures MembersText(ms) + close == MemberText(m) + ("," + (pad + (MembersText(later) + close)))
  {
    hide MembersText, RecordDocs, MemberText, Meaning, JoinPairs;
    var padded := [PadMember(pad, later[0])] + later[1..];
    ms := [m] + padded;
    PaddedMembers(pad, later);
    ConsMember(m, padded);
    Regroup(pad, MembersText(later), close);
    Regroup(",", pad + MembersText(later), close);
    Regroup(MemberText(m), "," + (pad + MembersText(later)), close);
  }

  /** The first member of what is read, given the spelling of its value. */
  lemma {:induction false} SpelledFirst(s: string, sp: Spelling) returns (m: Member)
    requires s != [] && s[0] == '"' && ReadString(s[1..]).Some?
    requires var t1 := SkipWs(ReadString(s[1..]).value.1);
             && t1 != [] && t1[0] == ':'
             && var s1 := SkipWs(t1[1..]);
                ReadValue(s1).Some? && s1 == Text(sp) + ReadValue(s1).value.1
    ensures var (key, t) := ReadString(s[1..]).value;
            var t2 := ReadValue(SkipWs(SkipWs(t)[1..])).value.1;
            s == MemberText(m) + SkipWs(t2) && JoinPairs(Codes(m.key)) == key && m.item.value == sp
  {
    hide ReadValue, SkipWs, Text, UnitsText, JoinPairs, ReadString, MemberText;
    var us := SpelledUnits(s[1..]);
    var t := ReadString(s[1..]).value.1;
    var between := SpelledBlanks(t);
    var before := SpelledBlanks(SkipWs(t)[1..]);
    var t2 := ReadValue(SkipWs(SkipWs(t)[1..])).value.1;
    var after := SpelledBlanks(t2);
    m := Member("", us, between, Item(before, sp, after));
    SpelledMember(m, s, SkipWs(t), SkipWs(t2));
  }

  lemma {:induction false} SpelledMember(m: Member, s: string, colon: string, more: string)
    requires m.before == "" && s != [] && s[0] == '"' && colon != [] && colon[0] == ':'
    requires s[1..] == UnitsText(m.key) + ("\"" + (m.between + colon))
    requires colon[1..] == m.item.before + (Text(m.item.value) + (m.item.after + more))
    ensures s == MemberText(m) + more
  {
    hide Text, UnitsText;
    MemberParts(m, more);
    assert s == "\"" + s[1..] && colon == ":" + colon[1..];
  }

  lemma {:induction false} OneMember(m: Member)
    ensures MembersText([m]) == MemberText(m)
    ensures RecordDocs([m]) == [(JoinPairs(Codes(m.key)), Meaning(m.item.value))]
  {
    hide Text, Meaning, UnitsText, JoinPairs;
  }

  lemma {:induction false} ConsMember(m: Member, ms: seq<Member>)
    requires ms != []
    ensures MembersText([m] + ms) == MemberText(m) + ("," + MembersText(ms))
    ensures RecordDocs([m] + ms) == [(JoinPairs(Codes(m.key)), Meaning(m.item.value))] + RecordDocs(ms)
  {
    hide Text, Meaning, UnitsText, JoinPairs;
    assert ([m] + ms)[1..] == ms;
  }

  /** The text is the spelling, with white space around it and nothing else. */
  predicate Spells(s: string, before: Blanks, sp: Spelling, after: Blanks) {
    s == before + (Text(sp) + after)
  }

  /** A text shows a document exactly when one of the document's spellings is the text. */
  lemma {:induction false} ParseDocIff(s: string, d: Doc)
    ensures ParseDoc(s) == Some(d)
            <==> exists before: Blanks, sp, after: Blanks :: Spells(s, before, sp, after) && Meaning(sp) == d
  {
    hide ReadValue, Text, Meaning, SkipWs;
    if ParseDoc(s) == Some(d) {
      var before := SpelledBlanks(s);
      var sp := SpelledValue(SkipWs(s));
      var rest := ReadValue(SkipWs(s)).value.1;
      var after := SpelledBlanks(rest);
      assert Spells(s, before, sp, after);
    }
    if before: Blanks, sp, after: Blanks :| Spells(s, before, sp, after) && Meaning(sp) == d {
      SkipBlanks(before, Text(sp) + after);
      ReadText(sp, after);
      SkipBlanks(after, []);
      assert after + [] == after;
    }
  }
}
