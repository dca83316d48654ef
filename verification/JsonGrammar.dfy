/**
 * The grammar of JSON texts (RFC 8259, sections 2 to 7, with Python's three constants): what a text can
 * be spelled like, what a spelling means, and that the reader reads every spelling as what it means.
 */
module JsonGrammar {
  import opened PyText
  import opened Json

  // ----- spellings -----

  type Blanks = w: string | forall c <- w :: c == ' ' || c == '\t' || c == '\n' || c == '\r'

  type Digits = d: string | d != [] && (forall c <- d :: IsDigit(c)) witness "0"

  /** An integer part: a leading zero stands alone. */
  type Whole = d: Digits | d[0] == '0' ==> |d| == 1 witness "0"

  type Quad = q: int | 0 <= q < 16

  /** A hexadecimal digit in either case. */
  datatype Nibble = Nibble(value: Quad, upper: bool)

  type RawChar = c: char | c >= ' ' && c != '"' && c != '\\' witness ' '

  type Letter = c: char | c in {'"', '\\', '/', 'n', 'r', 't', 'f', 'b'} witness 'n'

  /** One UTF-16 unit or code point inside a string literal, as it is spelled. */
  datatype Unit = Raw(c: RawChar) | Short(letter: Letter) | Hex(n3: Nibble, n2: Nibble, n1: Nibble, n0: Nibble)

  datatype Exponent = Exponent(letter: char, sign: string, digits: Digits)

  type Power = e: Exponent | e.letter in {'e', 'E'} && e.sign in {"", "+", "-"} witness Exponent('e', "", "0")

  type Constant = w: string | w in {"null", "true", "false", "NaN", "Infinity", "-Infinity"} witness "null"

  /** A value with every choice its text leaves open. */
  datatype Spelling =
    | Word(w: Constant)
    | Numeral(minus: bool, whole: Whole, frac: Option<Digits>, exp: Option<Power>)
    | Literal(units: seq<Unit>)
    | Listing(pad: Blanks, items: seq<Item>)
    | Record(pad: Blanks, members: seq<Member>)

  datatype Item = Item(before: Blanks, value: Spelling, after: Blanks)

  datatype Member = Member(before: Blanks, key: seq<Unit>, between: Blanks, item: Item)

  // ----- texts -----

  function NibbleText(n: Nibble): char {
    if n.value < 10 then '0' + n.value as char
    else (if n.upper then 'A' else 'a') + (n.value - 10) as char
  }

  function UnitText(u: Unit): (r: string)
    ensures r != []
  {
    match u
    case Raw(c) => [c]
    case Short(e) => ['\\', e]
    case Hex(n3, n2, n1, n0) => "\\u" + HexText(n3, n2, n1, n0)
  }

  function HexText(n3: Nibble, n2: Nibble, n1: Nibble, n0: Nibble): string {
    [NibbleText(n3), NibbleText(n2), NibbleText(n1), NibbleText(n0)]
  }

  function UnitsText(us: seq<Unit>): string {
    if us == [] then "" else UnitText(us[0]) + UnitsText(us[1..])
  }

  function FracText(f: Option<Digits>): string {
    if f.None? then "" else "." + f.value
  }

  function PowerText(e: Option<Power>): string {
    if e.None? then "" else [e.value.letter] + e.value.sign + e.value.digits
  }

  function Text(sp: Spelling): (r: string)
    ensures r != [] && r[0] != ']' && !IsWs(r[0])
    decreases sp
  {
    match sp
    case Word(w) => w
    case Numeral(minus, whole, frac, exp) =>
      (if minus then "-" else "") + whole + (FracText(frac) + PowerText(exp))
    case Literal(us) => "\"" + UnitsText(us) + "\""
    case Listing(pad, items) => "[" + (if items == [] then pad else ItemsText(items)) + "]"
    case Record(pad, members) => "{" + (if members == [] then pad else MembersText(members)) + "}"
  }

  function ItemText(i: Item): string
    decreases i
  {
    i.before + Text(i.value) + i.after
  }

  function ItemsText(items: seq<Item>): string
    decreases items
  {
    if items == [] then ""
    else ItemText(items[0]) + (if |items| == 1 then "" else "," + ItemsText(items[1..]))
  }

  function MemberText(m: Member): string
    decreases m
  {
    m.before + "\"" + UnitsText(m.key) + "\"" + m.between + ":" + ItemText(m.item)
  }

  function MembersText(ms: seq<Member>): string
    decreases ms
  {
    if ms == [] then ""
    else MemberText(ms[0]) + (if |ms| == 1 then "" else "," + MembersText(ms[1..]))
  }

  // ----- meanings -----

  function UnitCode(u: Unit): Code {
    match u
    case Raw(c) => c as int
    case Short(e) =>
      if e == 'n' then 0x0A else if e == 'r' then 0x0D else if e == 't' then 0x09
      else if e == 'f' then 0x0C else if e == 'b' then 0x08 else e as int
    case Hex(n3, n2, n1, n0) => HexCode(n3, n2, n1, n0)
  }

  function HexCode(n3: Nibble, n2: Nibble, n1: Nibble, n0: Nibble): (c: Code)
    ensures c < 0x1_0000
  {
    0x1000 * n3.value + 0x100 * n2.value + 0x10 * n1.value + n0.value
  }

  function Codes(us: seq<Unit>): (r: PyStr)
    ensures |r| == |us|
  {
    seq(|us|, i requires 0 <= i < |us| => UnitCode(us[i]))
  }

  function Meaning(sp: Spelling): Doc
    decreases sp
  {
    match sp
    case Word(w) =>
      if w == "null" then NullDoc else if w == "true" then BoolDoc(true)
      else if w == "false" then BoolDoc(false) else FloatDoc(w)
    case Numeral(minus, whole, frac, exp) =>
      if frac.Some? || exp.Some? then FloatDoc(Text(sp))
      else IntDoc(if minus then 0 - DecimalValue(whole) else DecimalValue(whole))
    case Literal(us) => StrDoc(JoinPairs(Codes(us)))
    case Listing(_, items) => ArrDoc(ItemDocs(items))
    case Record(_, members) => ObjDoc(RecordDocs(members))
  }

  function ItemDocs(items: seq<Item>): (r: seq<Doc>)
    ensures |r| == |items|
    decreases items
  {
    if items == [] then [] else [Meaning(items[0].value)] + ItemDocs(items[1..])
  }

  function RecordDocs(ms: seq<Member>): (r: seq<(PyStr, Doc)>)
    ensures |r| == |ms|
    decreases ms
  {
    if ms == [] then []
    else [(JoinPairs(Codes(ms[0].key)), Meaning(ms[0].item.value))] + RecordDocs(ms[1..])
  }

  // ----- every spelling is read as what it means -----

  lemma {:induction false} Regroup(a: string, b: string, c: string)
    ensures (a + b) + c == a + (b + c)
  {}

  lemma {:induction false} SkipBlanks(w: Blanks, s: string)
    requires s == [] || !IsWs(s[0])
    ensures SkipWs(w + s) == s
  {
    if w == [] {
      assert w + s == s;
    } else {
      assert (w + s)[1..] == w[1..] + s;
      SkipBlanks(w[1..], s);
    }
  }

  lemma {:induction false} NibbleRead(n: Nibble)
    ensures HexValue(NibbleText(n)) == n.value
  {}

  lemma {:induction false} QuadRead(n3: Nibble, n2: Nibble, n1: Nibble, n0: Nibble, rest: string)
    ensures ReadU4(HexText(n3, n2, n1, n0) + rest) == Some((HexCode(n3, n2, n1, n0), rest))
  {
    hide NibbleText, HexValue;
    var t := HexText(n3, n2, n1, n0);
    var s := t + rest;
    NibbleRead(n3);
    NibbleRead(n2);
    NibbleRead(n1);
    NibbleRead(n0);
    assert s[..4] == t && s[4..] == rest;
    assert s[0] == t[0] && s[1] == t[1] && s[2] == t[2] && s[3] == t[3];
  }

  lemma {:induction false} ReadHex(u: Unit, rest: string)
    requires u.Hex?
    ensures UnitText(u)[..2] == "\\u" && ReadU4((UnitText(u) + rest)[2..]) == Some((UnitCode(u), rest))
  {
    hide ReadU4, HexCode, NibbleText;
    var t := HexText(u.n3, u.n2, u.n1, u.n0);
    assert (UnitText(u) + rest)[2..] == t + rest;
    QuadRead(u.n3, u.n2, u.n1, u.n0, rest);
  }

  /** The text that follows a high surrogate's escape does not continue it unless a low one is next. */
  predicate NoLowNext(s: string) {
    |s| >= 2 && s[0] == '\\' && s[1] == 'u' ==>
      ReadU4(s[2..]).Some? && !Low(ReadU4(s[2..]).value.0)
  }

  lemma {:induction false} UnitIsNoLow(u: Unit, rest: string)
    requires !Low(UnitCode(u))
    ensures NoLowNext(UnitText(u) + rest)
  {
    if u.Hex? { ReadHex(u, rest); }
  }

  lemma {:induction false} ReadPlain(c: RawChar, tail: string)
    ensures ReadString([c] + tail) == Cons(c as int, ReadString(tail))
  {
    assert ([c] + tail)[1..] == tail;
  }

  lemma {:induction false} ReadShort(e: Letter, tail: string)
    ensures ReadString(['\\', e] + tail) == Cons(UnitCode(Short(e)), ReadString(tail))
  {
    assert (['\\', e] + tail)[2..] == tail;
  }

  lemma {:induction false} StepUnicode(s: string, c: Code, tail: string)
    requires |s| >= 2 && s[..2] == "\\u" && ReadUnicode(s[2..]) == Some((c, tail))
    ensures ReadString(s) == Cons(c, ReadString(tail))
  {
    hide ReadUnicode;
    assert s[0] == s[..2][0] && s[1] == s[..2][1];
  }

  /** The reader takes one unit off the front, unless it is half of a pair. */
  lemma {:induction false} ReadUnit(u: Unit, tail: string)
    requires High(UnitCode(u)) ==> NoLowNext(tail)
    ensures ReadString(UnitText(u) + tail) == Cons(UnitCode(u), ReadString(tail))
  {
    hide HexCode, HexText;
    match u
    case Raw(c) => ReadPlain(c, tail);
    case Short(e) => ReadShort(e, tail);
    case Hex(_, _, _, _) =>
      var s := UnitText(u) + tail;
      ReadHex(u, tail);
      assert s[..2] == UnitText(u)[..2];
      StepUnicode(s, UnitCode(u), tail);
  }

  lemma {:induction false} SurrogateIsHex(u: Unit)
    requires 0xD800 <= UnitCode(u) < 0xE000
    ensures u.Hex?
  {}

  lemma {:induction false} ReadPair(u: Unit, v: Unit, tail: string)
    requires High(UnitCode(u)) && Low(UnitCode(v))
    ensures ReadString(UnitText(u) + (UnitText(v) + tail))
            == Cons(Combine(UnitCode(u), UnitCode(v)), ReadString(tail))
  {
    hide UnitCode, HexCode, HexText;
    SurrogateIsHex(u);
    SurrogateIsHex(v);
    var t := UnitText(v) + tail;
    var s := UnitText(u) + t;
    ReadHex(u, t);
    ReadHex(v, tail);
    assert t[..2] == UnitText(v)[..2] && t[0] == t[..2][0] && t[1] == t[..2][1];
    assert s[..2] == UnitText(u)[..2];
    StepUnicode(s, Combine(UnitCode(u), UnitCode(v)), tail);
  }

  lemma {:induction false} TextTwo(us: seq<Unit>)
    requires |us| >= 2
    ensures UnitsText(us) == UnitText(us[0]) + (UnitText(us[1]) + UnitsText(us[2..]))
    ensures Codes(us)[2..] == Codes(us[2..])
  {
    assert us[1..][1..] == us[2..];
  }

  lemma {:induction false} HighStandsAlone(us: seq<Unit>, close: string)
    requires us != [] && (|us| >= 2 ==> !Low(UnitCode(us[1]))) && close != [] && close[0] == '"'
    ensures NoLowNext(UnitsText(us[1..]) + close)
  {
    hide UnitText, UnitCode, ReadU4;
    if |us| >= 2 {
      var t := UnitsText(us[1..][1..]) + close;
      UnitIsNoLow(us[1], t);
      assert UnitsText(us[1..]) + close == UnitText(us[1]) + t;
    } else {
      assert UnitsText(us[1..]) + close == close;
    }
  }

  lemma {:induction false} ReadUnits(us: seq<Unit>, rest: string)
    ensures ReadString(UnitsText(us) + ("\"" + rest)) == Some((JoinPairs(Codes(us)), rest))
    decreases |us|
  {
    hide ReadString, UnitText, UnitCode, NoLowNext, Combine;
    var close, cs := "\"" + rest, Codes(us);
    if us == [] {
      assert UnitsText(us) + close == close;
      ReadClose(rest);
    } else if |us| >= 2 && High(cs[0]) && Low(cs[1]) {
      TextTwo(us);
      Regroup(UnitText(us[0]), UnitText(us[1]) + UnitsText(us[2..]), close);
      Regroup(UnitText(us[1]), UnitsText(us[2..]), close);
      ReadPair(us[0], us[1], UnitsText(us[2..]) + close);
      ReadUnits(us[2..], rest);
    } else {
      assert cs[1..] == Codes(us[1..]);
      Regroup(UnitText(us[0]), UnitsText(us[1..]), close);
      if High(cs[0]) { HighStandsAlone(us, close); }
      ReadUnit(us[0], UnitsText(us[1..]) + close);
      ReadUnits(us[1..], rest);
    }
  }

  lemma {:induction false} ReadClose(rest: string)
    ensures ReadString("\"" + rest) == Some(([], rest))
  {
    assert ("\"" + rest)[1..] == rest;
  }

  // ----- numbers -----

  /** What may follow a value. */
  predicate Stops(rest: string) {
    rest == [] || rest[0] in {',', '}', ']', ' ', '\t', '\n', '\r'}
  }

  lemma {:induction false} RunOf(d: string, rest: string)
    requires (forall c <- d :: IsDigit(c)) && (rest == [] || !IsDigit(rest[0]))
    ensures DigitRun(d + rest) == |d|
  {
    if d == [] {
      assert d + rest == rest;
    } else {
      assert (d + rest)[1..] == d[1..] + rest;
      RunOf(d[1..], rest);
    }
  }

  lemma {:induction false} WholeRead(minus: bool, whole: Whole, rest: string)
    requires rest == [] || !IsDigit(rest[0])
    ensures var t := (if minus then "-" else "") + whole; IntEnd(t + rest) == |t|
  {
    hide DigitRun;
    RunOf(whole, rest);
    var t := (if minus then "-" else "") + whole;
    var s, sign := t + rest, if minus then 1 else 0;
    assert s[sign..] == whole + rest;
    assert s[sign] == whole[0];
  }

  lemma {:induction false} FracRead(f: Option<Digits>, rest: string)
    requires rest == [] || (!IsDigit(rest[0]) && rest[0] != '.')
    ensures FracEnd(FracText(f) + rest) == |FracText(f)|
  {
    hide DigitRun;
    var s := FracText(f) + rest;
    if f.None? {
      assert s == rest;
    } else {
      RunOf(f.value, rest);
      assert s[1..] == f.value + rest;
    }
  }

  lemma {:induction false} PowerRead(e: Option<Power>, rest: string)
    requires Stops(rest)
    ensures ExpEnd(PowerText(e) + rest) == |PowerText(e)|
    ensures var s := PowerText(e) + rest; s == [] || (!IsDigit(s[0]) && s[0] != '.')
  {
    var s := PowerText(e) + rest;
    if e.None? {
      assert s == rest;
    } else {
      PowerParts(e.value, rest);
    }
  }

  lemma {:induction false} PowerParts(p: Power, rest: string)
    requires Stops(rest)
    ensures var t := PowerText(Some(p)); t[0] == p.letter && ExpEnd(t + rest) == |t|
  {
    hide DigitRun;
    var t := PowerText(Some(p));
    var s := t + rest;
    var d := p.digits + rest;
    RunOf(p.digits, rest);
    if p.sign == "" {
      assert s == [p.letter] + d && s[1..] == d && d[0] == p.digits[0];
    } else {
      assert s == [p.letter, p.sign[0]] + d && s[2..] == d;
    }
  }

  lemma {:induction false} NumeralText(sp: Spelling, rest: string)
    requires sp.Numeral?
    ensures Text(sp) + rest
            == ((if sp.minus then "-" else "") + sp.whole) + (FracText(sp.frac) + (PowerText(sp.exp) + rest))
    ensures |Text(sp)| == (if sp.minus then 1 else 0) + |sp.whole| + |FracText(sp.frac)| + |PowerText(sp.exp)|
  {
    var t, f, p := (if sp.minus then "-" else "") + sp.whole, FracText(sp.frac), PowerText(sp.exp);
    Regroup(t, f + p, rest);
    Regroup(f, p, rest);
  }

  lemma {:induction false} NumeralRead(sp: Spelling, rest: string)
    requires sp.Numeral? && Stops(rest)
    ensures NumeralEnd(Text(sp) + rest) == (|Text(sp)|, sp.frac.Some? || sp.exp.Some?)
  {
    hide IntEnd, FracEnd, ExpEnd, Text, PowerText, FracText;
    var t := (if sp.minus then "-" else "") + sp.whole;
    var p := PowerText(sp.exp) + rest;
    var f := FracText(sp.frac) + p;
    PowerRead(sp.exp, rest);
    FracRead(sp.frac, p);
    FracStart(sp.frac, p);
    WholeRead(sp.minus, sp.whole, f);
    NumeralText(sp, rest);
    PartsLength(sp);
    ThreeParts(t, FracText(sp.frac), p);
  }

  lemma {:induction false} FracStart(f: Option<Digits>, p: string)
    requires p == [] || !IsDigit(p[0])
    ensures var s := FracText(f) + p; s == [] || !IsDigit(s[0])
  {
    if f.None? { assert FracText(f) + p == p; }
  }

  lemma {:induction false} PartsLength(sp: Spelling)
    requires sp.Numeral?
    ensures |FracText(sp.frac)| > 0 <==> sp.frac.Some?
    ensures |PowerText(sp.exp)| > 0 <==> sp.exp.Some?
  {}

  lemma {:induction false} ThreeParts(t: string, f: string, p: string)
    ensures (t + (f + p))[|t|..] == f + p && (t + (f + p))[|t| + |f|..] == p
  {}

  lemma {:induction false} ReadWhole(whole: Whole, rest: string)
    requires Stops(rest)
    ensures ReadNat(whole + rest) == Some((DecimalValue(whole), rest))
  {
    hide DigitRun;
    var s := whole + rest;
    RunOf(whole, rest);
    assert s[..|whole|] == whole && s[|whole|..] == rest;
    assert |whole| < |s| ==> s[|whole|] == rest[0];
  }

  lemma {:induction false} StepFloat(t: string, rest: string)
    requires t != [] && (IsDigit(t[0]) || (|t| >= 2 && t[0] == '-' && IsDigit(t[1])))
    requires NumeralEnd(t + rest) == (|t|, true)
    ensures ReadValue(t + rest) == Some((FloatDoc(t), rest))
  {
    hide NumeralEnd, ReadNat;
    var s := t + rest;
    assert s[..|t|] == t && s[|t|..] == rest && s[0] == t[0];
    assert |t| >= 2 ==> s[1] == t[1];
    assert MINUS_INFINITY[0] == '-' && MINUS_INFINITY[1] == 'I';
  }

  lemma {:induction false} StepNegative(n: nat, s: string, rest: string)
    requires s != [] && IsDigit(s[0]) && !NumeralEnd("-" + s).1 && ReadNat(s) == Some((n, rest))
    ensures ReadValue("-" + s) == Some((IntDoc(0 - n), rest))
  {
    hide NumeralEnd, ReadNat;
    assert MINUS_INFINITY[1] == 'I';
    assert ("-" + s)[1..] == s;
  }

  lemma {:induction false} StepNat(n: nat, s: string, rest: string)
    requires s != [] && IsDigit(s[0]) && !NumeralEnd(s).1 && ReadNat(s) == Some((n, rest))
    ensures ReadValue(s) == Some((IntDoc(n), rest))
  {
    hide NumeralEnd, ReadNat;
  }

  lemma {:induction false} ReadNumeral(sp: Spelling, rest: string)
    requires sp.Numeral? && Stops(rest)
    ensures ReadValue(Text(sp) + rest) == Some((Meaning(sp), rest))
  {
    hide NumeralEnd, ReadNat, ReadValue, FracText, PowerText;
    NumeralRead(sp, rest);
    if sp.frac.Some? || sp.exp.Some? {
      StepFloat(Text(sp), rest);
    } else {
      IntegerText(sp);
      ReadWhole(sp.whole, rest);
      if sp.minus {
        Regroup("-", sp.whole, rest);
        StepNegative(DecimalValue(sp.whole), sp.whole + rest, rest);
      } else {
        StepNat(DecimalValue(sp.whole), sp.whole + rest, rest);
      }
    }
  }

  lemma {:induction false} IntegerText(sp: Spelling)
    requires sp.Numeral? && sp.frac.None? && sp.exp.None?
    ensures Text(sp) == (if sp.minus then "-" + sp.whole else sp.whole)
  {
    assert "" + sp.whole == sp.whole;
  }

  lemma {:induction false} ReadWord(w: Constant, rest: string)
    ensures ReadValue(w + rest) == Some((Meaning(Word(w)), rest))
  {
    hide NumeralEnd, ReadNat;
    WordIsNoNumeral(w, rest);
    assert (w + rest)[|w|..] == rest && w <= w + rest;
    assert (w + rest)[0] == w[0];
  }

  lemma {:induction false} WordIsNoNumeral(w: Constant, rest: string)
    ensures !NumeralEnd(w + rest).1
  {
    var s := w + rest;
    if w == "-Infinity" {
      assert s[1] == 'I' && s[1..][0] == 'I';
    } else {
      assert s[0] == w[0] && !IsDigit(s[0]) && s[0..] == s;
    }
  }

  // ----- values -----

  lemma {:induction false} StepStr(s: string, t: PyStr, rest: string)
    requires ReadString(s) == Some((t, rest))
    ensures ReadValue("\"" + s) == Some((StrDoc(t), rest))
  {
    assert ("\"" + s)[1..] == s;
  }

  lemma {:induction false} StepArr(s: string)
    ensures var t := SkipWs(s);
            ReadValue("[" + s) == if t != [] && t[0] == ']' then Some((ArrDoc([]), t[1..])) else ReadItems(t, [])
  {
    assert ("[" + s)[1..] == s;
  }

  lemma {:induction false} StepObj(s: string)
    ensures var t := SkipWs(s);
            ReadValue("{" + s) == if t != [] && t[0] == '}' then Some((ObjDoc([]), t[1..])) else ReadMembers(t, [])
  {
    assert ("{" + s)[1..] == s;
  }

  lemma {:induction false} StepItem(s: string, v: Doc, after: Blanks, more: string, done: seq<Doc>)
    requires ReadValue(s) == Some((v, after + more)) && more != [] && more[0] in {']', ','}
    ensures ReadItems(s, done)
            == if more[0] == ']' then Some((ArrDoc(done + [v]), more[1..]))
               else ReadItems(SkipWs(more[1..]), done + [v])
  {
    SkipBlanks(after, more);
  }

  lemma {:induction false} StepMember(key: string, k: PyStr, between: Blanks, before: Blanks, s: string, v: Doc,
                                      after: Blanks, more: string, done: seq<(PyStr, Doc)>)
    requires ReadString(key) == Some((k, between + (":" + (before + s)))) && s != [] && !IsWs(s[0])
    requires ReadValue(s) == Some((v, after + more)) && more != [] && more[0] in {'}', ','}
    ensures ReadMembers("\"" + key, done)
            == if more[0] == '}' then Some((ObjDoc(done + [(k, v)]), more[1..]))
               else ReadMembers(SkipWs(more[1..]), done + [(k, v)])
  {
    assert ("\"" + key)[1..] == key && (":" + (before + s))[1..] == before + s;
    SkipBlanks(between, ":" + (before + s));
    SkipBlanks(before, s);
    SkipBlanks(after, more);
  }

  /** Every text of the grammar is read as what it means, and no further. */
  lemma {:induction false} ReadText(sp: Spelling, rest: string)
    requires sp.Numeral? ==> Stops(rest)
    ensures ReadValue(Text(sp) + rest) == Some((Meaning(sp), rest))
    decreases sp, 1
  {
    hide ReadValue, ReadString, ReadItems, ReadMembers, UnitsText, ItemsText, MembersText;
    match sp
    case Word(w) => ReadWord(w, rest);
    case Numeral(_, _, _, _) => ReadNumeral(sp, rest);
    case Literal(us) =>
      ReadUnits(us, rest);
      StepStr(UnitsText(us) + ("\"" + rest), JoinPairs(Codes(us)), rest);
      Regroup("\"" + UnitsText(us), "\"", rest);
      Regroup("\"", UnitsText(us), "\"" + rest);
    case Listing(pad, items) => ReadListing(pad, items, rest);
    case Record(pad, members) => ReadRecord(pad, members, rest);
  }

  lemma {:induction false} ReadListing(pad: Blanks, items: seq<Item>, rest: string)
    ensures ReadValue(Text(Listing(pad, items)) + rest) == Some((ArrDoc(ItemDocs(items)), rest))
    decreases items, |items| + 1
  {
    hide ReadValue, ReadItems, ItemsText, ItemDocs;
    var inner, close := if items == [] then pad else ItemsText(items), "]" + rest;
    Regroup("[" + inner, "]", rest);
    Regroup("[", inner, close);
    StepArr(inner + close);
    assert close[1..] == rest;
    if items == [] {
      SkipBlanks(pad, close);
      NoDocs();
    } else {
      FirstItem(items, close);
      ReadListed(items, [], rest);
      assert [] + ItemDocs(items) == ItemDocs(items);
    }
  }

  lemma {:induction false} NoDocs()
    ensures ItemDocs([]) == [] && RecordDocs([]) == []
  {}

  /** What stands after the value of the first item. */
  function LaterItems(items: seq<Item>, close: string): (r: string)
    requires items != [] && close != [] && close[0] == ']'
    ensures r != [] && r[0] in {']', ','}
  {
    if |items| == 1 then close else "," + (ItemsText(items[1..]) + close)
  }

  lemma {:induction false} FirstItem(items: seq<Item>, close: string)
    requires items != [] && close != [] && close[0] == ']'
    ensures var i := items[0];
            var s := Text(i.value) + (i.after + LaterItems(items, close));
            && SkipWs(ItemsText(items) + close) == s && s[0] != ']'
  {
    hide Text, SkipWs;
    var i, more := items[0], LaterItems(items, close);
    var s := Text(i.value) + (i.after + more);
    assert ItemsText(items) + close == i.before + s by {
      if |items| > 1 { Regroup(",", ItemsText(items[1..]), close); }
    }
    SkipBlanks(i.before, s);
  }

  lemma {:induction false} ReadListed(items: seq<Item>, done: seq<Doc>, rest: string)
    requires items != []
    ensures ReadItems(SkipWs(ItemsText(items) + ("]" + rest)), done) == Some((ArrDoc(done + ItemDocs(items)), rest))
    decreases items, |items|
  {
    hide ReadItems, ReadValue, Text, ItemsText, Meaning, SkipWs;
    var i, close, v := items[0], "]" + rest, Meaning(items[0].value);
    var more := LaterItems(items, close);
    FirstItem(items, close);
    StopsAfter(i.after, more);
    ReadText(i.value, i.after + more);
    StepItem(Text(i.value) + (i.after + more), v, i.after, more, done);
    if |items| == 1 {
      assert more[1..] == rest;
      assert ItemDocs(items) == [v];
    } else {
      assert more[1..] == ItemsText(items[1..]) + close;
      ReadListed(items[1..], done + [v], rest);
      assert done + [v] + ItemDocs(items[1..]) == done + ItemDocs(items);
    }
  }

  lemma {:induction false} StopsAfter(after: Blanks, more: string)
    requires more != [] && more[0] in {']', '}', ','}
    ensures Stops(after + more)
  {}

  lemma {:induction false} ReadRecord(pad: Blanks, members: seq<Member>, rest: string)
    ensures ReadValue(Text(Record(pad, members)) + rest) == Some((ObjDoc(RecordDocs(members)), rest))
    decreases members, |members| + 1
  {
    hide ReadValue, ReadMembers, MembersText, RecordDocs;
    var inner, close := if members == [] then pad else MembersText(members), "}" + rest;
    Regroup("{" + inner, "}", rest);
    Regroup("{", inner, close);
    StepObj(inner + close);
    assert close[1..] == rest;
    if members == [] {
      SkipBlanks(pad, close);
      NoDocs();
    } else {
      FirstMember(members, close);
      ReadRecorded(members, [], rest);
      assert [] + RecordDocs(members) == RecordDocs(members);
    }
  }

  /** What stands after the value of the first member. */
  function LaterMembers(ms: seq<Member>, close: string): (r: string)
    requires ms != [] && close != [] && close[0] == '}'
    ensures r != [] && r[0] in {'}', ','}
  {
    if |ms| == 1 then close else "," + (MembersText(ms[1..]) + close)
  }

  /** The first member from its key on, without the opening quote. */
  function AfterQuote(m: Member, more: string): string {
    UnitsText(m.key) + ("\"" + (m.between + (":" + (m.item.before + (Text(m.item.value) + (m.item.after + more))))))
  }

  lemma {:induction false} FirstMember(ms: seq<Member>, close: string)
    requires ms != [] && close != [] && close[0] == '}'
    ensures SkipWs(MembersText(ms) + close) == "\"" + AfterQuote(ms[0], LaterMembers(ms, close))
  {
    hide Text, SkipWs, UnitsText;
    var more := LaterMembers(ms, close);
    var s := "\"" + AfterQuote(ms[0], more);
    assert MembersText(ms) + close == ms[0].before + s by {
      assert MembersText(ms) + close == MemberText(ms[0]) + more by {
        if |ms| > 1 { Regroup(",", MembersText(ms[1..]), close); }
      }
      MemberParts(ms[0], more);
    }
    SkipBlanks(ms[0].before, s);
  }

  lemma {:induction false} MemberParts(m: Member, more: string)
    ensures MemberText(m) + more == m.before + ("\"" + AfterQuote(m, more))
  {}

  lemma {:induction false} ReadRecorded(ms: seq<Member>, done: seq<(PyStr, Doc)>, rest: string)
    requires ms != []
    ensures ReadMembers(SkipWs(MembersText(ms) + ("}" + rest)), done)
            == Some((ObjDoc(done + RecordDocs(ms)), rest))
    decreases ms, |ms|
  {
    hide ReadMembers, ReadValue, ReadString, Text, MembersText, Meaning, SkipWs, UnitsText, JoinPairs;
    var m, close, v := ms[0], "}" + rest, Meaning(ms[0].item.value);
    var more, k := LaterMembers(ms, close), JoinPairs(Codes(m.key));
    FirstMember(ms, close);
    StopsAfter(m.item.after, more);
    var s := Text(m.item.value) + (m.item.after + more);
    ReadText(m.item.value, m.item.after + more);
    ReadUnits(m.key, m.between + (":" + (m.item.before + s)));
    StepMember(AfterQuote(m, more), k, m.between, m.item.before, s, v, m.item.after, more, done);
    if |ms| == 1 {
      assert more[1..] == rest;
      assert RecordDocs(ms) == [(k, v)];
    } else {
      assert more[1..] == MembersText(ms[1..]) + close;
      ReadRecorded(ms[1..], done + [(k, v)], rest);
      assert done + [(k, v)] + RecordDocs(ms[1..]) == done + RecordDocs(ms);
    }
  }
}
