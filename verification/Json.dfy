/**
 * Canonical JSON: what `json.dumps(obj, sort_keys=True, separators=(",", ":"))` writes and what
 * `json.loads` reads back (RFC 8259, sections 2 to 7, and the three constants Python adds).
 */
module Json {
  import opened PyText

  datatype Option<+T> = None | Some(value: T)

  /** Printable ASCII: no control character, hence no line break. */
  predicate Printable(s: string) {
    forall c <- s :: ' ' <= c <= '~'
  }

  // ----- floating-point numbers -----

  /** The longest run of digits at the front. */
  function DigitRun(s: string): (n: nat)
    ensures n <= |s| && forall i :: 0 <= i < n ==> IsDigit(s[i])
  {
    if s != [] && IsDigit(s[0]) then 1 + DigitRun(s[1..]) else 0
  }

  /** The length of an integer part at the front; a leading zero stands alone. */
  function IntEnd(s: string): (n: nat)
    ensures n <= |s| && (n > 0 ==> s[0] == '-' || IsDigit(s[0]))
  {
    var sign := if s != [] && s[0] == '-' then 1 else 0;
    if sign < |s| && s[sign] == '0' then sign + 1
    else if DigitRun(s[sign..]) == 0 then 0
    else sign + DigitRun(s[sign..])
  }

  function FracEnd(s: string): (n: nat)
    ensures n <= |s|
  {
    if s != [] && s[0] == '.' && DigitRun(s[1..]) > 0 then 1 + DigitRun(s[1..]) else 0
  }

  function ExpEnd(s: string): (n: nat)
    ensures n <= |s|
  {
    if s == [] || s[0] !in {'e', 'E'} then 0
    else
      var sign := if |s| >= 2 && s[1] in {'+', '-'} then 2 else 1;
      if DigitRun(s[sign..]) == 0 then 0 else sign + DigitRun(s[sign..])
  }

  /** The length of the numeral at the front, and whether it has a fraction or an exponent. */
  function NumeralEnd(s: string): (r: (nat, bool))
    ensures r.0 <= |s| && (r.1 ==> r.0 > 0)
  {
    var n := IntEnd(s);
    if n == 0 then (0, false)
    else
      var f := FracEnd(s[n..]);
      var e := ExpEnd(s[n + f..]);
      (n + f + e, f + e > 0)
  }

  const NAN := "NaN"
  const INFINITY := "Infinity"
  const MINUS_INFINITY := "-Infinity"

  /** The form of `float.__repr__`, and of the constants. */
  predicate IsFloatText(t: string) {
    t in {NAN, INFINITY, MINUS_INFINITY} || (Printable(t) && NumeralEnd(t) == (|t|, true))
  }

  type FloatText = t: string | IsFloatText(t) witness NAN

  /** What `float(literal)` prints as.  Nothing is assumed about it. */
  type FloatReader = string -> FloatText

  /** A JSON value; a float is the text it prints as, an object is a Python dict, so its keys are distinct and unordered. */
  datatype Json =
    | Null
    | Bool(b: bool)
    | Int(n: int)
    | Float(text: FloatText)
    | Str(s: PyStr)
    | Arr(items: seq<Json>)
    | Obj(members: map<PyStr, Json>)

  /** What a text shows: members in their order, repetitions included. */
  datatype Doc =
    | NullDoc
    | BoolDoc(b: bool)
    | IntDoc(n: int)
    | FloatDoc(literal: string)
    | StrDoc(s: PyStr)
    | ArrDoc(items: seq<Doc>)
    | ObjDoc(members: seq<(PyStr, Doc)>)

  // ----- surrogates -----

  predicate High(c: int) { 0xD800 <= c < 0xDC00 }

  predicate Low(c: int) { 0xDC00 <= c < 0xE000 }

  /** The code point a surrogate pair stands for. */
  function Combine(h: int, l: int): (c: Code)
    requires High(h) && Low(l)
    ensures c >= 0x1_0000
  {
    0x1_0000 + (h - 0xD800) * 0x400 + (l - 0xDC00)
  }

  /** The string with every high surrogate that a low one follows fused with it, left to right. */
  function JoinPairs(s: PyStr): (r: PyStr)
    ensures |r| <= |s|
  {
    if s == [] then []
    else if |s| >= 2 && High(s[0]) && Low(s[1]) then [Combine(s[0], s[1])] + JoinPairs(s[2..])
    else [s[0]] + JoinPairs(s[1..])
  }

  /** No high surrogate is directly followed by a low one. */
  predicate PairFree(s: PyStr) {
    forall i :: 0 <= i < |s| - 1 ==> !(High(s[i]) && Low(s[i + 1]))
  }

  lemma {:induction false} JoinPairsIdentity(s: PyStr)
    ensures JoinPairs(s) == s <==> PairFree(s)
  {
    if s != [] {
      if |s| >= 2 && High(s[0]) && Low(s[1]) {
        assert |JoinPairs(s)| < |s|;
      } else {
        var t := s[1..];
        JoinPairsIdentity(t);
        assert s == [s[0]] + t;
        if PairFree(s) {
          forall i | 0 <= i < |t| - 1 ensures !(High(t[i]) && Low(t[i + 1])) {
            assert t[i] == s[i + 1] && t[i + 1] == s[i + 2];
          }
        }
        if PairFree(t) {
          forall i | 0 <= i < |s| - 1 ensures !(High(s[i]) && Low(s[i + 1])) {
            if i > 0 { assert s[i] == t[i - 1] && s[i + 1] == t[i]; }
          }
        }
      }
    }
  }

  // ----- printing -----

  function U4(c: int): string
    requires 0 <= c < 0x1_0000
  {
    "\\u" + Hex4(c)
  }

  /** The code points `ensure_ascii` writes as `\u` escapes. */
  predicate NeedsUnicode(c: Code) {
    !(0x20 <= c <= 0x7E) && c !in {0x0A, 0x0D, 0x09, 0x0C, 0x08}
  }

  /** One code point inside a string literal, as `ensure_ascii` writes it. */
  function EscapeCode(c: Code): (r: string)
    ensures r != [] && Printable(r)
  {
    if c == 0x22 then "\\\""
    else if c == 0x5C then "\\\\"
    else if c == 0x0A then "\\n"
    else if c == 0x0D then "\\r"
    else if c == 0x09 then "\\t"
    else if c == 0x0C then "\\f"
    else if c == 0x08 then "\\b"
    else if 0x20 <= c <= 0x7E then [c as char]
    else if c < 0x1_0000 then U4(c)
    else U4(0xD800 + (c - 0x1_0000) / 0x400) + U4(0xDC00 + (c - 0x1_0000) % 0x400)
  }

  function Escape(s: PyStr): (r: string)
    ensures Printable(r)
  {
    if s == [] then "" else EscapeCode(s[0]) + Escape(s[1..])
  }

  function Quote(s: PyStr): (r: string)
    ensures r != [] && r[0] == '"' && Printable(r)
  {
    "\"" + Escape(s) + "\""
  }

  function IntText(n: int): (r: string)
    ensures r != [] && (r[0] == '-' || IsDigit(r[0]))
    ensures Printable(r)
  {
    if n < 0 then "-" + Decimal(-n) else Decimal(n)
  }

  /** What a float prints as. */
  function FloatRepr(t: FloatText): (r: string)
    ensures r == t && r != [] && r[0] !in {']', ' '} && Printable(r)
  {
    t
  }

  /** The canonical text of a value: printable ASCII on one line. */
  function Print(v: Json): (r: string)
    ensures r != [] && r[0] !in {']', ' '} && Printable(r)
    decreases v
  {
    match v
    case Null => "null"
    case Bool(b) => if b then "true" else "false"
    case Int(n) => IntText(n)
    case Float(t) => FloatRepr(t)
    case Str(s) => Quote(s)
    case Arr(items) => "[" + PrintItems(items) + "]"
    case Obj(m) => "{" + PrintMembers(v, SortedKeys(m.Keys)) + "}"
  }

  function PrintItems(items: seq<Json>): (r: string)
    ensures Printable(r)
    decreases items
  {
    if items == [] then ""
    else Print(items[0]) + (if |items| == 1 then "" else "," + PrintItems(items[1..]))
  }

  function PrintMembers(v: Json, keys: seq<PyStr>): (r: string)
    requires v.Obj? && forall k <- keys :: k in v.members
    ensures Printable(r)
    ensures keys != [] ==> r != [] && r[0] == '"'
    decreases v, |keys|
  {
    if keys == [] then ""
    else Quote(keys[0]) + ":" + Print(v.members[keys[0]])
         + (if |keys| == 1 then "" else "," + PrintMembers(v, keys[1..]))
  }

  // ----- parsing -----

  predicate IsWs(c: char) { c == ' ' || c == '\t' || c == '\n' || c == '\r' }

  function SkipWs(s: string): (r: string)
    ensures |r| <= |s|
    ensures s != [] && !IsWs(s[0]) ==> r == s
  {
    if s != [] && IsWs(s[0]) then SkipWs(s[1..]) else s
  }

  /** Four hexadecimal digits and what follows them. */
  function ReadU4(s: string): (r: Option<(int, string)>)
    ensures r.Some? ==> 0 <= r.value.0 < 0x1_0000 && |r.value.1| == |s| - 4
  {
    if |s| >= 4 && HexValue(s[0]) >= 0 && HexValue(s[1]) >= 0 && HexValue(s[2]) >= 0 && HexValue(s[3]) >= 0
    then Some((Hex4Value(s[..4]), s[4..]))
    else None
  }

  /** The code a one-letter escape stands for. */
  function ShortEscape(c: char): Option<Code> {
    match c
    case '"' => Some(0x22)
    case '\\' => Some(0x5C)
    case '/' => Some(0x2F)
    case 'n' => Some(0x0A)
    case 'r' => Some(0x0D)
    case 't' => Some(0x09)
    case 'f' => Some(0x0C)
    case 'b' => Some(0x08)
    case _ => None
  }

  function Cons(c: Code, tail: Option<(PyStr, string)>): (r: Option<(PyStr, string)>) {
    match tail
    case None => None
    case Some((s, rest)) => Some(([c] + s, rest))
  }

  /** What follows the `\u` of an escape: a code, fused with a low surrogate escape directly after it. */
  function ReadUnicode(s: string): (r: Option<(Code, string)>)
    ensures r.Some? ==> |r.value.1| < |s|
  {
    match ReadU4(s)
    case None => None
    case Some((u, rest)) =>
      if High(u) && |rest| >= 2 && rest[0] == '\\' && rest[1] == 'u' then
        match ReadU4(rest[2..])
        case None => None
        case Some((u2, rest2)) => if Low(u2) then Some((Combine(u, u2), rest2)) else Some((u, rest))
      else Some((u, rest))
  }

  /** The rest of a string literal after its opening quote, and what follows the closing one. */
  function ReadString(s: string): (r: Option<(PyStr, string)>)
    ensures r.Some? ==> |r.value.1| < |s|
    decreases |s|
  {
    if s == [] then None
    else if s[0] == '"' then Some(([], s[1..]))
    else if s[0] < ' ' then None
    else if s[0] != '\\' then Cons(s[0] as int, ReadString(s[1..]))
    else if |s| == 1 then None
    else if s[1] == 'u' then
      match ReadUnicode(s[2..])
      case None => None
      case Some((c, rest)) => Cons(c, ReadString(rest))
    else
      match ShortEscape(s[1])
      case None => None
      case Some(c) => Cons(c, ReadString(s[2..]))
  }

  /** A natural number; a leading zero stands alone. */
  function ReadNat(s: string): (r: Option<(nat, string)>)
    ensures r.Some? ==> |r.value.1| < |s|
  {
    var n := if s != [] && s[0] == '0' then 1 else DigitRun(s);
    if n == 0 || (n < |s| && s[n] in {'.', 'e', 'E'}) then None
    else Some((DecimalValue(s[..n]), s[n..]))
  }

  /** A value starting at the first character, and the text after it. */
  function ReadValue(s: string): (r: Option<(Doc, string)>)
    ensures r.Some? ==> |r.value.1| < |s|
    decreases |s|, 2
  {
    if s == [] then None
    else if s[0] == '"' then
      match ReadString(s[1..])
      case None => None
      case Some((t, rest)) => Some((StrDoc(t), rest))
    else if s[0] == '{' then
      var t := SkipWs(s[1..]);
      if t != [] && t[0] == '}' then Some((ObjDoc([]), t[1..])) else ReadMembers(t, [])
    else if s[0] == '[' then
      var t := SkipWs(s[1..]);
      if t != [] && t[0] == ']' then Some((ArrDoc([]), t[1..])) else ReadItems(t, [])
    else if MINUS_INFINITY <= s then Some((FloatDoc(MINUS_INFINITY), s[|MINUS_INFINITY|..]))
    else if NumeralEnd(s).1 then Some((FloatDoc(s[..NumeralEnd(s).0]), s[NumeralEnd(s).0..]))
    else if s[0] == '-' then
      match ReadNat(s[1..])
      case None => None
      case Some((n, rest)) => Some((IntDoc(0 - n), rest))
    else if IsDigit(s[0]) then
      match ReadNat(s)
      case None => None
      case Some((n, rest)) => Some((IntDoc(n), rest))
    else if NAN <= s then Some((FloatDoc(NAN), s[|NAN|..]))
    else if INFINITY <= s then Some((FloatDoc(INFINITY), s[|INFINITY|..]))
    else if "null" <= s then Some((NullDoc, s[4..]))
    else if "true" <= s then Some((BoolDoc(true), s[4..]))
    else if "false" <= s then Some((BoolDoc(false), s[5..]))
    else None
  }

  /** The remaining members of an object, after those already read. */
  function ReadMembers(s: string, done: seq<(PyStr, Doc)>): (r: Option<(Doc, string)>)
    ensures r.Some? ==> |r.value.1| < |s|
    decreases |s|, 1
  {
    if s == [] || s[0] != '"' then None else
      match ReadString(s[1..])
      case None => None
      case Some((key, t)) =>
        var t1 := SkipWs(t);
        if t1 == [] || t1[0] != ':' then None else
          match ReadValue(SkipWs(t1[1..]))
          case None => None
          case Some((v, t2)) =>
            var t3 := SkipWs(t2);
            if t3 == [] then None
            else if t3[0] == '}' then Some((ObjDoc(done + [(key, v)]), t3[1..]))
            else if t3[0] == ',' then ReadMembers(SkipWs(t3[1..]), done + [(key, v)])
            else None
  }

  /** The remaining items of an array, after those already read. */
  function ReadItems(s: string, done: seq<Doc>): (r: Option<(Doc, string)>)
    ensures r.Some? ==> |r.value.1| < |s|
    decreases |s|, 3
  {
    match ReadValue(s)
    case None => None
    case Some((v, t)) =>
      var t1 := SkipWs(t);
      if t1 == [] then None
      else if t1[0] == ']' then Some((ArrDoc(done + [v]), t1[1..]))
      else if t1[0] == ',' then ReadItems(SkipWs(t1[1..]), done + [v])
      else None
  }

  /** The value a document stands for: of members with one key, the last counts. */
  function ValueOf(fl: FloatReader, d: Doc): Json
    decreases d
  {
    match d
    case NullDoc => Null
    case BoolDoc(b) => Bool(b)
    case IntDoc(n) => Int(n)
    case FloatDoc(t) => Float(fl(t))
    case StrDoc(s) => Str(s)
    case ArrDoc(items) => Arr(seq(|items|, i requires 0 <= i < |items| => ValueOf(fl, items[i])))
    case ObjDoc(ms) =>
      Obj(Dict(seq(|ms|, i requires 0 <= i < |ms| => (ms[i].0, ValueOf(fl, ms[i].1)))))
  }

  /** `dict(pairs)`: of two pairs with one key, the later counts. */
  function Dict(pairs: seq<(PyStr, Json)>): map<PyStr, Json> {
    if pairs == [] then map[]
    else Dict(pairs[..|pairs| - 1])[pairs[|pairs| - 1].0 := pairs[|pairs| - 1].1]
  }

  /** One document, with white space allowed around it and nothing else. */
  function ParseDoc(s: string): Option<Doc> {
    match ReadValue(SkipWs(s))
    case None => None
    case Some((d, rest)) => if SkipWs(rest) == [] then Some(d) else None
  }

  /** `json.loads`. */
  function Parse(fl: FloatReader, s: string): Option<Json> {
    match ParseDoc(s)
    case None => None
    case Some(d) => Some(ValueOf(fl, d))
  }
}
