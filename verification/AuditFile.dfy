/** Reading the mirrored audit file back (scripts/verify_audit_log.py) and re-verifying it. */
module AuditFile {
  import opened PyText
  import opened Json
  import JsonGrammar
  import opened JsonRoundTrip
  import opened JsonFused
  import opened Hashing
  import opened AuditLog
  import opened AuditTamper

  // ----- lines -----

  predicate IsBreak(c: char) { c == '\n' || c == '\r' }

  function LineLength(s: string): (n: nat)
    ensures n <= |s| && (forall i | 0 <= i < n :: !IsBreak(s[i])) && (n < |s| ==> IsBreak(s[n]))
  {
    if s == [] || IsBreak(s[0]) then 0 else 1 + LineLength(s[1..])
  }

  /** The lines of a text file read with universal newlines, without their ends. */
  function Lines(s: string): seq<string>
    decreases |s|
  {
    if s == [] then []
    else
      var n := LineLength(s);
      if n == |s| then [s]
      else if s[n] == '\r' && n + 1 < |s| && s[n + 1] == '\n' then [s[..n]] + Lines(s[n + 2..])
      else [s[..n]] + Lines(s[n + 1..])
  }

  /** The characters `str.strip()` removes. */
  predicate IsSpace(c: char) {
    || '\t' <= c <= '\r' || (28 <= c as int <= 32) || c as int in {0x85, 0xA0, 0x1680}
    || 0x2000 <= c as int <= 0x200A || c as int in {0x2028, 0x2029, 0x202F, 0x205F, 0x3000}
  }

  function StripLeft(s: string): (r: string)
    ensures r == [] || !IsSpace(r[0])
  {
    if s != [] && IsSpace(s[0]) then StripLeft(s[1..]) else s
  }

  function StripRight(s: string): (r: string)
    ensures r == [] || !IsSpace(r[|r| - 1])
  {
    if s != [] && IsSpace(s[|s| - 1]) then StripRight(s[..|s| - 1]) else s
  }

  function Strip(s: string): string { StripRight(StripLeft(s)) }

  // ----- loading -----

  /** What one line of the file amounts to. */
  datatype LineKind = Blank | Entry(entry: AuditEntry) | Malformed

  function KindOf(fl: FloatReader, line: string): LineKind {
    var s := Strip(line);
    if s == "" then Blank else
      match Parse(fl, s)
      case None => Malformed
      case Some(v) =>
        match EntryFromDict(v)
        case None => Malformed
        case Some(e) => Entry(e)
  }

  /** The entries of the lines that hold one. */
  function EntriesOf(fl: FloatReader, lines: seq<string>): seq<AuditEntry> {
    if lines == [] then []
    else
      var before := EntriesOf(fl, lines[..|lines| - 1]);
      match KindOf(fl, lines[|lines| - 1])
      case Entry(e) => before + [e]
      case _ => before
  }

  lemma {:induction false} EntriesOfPrefix(fl: FloatReader, lines: seq<string>, n: nat)
    requires n <= |lines|
    ensures n == 0 ==> EntriesOf(fl, lines[..n]) == []
    ensures n > 0 ==>
              var before := EntriesOf(fl, lines[..n - 1]);
              EntriesOf(fl, lines[..n])
              == if KindOf(fl, lines[n - 1]).Entry? then before + [KindOf(fl, lines[n - 1]).entry] else before
  {
    hide KindOf;
    if n > 0 { assert lines[..n][..n - 1] == lines[..n - 1]; }
  }

  datatype Loaded = NoFile | BadLine(lineno: nat) | Loaded(entries: seq<AuditEntry>)

  predicate Readable(fl: FloatReader, lines: seq<string>) {
    forall i | 0 <= i < |lines| :: !KindOf(fl, lines[i]).Malformed?
  }

  /** The verdict on a file's lines: all of them load, or the first malformed one stops the run. */
  predicate LoadOf(fl: FloatReader, lines: seq<string>, r: Loaded) {
    match r
    case NoFile => false
    case Loaded(entries) => Readable(fl, lines) && entries == EntriesOf(fl, lines)
    case BadLine(n) =>
      1 <= n <= |lines| && KindOf(fl, lines[n - 1]).Malformed? && Readable(fl, lines[..n - 1])
  }

  lemma {:induction false} NothingReadable(fl: FloatReader)
    ensures Readable(fl, [])
  {}

  lemma {:induction false} ReadableMore(fl: FloatReader, lines: seq<string>, n: nat)
    requires n < |lines|
    ensures Readable(fl, lines[..n + 1]) <==> Readable(fl, lines[..n]) && !KindOf(fl, lines[n]).Malformed?
  {
    hide KindOf;
    assert lines[..n + 1] == lines[..n] + [lines[n]];
    if Readable(fl, lines[..n + 1]) {
      assert forall i | 0 <= i < n :: lines[..n + 1][i] == lines[..n][i];
    }
  }

  method LoadEntries(fl: FloatReader, file: Option<string>) returns (r: Loaded)
    ensures if file.None? then r.NoFile? else LoadOf(fl, Lines(file.value), r)
  {
    if file.None? {
      return NoFile;
    }
    hide Lines, KindOf, EntriesOf, Readable;
    var lines := Lines(file.value);
    var entries := [];
    EntriesOfPrefix(fl, lines, 0);
    NothingReadable(fl);
    for i := 0 to |lines|
      invariant Readable(fl, lines[..i])
      invariant entries == EntriesOf(fl, lines[..i])
    {
      EntriesOfPrefix(fl, lines, i + 1);
      ReadableMore(fl, lines, i);
      match KindOf(fl, lines[i])
      case Blank =>
      case Malformed => return BadLine(i + 1);
      case Entry(e) => entries := entries + [e];
    }
    assert lines[..|lines|] == lines;
    return Loaded(entries);
  }

  // ----- what loading a line means -----

  /** An entry is what a line holds exactly when its text, stripped, is an object with the six members. */
  lemma {:induction false} KindIff(fl: FloatReader, line: string, e: AuditEntry)
    ensures KindOf(fl, line) == Entry(e) <==>
            Strip(line) != ""
            && Parse(fl, Strip(line))
               == Some(Obj(map[Py("seq") := e.seqNo, Py("ts") := e.ts, Py("event_type") := e.eventType,
                               Py("payload") := e.payload, Py("prev_hash") := e.prevHash,
                               Py("entry_hash") := e.entryHash]))
  {
    hide Strip, Parse;
    EntryFields(e);
    hide Py;
    if KindOf(fl, line) == Entry(e) {
      SameMap(Parse(fl, Strip(line)).value.members, EntryToDict(e));
    }
  }

  predicate AllSpace(s: string) { forall i | 0 <= i < |s| :: IsSpace(s[i]) }

  /** What stripping leaves: the text between white space, neither starting nor ending with any. */
  lemma {:induction false} StripIff(s: string, t: string)
    ensures t == Strip(s) <==>
            (t == "" || (!IsSpace(t[0]) && !IsSpace(t[|t| - 1])))
            && exists a, b :: AllSpace(a) && AllSpace(b) && a + (t + b) == s
  {
    hide IsSpace, StripLeft, StripRight, AllSpace;
    var a, b := Stripped(s);
    if t == "" || (!IsSpace(t[0]) && !IsSpace(t[|t| - 1])) {
      if c, d :| AllSpace(c) && AllSpace(d) && c + (t + d) == s { StripPadded(c, t, d); }
    }
  }

  lemma {:induction false} Stripped(s: string) returns (a: string, b: string)
    ensures AllSpace(a) && AllSpace(b) && a + (Strip(s) + b) == s
    ensures var t := Strip(s); t == "" || (!IsSpace(t[0]) && !IsSpace(t[|t| - 1]))
  {
    hide IsSpace, AllSpace;
    var l;
    a, l := LeftSpace(s);
    b := RightSpace(l);
    assert Strip(s) != "" ==> Strip(s)[0] == l[0];
  }

  lemma {:induction false} StripPadded(a: string, t: string, b: string)
    requires AllSpace(a) && AllSpace(b) && (t == "" || (!IsSpace(t[0]) && !IsSpace(t[|t| - 1])))
    ensures Strip(a + (t + b)) == t
  {
    hide IsSpace, StripLeft, StripRight;
    if t != "" {
      SkipLeft(a, t + b);
      SkipRight(t, b);
    } else {
      assert a + (t + b) == (a + b) + "";
      SkipLeft(a + b, "");
      NothingLeft();
    }
  }

  lemma {:induction false} NothingLeft()
    ensures StripRight("") == ""
  {}

  lemma {:induction false} LeftSpace(s: string) returns (a: string, l: string)
    ensures AllSpace(a) && l == StripLeft(s) && s == a + l
  {
    hide IsSpace;
    l := StripLeft(s);
    if s != [] && IsSpace(s[0]) {
      var rest, _ := LeftSpace(s[1..]);
      a := [s[0]] + rest;
    } else {
      a := "";
    }
  }

  lemma {:induction false} RightSpace(s: string) returns (b: string)
    ensures AllSpace(b) && s == StripRight(s) + b
  {
    hide IsSpace;
    if s != [] && IsSpace(s[|s| - 1]) {
      var rest := RightSpace(s[..|s| - 1]);
      b := rest + [s[|s| - 1]];
    } else {
      b := "";
    }
  }

  lemma {:induction false} SkipLeft(a: string, t: string)
    requires AllSpace(a) && (t == "" || !IsSpace(t[0]))
    ensures StripLeft(a + t) == t
  {
    hide IsSpace;
    if a == "" {
      assert a + t == t;
    } else {
      assert (a + t)[1..] == a[1..] + t;
      SkipLeft(a[1..], t);
    }
  }

  lemma {:induction false} SkipRight(t: string, b: string)
    requires AllSpace(b) && t != "" && !IsSpace(t[|t| - 1])
    ensures StripRight(t + b) == t
  {
    hide IsSpace;
    if b == "" {
      assert t + b == t;
    } else {
      var s := t + b;
      assert s[..|s| - 1] == t + b[..|b| - 1] && s[|s| - 1] == b[|b| - 1];
      SkipRight(t, b[..|b| - 1]);
    }
  }

  /** Where the lines of a file end: at a line feed, a carriage return, the two together, or the end. */
  lemma {:induction false} LinesMeaning(line: string, rest: string)
    requires '\n' !in line && '\r' !in line
    ensures Lines("") == []
    ensures line != "" ==> Lines(line) == [line]
    ensures Lines(line + ("\n" + rest)) == [line] + Lines(rest)
    ensures Lines(line + ("\r\n" + rest)) == [line] + Lines(rest)
    ensures (rest == "" || rest[0] != '\n') ==> Lines(line + ("\r" + rest)) == [line] + Lines(rest)
  {
    NoLines();
    LineEnds(line, "");
    assert line + "" == line;
    FeedEnds(line, rest);
    BothEnd(line, rest);
    if rest == "" || rest[0] != '\n' { ReturnEnds(line, rest); }
  }

  lemma {:induction false} FeedEnds(line: string, rest: string)
    requires '\n' !in line && '\r' !in line
    ensures Lines(line + ("\n" + rest)) == [line] + Lines(rest)
  {
    hide LineLength, Lines;
    var s, n := line + ("\n" + rest), |line|;
    LineEnds(line, "\n" + rest);
    assert s[n] == '\n' && s[..n] == line && s[n + 1..] == rest;
    LinesStep(s);
  }

  lemma {:induction false} BothEnd(line: string, rest: string)
    requires '\n' !in line && '\r' !in line
    ensures Lines(line + ("\r\n" + rest)) == [line] + Lines(rest)
  {
    hide LineLength, Lines;
    var s, n := line + ("\r\n" + rest), |line|;
    LineEnds(line, "\r\n" + rest);
    assert s[n] == '\r' && s[n + 1] == '\n' && s[..n] == line && s[n + 2..] == rest;
    LinesStep(s);
  }

  lemma {:induction false} ReturnEnds(line: string, rest: string)
    requires '\n' !in line && '\r' !in line && (rest == "" || rest[0] != '\n')
    ensures Lines(line + ("\r" + rest)) == [line] + Lines(rest)
  {
    hide LineLength, Lines;
    var s, n := line + ("\r" + rest), |line|;
    LineEnds(line, "\r" + rest);
    assert s[n] == '\r' && s[..n] == line && s[n + 1..] == rest;
    assert rest != "" ==> s[n + 1] == rest[0];
    LinesStep(s);
  }

  lemma {:induction false} LinesStep(s: string)
    requires s != ""
    ensures var n := LineLength(s);
            Lines(s) == if n == |s| then [s]
                        else if s[n] == '\r' && n + 1 < |s| && s[n + 1] == '\n' then [s[..n]] + Lines(s[n + 2..])
                        else [s[..n]] + Lines(s[n + 1..])
  {}

  lemma {:induction false} LineEnds(line: string, rest: string)
    requires '\n' !in line && '\r' !in line && (rest == "" || IsBreak(rest[0]))
    ensures LineLength(line + rest) == |line|
  {
    if line == "" {
      assert line + rest == rest;
    } else {
      assert (line + rest)[1..] == line[1..] + rest;
      LineEnds(line[1..], rest);
    }
  }

  // ----- the file `append` writes, read back -----

  lemma {:induction false} LineLengthOfPrintable(s: string, rest: string)
    requires Printable(s)
    ensures LineLength(s + ("\n" + rest)) == |s|
  {
    var t := s + ("\n" + rest);
    if s == [] {
      assert t[0] == '\n';
    } else {
      assert t[1..] == s[1..] + ("\n" + rest);
      assert forall c <- s[1..] :: c in s;
      LineLengthOfPrintable(s[1..], rest);
      assert s[0] in s && t[0] == s[0];
    }
  }

  lemma {:induction false} FirstLine(s: string, rest: string)
    requires Printable(s)
    ensures Lines(s + ("\n" + rest)) == [s] + Lines(rest)
  {
    var t := s + ("\n" + rest);
    LineLengthOfPrintable(s, rest);
    assert t[..|s|] == s && t[|s| + 1..] == rest && t[|s|] == '\n';
  }

  function EntryLine(e: AuditEntry): (s: string)
    ensures Printable(s) && s != [] && s[0] == '{' && s[|s| - 1] == '}'
  {
    Print(Obj(EntryToDict(e)))
  }

  lemma {:induction false} LastLine(front: string, e: AuditEntry, rest: string)
    ensures front + MirrorLine(e) + rest == front + (EntryLine(e) + ("\n" + rest))
    ensures Lines(EntryLine(e) + ("\n" + rest)) == [EntryLine(e)] + Lines(rest)
  {
    hide Print, EntryToDict, Lines;
    JsonGrammar.Regroup(front, MirrorLine(e), rest);
    JsonGrammar.Regroup(EntryLine(e), "\n", rest);
    FirstLine(EntryLine(e), rest);
  }

  /** The lines of the file are the entry lines, whatever is written after them. */
  lemma {:induction false} FileTextLines(entries: seq<AuditEntry>, rest: string)
    ensures Lines(FileText(entries) + rest) == EntryLines(entries) + Lines(rest)
  {
    hide Lines, EntryLine, MirrorLine;
    if entries == [] {
      assert FileText(entries) + rest == rest;
    } else {
      var init, e := entries[..|entries| - 1], entries[|entries| - 1];
      LastLine(FileText(init), e, rest);
      FileTextLines(init, EntryLine(e) + ("\n" + rest));
      assert EntryLines(entries) == EntryLines(init) + [EntryLine(e)];
    }
  }

  function EntryLines(entries: seq<AuditEntry>): seq<string> {
    seq(|entries|, i requires 0 <= i < |entries| => EntryLine(entries[i]))
  }

  /** The entry as its line reads back. */
  function FusedEntry(fl: FloatReader, e: AuditEntry): AuditEntry {
    AuditEntry(Fused(fl, e.seqNo), Fused(fl, e.ts), Fused(fl, e.eventType), Fused(fl, e.payload), Fused(fl, e.prevHash), Fused(fl, e.entryHash))
  }

  lemma {:induction false} EntryLineKind(fl: FloatReader, e: AuditEntry)
    ensures KindOf(fl, EntryLine(e)) == Entry(FusedEntry(fl, e))
  {
    var s := EntryLine(e);
    assert Strip(s) == s;
    hide Print, Fused, Strip, Parse;
    ParsePrint(fl, Obj(EntryToDict(e)));
    FusedDict(fl, e);
    FromToDict(FusedEntry(fl, e));
  }

  lemma {:induction false} EntryFields(e: AuditEntry)
    ensures var m := EntryToDict(e);
            && m.Keys == {SEQ, TS, EVENT_TYPE, PAYLOAD, PREV_HASH, ENTRY_HASH}
            && m[SEQ] == e.seqNo && m[TS] == e.ts && m[EVENT_TYPE] == e.eventType
            && m[PAYLOAD] == e.payload && m[PREV_HASH] == e.prevHash && m[ENTRY_HASH] == e.entryHash
  {
    FieldNames();
  }

  lemma {:induction false} NamesSmaller()
    ensures var ks := [Py("entry_hash"), Py("event_type"), Py("payload"), Py("prev_hash"), Py("seq"), Py("ts")];
            && (forall i, j | 0 <= i < j < 6 :: Smaller(ks[i], ks[j]))
            && forall i | 0 <= i < 6 :: JoinPairs(ks[i]) == ks[i]
  {
    hide JoinPairs, Smaller;
    var ks := [Py("entry_hash"), Py("event_type"), Py("payload"), Py("prev_hash"), Py("seq"), Py("ts")];
    LiteralKept("entry_hash");
    LiteralKept("event_type");
    LiteralKept("payload");
    LiteralKept("prev_hash");
    LiteralKept("seq");
    LiteralKept("ts");
    assert ks[0][0] == ks[1][0] == 'e' as int && ks[2][0] == ks[3][0] == 'p' as int;
    assert ks[4][0] == 's' as int && ks[5][0] == 't' as int;
    assert ks[0][1] == 'n' as int && ks[1][1] == 'v' as int && ks[0][..1] == ks[1][..1];
    assert ks[2][1] == 'a' as int && ks[3][1] == 'r' as int && ks[2][..1] == ks[3][..1];
    hide Py;
    forall i, j | 0 <= i < j < 6 ensures Smaller(ks[i], ks[j]) {
      SmallerAt(ks[i], ks[j], if (i == 0 && j == 1) || (i == 2 && j == 3) then 1 else 0);
    }
  }

  lemma {:induction false} HashedNamesSmaller()
    ensures var ks := [Py("event_type"), Py("payload"), Py("prev_hash"), Py("seq"), Py("ts")];
            && (forall i, j | 0 <= i < j < 5 :: Smaller(ks[i], ks[j]))
            && forall i | 0 <= i < 5 :: JoinPairs(ks[i]) == ks[i]
  {
    hide JoinPairs, Smaller, Py;
    NamesSmaller();
    var all := [Py("entry_hash"), Py("event_type"), Py("payload"), Py("prev_hash"), Py("seq"), Py("ts")];
    var ks := [Py("event_type"), Py("payload"), Py("prev_hash"), Py("seq"), Py("ts")];
    forall i, j | 0 <= i < j < 5 ensures Smaller(ks[i], ks[j]) {
      assert ks[i] == all[i + 1] && ks[j] == all[j + 1];
    }
    forall i | 0 <= i < 5 ensures JoinPairs(ks[i]) == ks[i] {
      assert ks[i] == all[i + 1];
    }
  }

  /** The members an entry's own hash is taken over, by name and in order. */
  function HashedMembers(e: AuditEntry): seq<(PyStr, Doc)> {
    [(Py("event_type"), DocOf(e.eventType)), (Py("payload"), DocOf(e.payload)), (Py("prev_hash"), DocOf(e.prevHash)),
     (Py("seq"), DocOf(e.seqNo)), (Py("ts"), DocOf(e.ts))]
  }

  /** All six members, by name and in order. */
  function LineMembers(e: AuditEntry): seq<(PyStr, Doc)> {
    [(Py("entry_hash"), DocOf(e.entryHash))] + HashedMembers(e)
  }

  lemma {:induction false} HashedInOrder(e: AuditEntry)
    ensures InOrder(HashedMembers(e), HashedDict(e), [Py("event_type"), Py("payload"), Py("prev_hash"), Py("seq"), Py("ts")])
  {
    hide JoinPairs, DocOf, Smaller, Py, HashedDict;
    var m, ks := HashedDict(e), [Py("event_type"), Py("payload"), Py("prev_hash"), Py("seq"), Py("ts")];
    HashedNamesSmaller();
    HashedFields(e);
    assert m.Keys == {ks[3], ks[4], ks[0], ks[1], ks[2]};
  }

  lemma {:induction false} LineInOrder(e: AuditEntry)
    ensures InOrder(LineMembers(e), EntryToDict(e),
                    [Py("entry_hash"), Py("event_type"), Py("payload"), Py("prev_hash"), Py("seq"), Py("ts")])
  {
    hide JoinPairs, DocOf, Smaller, Py, EntryToDict;
    var m, ks := EntryToDict(e), [Py("entry_hash"), Py("event_type"), Py("payload"), Py("prev_hash"), Py("seq"), Py("ts")];
    NamesSmaller();
    EntryFields(e);
    assert m.Keys == {ks[4], ks[5], ks[1], ks[2], ks[3], ks[0]};
  }

  /** What an entry is hashed from: the canonical spelling of its five other members. */
  lemma {:induction false} HashReads(h: HashFn, e: AuditEntry)
    ensures exists sp :: Canonical(sp) && HexDigest(h(JsonGrammar.Text(sp))) == HashOf(h, e)
                         && JsonGrammar.Meaning(sp) == ObjDoc(HashedMembers(e))
  {
    hide Canonical, JsonGrammar.Text, JsonGrammar.Meaning, Print, HexDigest, InOrder, HashedDict, HashedMembers;
    HashedInOrder(e);
    ObjectText(HashedDict(e), HashedMembers(e), [Py("event_type"), Py("payload"), Py("prev_hash"), Py("seq"), Py("ts")]);
  }

  /** What an entry's line holds: the canonical spelling of its six members, and a line end. */
  lemma {:induction false} LineReads(e: AuditEntry)
    ensures exists sp :: Canonical(sp) && JsonGrammar.Text(sp) + "\n" == MirrorLine(e)
                         && JsonGrammar.Meaning(sp) == ObjDoc(LineMembers(e))
  {
    hide Canonical, JsonGrammar.Text, JsonGrammar.Meaning, Print, InOrder, EntryToDict, LineMembers;
    LineInOrder(e);
    ObjectText(EntryToDict(e), LineMembers(e),
               [Py("entry_hash"), Py("event_type"), Py("payload"), Py("prev_hash"), Py("seq"), Py("ts")]);
  }

  lemma {:induction false} FusedDict(fl: FloatReader, e: AuditEntry)
    ensures Fused(fl, Obj(EntryToDict(e))) == Obj(EntryToDict(FusedEntry(fl, e)))
  {
    hide Fused, Dict, PairFree, Py, EntryToDict, FusedPairs, SortedKeys;
    var m, n := EntryToDict(e), EntryToDict(FusedEntry(fl, e));
    FusedObj(fl, m);
    EntryFields(e);
    EntryFields(FusedEntry(fl, e));
    PlainNames();
    PlainKeysFused(fl, m);
    var r := map k | k in m :: Fused(fl, m[k]);
    assert r.Keys == n.Keys;
    assert r[SEQ] == n[SEQ] && r[TS] == n[TS] && r[EVENT_TYPE] == n[EVENT_TYPE];
    assert r[PAYLOAD] == n[PAYLOAD] && r[PREV_HASH] == n[PREV_HASH] && r[ENTRY_HASH] == n[ENTRY_HASH];
    SameMap(r, n);
  }

  lemma {:induction false} SameMap(m: map<PyStr, Json>, n: map<PyStr, Json>)
    requires m.Keys == n.Keys == {SEQ, TS, EVENT_TYPE, PAYLOAD, PREV_HASH, ENTRY_HASH}
    requires m[SEQ] == n[SEQ] && m[TS] == n[TS] && m[EVENT_TYPE] == n[EVENT_TYPE]
    requires m[PAYLOAD] == n[PAYLOAD] && m[PREV_HASH] == n[PREV_HASH] && m[ENTRY_HASH] == n[ENTRY_HASH]
    ensures m == n
  {
    hide Py;
    forall k | k in m ensures m[k] == n[k] {
      assert k in {SEQ, TS, EVENT_TYPE, PAYLOAD, PREV_HASH, ENTRY_HASH};
    }
  }

  lemma {:induction false} PlainNames()
    ensures PairFree(SEQ) && PairFree(TS) && PairFree(EVENT_TYPE) && PairFree(PAYLOAD) && PairFree(PREV_HASH)
            && PairFree(ENTRY_HASH)
  {
    FieldNames();
  }

  /** `entry_from_dict` undoes `entry_to_dict`. */
  lemma {:induction false} FromToDict(e: AuditEntry)
    ensures EntryFromDict(Obj(EntryToDict(e))) == Some(e)
  {
    EntryFields(e);
    hide EntryToDict;
  }

  function FusedEntries(fl: FloatReader, entries: seq<AuditEntry>): seq<AuditEntry> {
    seq(|entries|, i requires 0 <= i < |entries| => FusedEntry(fl, entries[i]))
  }

  lemma {:induction false} EntriesOfLines(fl: FloatReader, entries: seq<AuditEntry>)
    ensures EntriesOf(fl, EntryLines(entries)) == FusedEntries(fl, entries)
    ensures forall i | 0 <= i < |entries| :: KindOf(fl, EntryLines(entries)[i]).Entry?
  {
    hide KindOf, EntryLine, FusedEntry;
    if entries != [] {
      var init, e := entries[..|entries| - 1], entries[|entries| - 1];
      var lines := EntryLines(entries);
      EntriesOfLines(fl, init);
      EntryLineKind(fl, e);
      assert lines[..|lines| - 1] == EntryLines(init) && lines == EntryLines(init) + [EntryLine(e)];
      forall i | 0 <= i < |entries| ensures KindOf(fl, lines[i]).Entry? {
        if i < |init| { assert lines[i] == EntryLines(init)[i]; }
      }
      assert FusedEntries(fl, entries) == FusedEntries(fl, init) + [FusedEntry(fl, e)];
    }
  }

  /** Every line of a mirrored list loads, and gives the entry of its position as read back. */
  lemma {:induction false} FileRoundTrip(fl: FloatReader, log: seq<AuditEntry>)
    ensures |Lines(FileText(log))| == |log|
    ensures forall i | 0 <= i < |log| :: KindOf(fl, Lines(FileText(log))[i]).Entry?
    ensures EntriesOf(fl, Lines(FileText(log))) == FusedEntries(fl, log)
  {
    hide KindOf, EntryLine, Lines, FileText, EntriesOf;
    EntriesOfLines(fl, log);
    FileTextLines(log, "");
    assert FileText(log) + "" == FileText(log);
    assert Lines("") == [] by { NoLines(); }
    assert EntryLines(log) + [] == EntryLines(log);
  }

  lemma {:induction false} NoLines()
    ensures Lines("") == []
  {}

  // ----- which entries survive the file -----

  /** The loaded entries are the appended ones exactly when no string and no key holds a surrogate pair. */
  lemma {:induction false} FileRoundTripIff(fl: FloatReader, log: seq<AuditEntry>)
    ensures EntriesOf(fl, Lines(FileText(log))) == log <==> AllPlain(fl, log)
  {
    hide FusedEntry, PlainEntry, Lines, FileText, EntriesOf, KindOf;
    FileRoundTrip(fl, log);
    forall i | 0 <= i < |log| ensures FusedEntries(fl, log)[i] == log[i] <==> PlainEntry(fl, log[i]) {
      FusedEntryIdentity(fl, log[i]);
    }
    assert FusedEntries(fl, log) == log <==> forall i | 0 <= i < |log| :: FusedEntries(fl, log)[i] == log[i];
  }

  lemma {:induction false} FusedEntryIdentity(fl: FloatReader, e: AuditEntry)
    ensures FusedEntry(fl, e) == e <==> PlainEntry(fl, e)
  {
    hide Fused, Plain;
    FusedIdentity(fl, e.seqNo);
    FusedIdentity(fl, e.ts);
    FusedIdentity(fl, e.eventType);
    FusedIdentity(fl, e.payload);
    FusedIdentity(fl, e.prevHash);
    FusedIdentity(fl, e.entryHash);
  }

  /** In every object of the contents, fusing pairs in the keys keeps their order. */
  predicate StableEntry(fl: FloatReader, e: AuditEntry) {
    Stable(fl, e.seqNo) && Stable(fl, e.ts) && Stable(fl, e.eventType) && Stable(fl, e.payload)
  }

  /** An entry with plain recorded hashes keeps its text exactly when its keys keep their order. */
  lemma {:induction false} EntryTextIff(fl: FloatReader, e: AuditEntry)
    requires PlainText(e.prevHash)
    ensures EntryText(FusedEntry(fl, e)) == EntryText(e) <==> StableEntry(fl, e)
  {
    hide Fused, EntryText, Stable, DocOf;
    SameTextIff(FusedEntry(fl, e), e);
    FusedDocIff(fl, e.seqNo);
    FusedDocIff(fl, e.ts);
    FusedDocIff(fl, e.eventType);
    FusedDocIff(fl, e.payload);
    PlainTextKept(fl, e.prevHash);
  }

  lemma {:induction false} PlainTextKept(fl: FloatReader, v: Json)
    requires PlainText(v)
    ensures Fused(fl, v) == v
  {
    FusedIdentity(fl, v);
  }

  predicate AllStable(fl: FloatReader, log: seq<AuditEntry>) {
    forall i | 0 <= i < |log| :: StableEntry(fl, log[i])
  }

  lemma {:induction false} LoadedHashes(fl: FloatReader, h: HashFn, log: seq<AuditEntry>)
    requires Intact(h, log)
    ensures SameHashes(log, FusedEntries(fl, log))
  {
    hide Fused, HashOf;
    forall i | 0 <= i < |log|
      ensures FusedEntries(fl, log)[i].prevHash == log[i].prevHash && FusedEntries(fl, log)[i].entryHash == log[i].entryHash
    {
      HashesPlain(h, log, i);
      PlainTextKept(fl, log[i].prevHash);
      PlainTextKept(fl, log[i].entryHash);
    }
  }

  /**
   * The file of an intact log holds the log's texts exactly when in every object the keys keep their
   * order.  Then the loaded list verifies; otherwise it does not, or an old and a new text collide.
   */
  lemma {:induction false} FileVerifiesIff(fl: FloatReader, h: HashFn, log: seq<AuditEntry>)
    requires Intact(h, log)
    ensures var loaded := EntriesOf(fl, Lines(FileText(log)));
            && (SameLog(loaded, log) <==> AllStable(fl, log))
            && (AllStable(fl, log) ==> Intact(h, loaded))
            && (!AllStable(fl, log) ==> !Intact(h, loaded) || Collides(h, log, loaded))
  {
    hide Lines, FileText, EntriesOf, KindOf, Fused, EntryText, StableEntry, Intact;
    var loaded := FusedEntries(fl, log);
    FileRoundTrip(fl, log);
    forall i | 0 <= i < |log| ensures EntryText(loaded[i]) == EntryText(log[i]) <==> StableEntry(fl, log[i]) {
      HashesPlain(h, log, i);
      EntryTextIff(fl, log[i]);
    }
    LoadedHashes(fl, h, log);
    SameHashesIntact(h, log, loaded);
    if !AllStable(fl, log) && Intact(h, loaded) {
      var i :| 0 <= i < |log| && !StableEntry(fl, log[i]);
      assert SameDigest(h, log[i], loaded[i]);
    }
  }

  /** The log of one appended record whose payload does not keep its text. */
  function StraddlingLog(h: HashFn): seq<AuditEntry> {
    Chain(h, [Record(Int(0), Str(Py("decision")), Obj(STRADDLING))])
  }

  /** An untampered file that is reported as altered, unless the two texts of its entry collide. */
  lemma {:induction false} UntamperedReported(fl: FloatReader, h: HashFn, v: Verdict)
    requires IsVerdict(h, EntriesOf(fl, Lines(FileText(StraddlingLog(h)))), v)
    ensures Built(h, StraddlingLog(h))
    ensures v == Verdict(false, Entries(1), Some(Int(0)), Some(EntryHashMismatch))
            || Collides(h, StraddlingLog(h), EntriesOf(fl, Lines(FileText(StraddlingLog(h)))))
  {
    hide Lines, FileText, EntriesOf, KindOf, Fused, EntryText, Stable, Chain;
    var records := [Record(Int(0), Str(Py("decision")), Obj(STRADDLING))];
    var log := StraddlingLog(h);
    ChainIntact(h, records);
    assert RecordOf(log[0]) == records[0];
    TextNotKept(fl);
    FusedTextIff(fl, Obj(STRADDLING));
    HashesPlain(h, log, 0);
    EntryTextIff(fl, log[0]);
    FileRoundTrip(fl, log);
    LoadedHashes(fl, h, log);
    var loaded := FusedEntries(fl, log);
    if !SameDigest(h, log[0], loaded[0]) {
      SameHashesBroken(h, log, loaded, 0, v);
      assert loaded[0].seqNo == Fused(fl, Int(0)) == Int(0) by { IntKept(fl, 0); }
    }
  }

  lemma {:induction false} IntKept(fl: FloatReader, n: int)
    ensures Fused(fl, Int(n)) == Int(n)
  {}

  // ----- what any file can hold -----

  /** Whatever a file holds, its entries have no surrogate pairs. */
  lemma {:induction false} LoadedIsPlain(fl: FloatReader, lines: seq<string>)
    requires Settled(fl)
    ensures AllPlain(fl, EntriesOf(fl, lines))
  {
    hide KindOf, PlainEntry;
    if lines != [] {
      LoadedIsPlain(fl, lines[..|lines| - 1]);
      LineIsPlain(fl, lines[|lines| - 1]);
    }
  }

  lemma {:induction false} LineIsPlain(fl: FloatReader, line: string)
    requires Settled(fl)
    ensures KindOf(fl, line).Entry? ==> PlainEntry(fl, KindOf(fl, line).entry)
  {
    hide Strip, Parse, PairFree;
    ParsedIsPlain(fl, Strip(line));
  }

  /**
   * Two files, edited in any way, that load, verify and end in the same hash hold the same entries, or
   * exhibit a collision or a text that hashes to the genesis value.
   */
  lemma {:induction false} TwoFilesCommit(fl: FloatReader, h: HashFn, f: string, g: string)
    requires Settled(fl)
    requires var a, b := EntriesOf(fl, Lines(f)), EntriesOf(fl, Lines(g));
             && Intact(h, a) && Intact(h, b) && a != [] && b != []
             && a[|a| - 1].entryHash == b[|b| - 1].entryHash
    ensures var a, b := EntriesOf(fl, Lines(f)), EntriesOf(fl, Lines(g));
            a == b || Collides(h, a, b) || HitsGenesis(h, a) || HitsGenesis(h, b)
  {
    hide Lines, EntriesOf, KindOf, Intact, PlainEntry;
    LoadedIsPlain(fl, Lines(f));
    LoadedIsPlain(fl, Lines(g));
    PlainLogCommitment(fl, h, EntriesOf(fl, Lines(f)), EntriesOf(fl, Lines(g)));
  }

  // ----- the whole pipeline -----

  predicate Appendable(r: Record) { r.eventType.Str? && r.payload.Obj? }

  predicate StableRecords(fl: FloatReader, records: seq<Record>) {
    forall i | 0 <= i < |records| :: Stable(fl, records[i].ts) && Stable(fl, records[i].payload)
  }

  lemma {:induction false} StableChain(fl: FloatReader, h: HashFn, records: seq<Record>)
    requires forall i | 0 <= i < |records| :: Appendable(records[i])
    ensures Built(h, Chain(h, records))
    ensures AllStable(fl, Chain(h, records)) <==> StableRecords(fl, records)
  {
    hide Stable, Intact;
    ChainIntact(h, records);
    var log := Chain(h, records);
    forall i | 0 <= i < |records| ensures StableEntry(fl, log[i]) <==> Stable(fl, records[i].ts) && Stable(fl, records[i].payload) {
      assert RecordOf(log[i]) == records[i];
      StableLeaves(fl, log[i].seqNo, log[i].eventType);
    }
    hide StableEntry;
    assert |log| == |records|;
  }

  lemma {:induction false} StableLeaves(fl: FloatReader, n: Json, s: Json)
    requires n.Int? && s.Str?
    ensures Stable(fl, n) && Stable(fl, s)
  {}

  /** Append, mirror, load, verify: intact exactly for payloads whose keys keep their order, up to a collision. */
  method WriteLoadVerify(fl: FloatReader, h: HashFn, records: seq<Record>) returns (v: Verdict, count: nat)
    requires forall i | 0 <= i < |records| :: Appendable(records[i])
    ensures count == |records|
    ensures StableRecords(fl, records) ==> v == Verdict(true, Entries(|records|), None, None)
    ensures !StableRecords(fl, records) ==>
              v != Verdict(true, Entries(|records|), None, None)
              || Collides(h, Chain(h, records), FusedEntries(fl, Chain(h, records)))
  {
    hide Chain, FileText, NextEntry, MirrorLine, Stable, Collides;
    var log := new AuditLog(h, true);
    for i := 0 to |records|
      invariant log.Valid() && fresh(log) && log.hash == h && log.persist
      invariant log.records == records[..i]
    {
      var _ := log.Append(records[i].eventType.s, records[i].payload.members, records[i].ts);
      assert Record(records[i].ts, Str(records[i].eventType.s), Obj(records[i].payload.members)) == records[i];
    }
    assert records[..|records|] == records;
    v, count := LoadVerify(fl, h, records, log.file);
  }

  method LoadVerify(fl: FloatReader, h: HashFn, records: seq<Record>, file: string) returns (v: Verdict, count: nat)
    requires forall i | 0 <= i < |records| :: Appendable(records[i])
    requires file == FileText(Chain(h, records))
    ensures count == |records|
    ensures StableRecords(fl, records) ==> v == Verdict(true, Entries(|records|), None, None)
    ensures !StableRecords(fl, records) ==>
              v != Verdict(true, Entries(|records|), None, None)
              || Collides(h, Chain(h, records), FusedEntries(fl, Chain(h, records)))
  {
    ghost var log := Chain(h, records);
    FileRoundTrip(fl, log);
    hide Chain, FileText, Lines, EntriesOf, KindOf, IsVerdict, FusedEntry;
    var loaded := LoadEntries(fl, Some(file));
    assert Readable(fl, Lines(file));
    v := VerifyChain(h, loaded.entries);
    count := |loaded.entries|;
    FileVerdict(fl, h, records, v);
  }

  lemma {:induction false} FileVerdict(fl: FloatReader, h: HashFn, records: seq<Record>, v: Verdict)
    requires forall i | 0 <= i < |records| :: Appendable(records[i])
    requires IsVerdict(h, FusedEntries(fl, Chain(h, records)), v)
    ensures StableRecords(fl, records) ==> v == Verdict(true, Entries(|records|), None, None)
    ensures !StableRecords(fl, records) ==>
              v != Verdict(true, Entries(|records|), None, None)
              || Collides(h, Chain(h, records), FusedEntries(fl, Chain(h, records)))
  {
    hide Chain, FileText, Lines, EntriesOf, KindOf, GoodAt, Collides, StableEntry, FusedEntry, Stable;
    var log := Chain(h, records);
    StableChain(fl, h, records);
    FileRoundTrip(fl, log);
    FileVerifiesIff(fl, h, log);
    if !Intact(h, FusedEntries(fl, log)) {
      var k :| BrokenAt(h, FusedEntries(fl, log), k, v);
    }
  }
}
