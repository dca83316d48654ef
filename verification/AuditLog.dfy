/**
 * The hash-chained audit log (proxy/audit_log.py): entries, the append operation and its file
 * mirror, and the chain verifier.
 */
module AuditLog {
  import opened PyText
  import opened Json
  import opened Hashing

  lemma {:induction false} HexDigestPairFree(d: seq<Byte>)
    ensures PairFree(HexDigest(d)) && JoinPairs(HexDigest(d)) == HexDigest(d)
  {
    JoinPairsIdentity(HexDigest(d));
  }

  /** Sixty-four zeros. */
  function GenesisHash(): PyStr { seq(64, _ => 48) }

  /** The digest of thirty-two zero bytes. */
  lemma {:induction false} GenesisIsZero()
    ensures GenesisHash() == HexDigest(seq(32, _ => 0))
  {
    var d: seq<Byte> := seq(32, _ => 0);
    forall i | 0 <= i < 64 ensures HexDigest(d)[i] == 48 {
      assert d[i / 2] == 0;
    }
  }

  const SEQ := Py("seq")
  const TS := Py("ts")
  const EVENT_TYPE := Py("event_type")
  const PAYLOAD := Py("payload")
  const PREV_HASH := Py("prev_hash")
  const ENTRY_HASH := Py("entry_hash")

  lemma {:induction false} FieldNames()
    ensures |{SEQ, TS, EVENT_TYPE, PAYLOAD, PREV_HASH, ENTRY_HASH}| == 6
    ensures SEQ != TS && SEQ != EVENT_TYPE && SEQ != PAYLOAD && SEQ != PREV_HASH && SEQ != ENTRY_HASH
    ensures TS != EVENT_TYPE && TS != PAYLOAD && TS != PREV_HASH && TS != ENTRY_HASH
    ensures EVENT_TYPE != PAYLOAD && EVENT_TYPE != PREV_HASH && EVENT_TYPE != ENTRY_HASH
    ensures PAYLOAD != PREV_HASH && PAYLOAD != ENTRY_HASH && PREV_HASH != ENTRY_HASH
    ensures forall k <- [SEQ, TS, EVENT_TYPE, PAYLOAD, PREV_HASH, ENTRY_HASH] :: PairFree(k)
  {
    assert EVENT_TYPE[1] == 'v' as int && ENTRY_HASH[1] == 'n' as int;
    assert SEQ != TS && SEQ != EVENT_TYPE && SEQ != PAYLOAD && SEQ != PREV_HASH && SEQ != ENTRY_HASH;
    assert TS != EVENT_TYPE && TS != PAYLOAD && TS != PREV_HASH && TS != ENTRY_HASH;
    assert EVENT_TYPE != PAYLOAD && EVENT_TYPE != PREV_HASH && EVENT_TYPE != ENTRY_HASH;
    assert PAYLOAD != PREV_HASH && PAYLOAD != ENTRY_HASH && PREV_HASH != ENTRY_HASH;
  }

  /** An entry; one read from a file may hold any JSON value in any field. */
  datatype AuditEntry = AuditEntry(
    seqNo: Json,
    ts: Json,
    eventType: Json,
    payload: Json,
    prevHash: Json,
    entryHash: Json)

  /** What a caller of `append` supplies. */
  datatype Record = Record(ts: Json, eventType: Json, payload: Json)

  /** The dictionary an entry's hash is taken over. */
  function HashedDict(e: AuditEntry): map<PyStr, Json> {
    map[SEQ := e.seqNo, TS := e.ts, EVENT_TYPE := e.eventType, PAYLOAD := e.payload, PREV_HASH := e.prevHash]
  }

  /** The text an entry's own recorded fields hash from. */
  function EntryText(e: AuditEntry): string { Print(Obj(HashedDict(e))) }

  /** The hash of an entry's own recorded fields. */
  function HashOf(h: HashFn, e: AuditEntry): PyStr { HexDigest(h(EntryText(e))) }

  function EntryToDict(e: AuditEntry): map<PyStr, Json> {
    map[SEQ := e.seqNo, TS := e.ts, EVENT_TYPE := e.eventType, PAYLOAD := e.payload, PREV_HASH := e.prevHash,
        ENTRY_HASH := e.entryHash]
  }

  /** `AuditEntry(**data)`: exactly the six fields, whatever they hold. */
  function EntryFromDict(v: Json): Option<AuditEntry> {
    if v.Obj? && v.members.Keys == {SEQ, TS, EVENT_TYPE, PAYLOAD, PREV_HASH, ENTRY_HASH}
    then Some(AuditEntry(v.members[SEQ], v.members[TS], v.members[EVENT_TYPE],
                         v.members[PAYLOAD], v.members[PREV_HASH], v.members[ENTRY_HASH]))
    else None
  }

  // ----- the log -----

  function LastHash(entries: seq<AuditEntry>): Json {
    if entries == [] then Str(GenesisHash()) else entries[|entries| - 1].entryHash
  }

  /** An entry of the given contents after the given ones, linked and hashed. */
  function Linked(h: HashFn, entries: seq<AuditEntry>, seqNo: Json, r: Record): AuditEntry {
    var e := AuditEntry(seqNo, r.ts, r.eventType, r.payload, LastHash(entries), Null);
    e.(entryHash := Str(HashOf(h, e)))
  }

  /** The entry `append` adds after the given ones. */
  function NextEntry(h: HashFn, entries: seq<AuditEntry>, r: Record): AuditEntry {
    Linked(h, entries, Int(|entries|), r)
  }

  /** The entries a sequence of `append` calls leaves in an empty log. */
  function Chain(h: HashFn, records: seq<Record>): (entries: seq<AuditEntry>)
    ensures |entries| == |records|
  {
    if records == [] then []
    else
      var before := Chain(h, records[..|records| - 1]);
      before + [NextEntry(h, before, records[|records| - 1])]
  }

  /** What `append` writes to the file for an entry. */
  function MirrorLine(e: AuditEntry): string {
    Print(Obj(EntryToDict(e))) + "\n"
  }

  /** The file an entry list is mirrored to: one canonical line per entry. */
  function FileText(entries: seq<AuditEntry>): string {
    if entries == [] then ""
    else FileText(entries[..|entries| - 1]) + MirrorLine(entries[|entries| - 1])
  }

  lemma {:induction false} AppendChain(h: HashFn, records: seq<Record>, r: Record)
    ensures Chain(h, records + [r]) == Chain(h, records) + [NextEntry(h, Chain(h, records), r)]
  {
    hide HashOf;
    assert (records + [r])[..|records|] == records;
  }

  lemma {:induction false} AppendFile(entries: seq<AuditEntry>, e: AuditEntry)
    ensures FileText(entries + [e]) == FileText(entries) + MirrorLine(e)
  {
    hide MirrorLine;
    assert (entries + [e])[..|entries|] == entries;
  }

  class AuditLog {
    const hash: HashFn
    const persist: bool
    var entries: seq<AuditEntry>
    var file: string
    ghost var records: seq<Record>

    ghost predicate Valid()
      reads this
    {
      && entries == Chain(hash, records)
      && file == if persist then FileText(entries) else ""
    }

    constructor (hash: HashFn, persist: bool)
      ensures Valid() && this.hash == hash && this.persist == persist
      ensures records == [] && entries == []
    {
      this.hash := hash;
      this.persist := persist;
      entries := [];
      file := "";
      records := [];
    }

    method Append(eventType: PyStr, payload: map<PyStr, Json>, now: Json) returns (entry: AuditEntry)
      requires Valid()
      modifies this`entries, this`file, this`records
      ensures Valid()
      ensures records == old(records) + [Record(now, Str(eventType), Obj(payload))]
      ensures entry == NextEntry(hash, old(entries), Record(now, Str(eventType), Obj(payload)))
      ensures entries == old(entries) + [entry]
      ensures file == if persist then old(file) + MirrorLine(entry) else ""
    {
      hide Chain, FileText, MirrorLine, HashOf;
      ghost var r := Record(now, Str(eventType), Obj(payload));
      var prevHash := if entries == [] then Str(GenesisHash()) else entries[|entries| - 1].entryHash;
      entry := AuditEntry(Int(|entries|), now, Str(eventType), Obj(payload), prevHash, Null);
      entry := entry.(entryHash := Str(HashOf(hash, entry)));
      AppendChain(hash, records, r);
      AppendFile(entries, entry);
      entries := entries + [entry];
      if persist {
        file := file + MirrorLine(entry);
      }
      records := records + [r];
    }
  }

  // ----- verification -----

  datatype Reason = PrevHashMismatch | EntryHashMismatch

  /** How many entries were checked: a number, or one more than a fractional `seq`. */
  datatype Checked = Entries(n: int) | OneMoreThan(text: FloatText)

  /** What `verify_chain` returns; it raises on a break at an entry whose `seq` is not a number. */
  datatype Verdict =
    | Verdict(intact: bool, entriesChecked: Checked, brokenAtSeq: Option<Json>, reason: Option<Reason>)
    | Raises

  /** The number a `seq` counts as; `True` and `False` are numbers too. */
  function CheckedUpTo(seqNo: Json): Option<Checked> {
    match seqNo
    case Int(n) => Some(Entries(n + 1))
    case Bool(b) => Some(Entries(if b then 2 else 1))
    case Float(t) => Some(OneMoreThan(t))
    case _ => None
  }

  function BreakVerdict(seqNo: Json, reason: Reason): Verdict {
    match CheckedUpTo(seqNo)
    case None => Raises
    case Some(checked) => Verdict(false, checked, Some(seqNo), Some(reason))
  }

  predicate LinkOk(entries: seq<AuditEntry>, i: int)
    requires 0 <= i < |entries|
  {
    entries[i].prevHash == LastHash(entries[..i])
  }

  predicate HashOk(h: HashFn, e: AuditEntry) {
    e.entryHash == Str(HashOf(h, e))
  }

  predicate GoodAt(h: HashFn, entries: seq<AuditEntry>, i: int)
    requires 0 <= i < |entries|
  {
    LinkOk(entries, i) && HashOk(h, entries[i])
  }

  /** Every entry carries its own hash and its predecessor's. */
  predicate Intact(h: HashFn, entries: seq<AuditEntry>) {
    forall i | 0 <= i < |entries| :: GoodAt(h, entries, i)
  }

  /** Position k is the first that breaks the chain, and the verdict describes it. */
  predicate BrokenAt(h: HashFn, entries: seq<AuditEntry>, k: int, r: Verdict) {
    && 0 <= k < |entries|
    && (forall i | 0 <= i < k :: GoodAt(h, entries, i))
    && !GoodAt(h, entries, k)
    && r == BreakVerdict(entries[k].seqNo, if LinkOk(entries, k) then EntryHashMismatch else PrevHashMismatch)
  }

  /** The verdict on a list: all of it intact, or its first break. */
  ghost predicate IsVerdict(h: HashFn, entries: seq<AuditEntry>, r: Verdict) {
    if Intact(h, entries) then r == Verdict(true, Entries(|entries|), None, None)
    else exists k :: BrokenAt(h, entries, k, r)
  }

  method VerifyChain(h: HashFn, entries: seq<AuditEntry>) returns (r: Verdict)
    ensures IsVerdict(h, entries, r)
  {
    hide HashOf;
    var expectedPrev := Str(GenesisHash());
    for i := 0 to |entries|
      invariant expectedPrev == LastHash(entries[..i])
      invariant forall j | 0 <= j < i :: GoodAt(h, entries, j)
    {
      var e := entries[i];
      var recomputed := Str(HashOf(h, e));
      if e.prevHash != expectedPrev {
        r := BreakVerdict(e.seqNo, PrevHashMismatch);
        assert BrokenAt(h, entries, i, r);
        return;
      }
      if recomputed != e.entryHash {
        r := BreakVerdict(e.seqNo, EntryHashMismatch);
        assert BrokenAt(h, entries, i, r);
        return;
      }
      expectedPrev := e.entryHash;
    }
    r := Verdict(true, Entries(|entries|), None, None);
  }

  /** The entry names the hash its predecessor records, the first one sixty-four zeros. */
  predicate LinksBack(entries: seq<AuditEntry>, i: int)
    requires 0 <= i < |entries|
  {
    if i == 0 then entries[i].prevHash == Str(HexDigest(seq(32, _ => 0)))
    else entries[i].prevHash == entries[i - 1].entryHash
  }

  /** The entry links back and carries its own hash. */
  predicate SoundAt(h: HashFn, entries: seq<AuditEntry>, i: int)
    requires 0 <= i < |entries|
  {
    LinksBack(entries, i) && entries[i].entryHash == Str(HashOf(h, entries[i]))
  }

  /** What the verdict says of the first unsound entry. */
  predicate Reports(e: AuditEntry, links: bool, r: Verdict) {
    if !e.seqNo.Int? && !e.seqNo.Bool? && !e.seqNo.Float? then r == Raises
    else
      && r.Verdict? && !r.intact && r.brokenAtSeq == Some(e.seqNo)
      && r.reason == Some(if links then EntryHashMismatch else PrevHashMismatch)
      && r.entriesChecked == match e.seqNo
                             case Int(n) => Entries(n + 1)
                             case Bool(b) => if b then Entries(2) else Entries(1)
                             case Float(t) => OneMoreThan(t)
                             case _ => Entries(0)
  }

  lemma {:induction false} SoundIff(h: HashFn, entries: seq<AuditEntry>, i: nat)
    requires i < |entries|
    ensures LinkOk(entries, i) <==> LinksBack(entries, i)
    ensures GoodAt(h, entries, i) <==> SoundAt(h, entries, i)
  {
    hide HashOf;
    GenesisIsZero();
    if i > 0 { assert entries[..i][i - 1] == entries[i - 1]; }
  }

  /** The verdict on any list: all of it sound, or what the first unsound entry makes it. */
  lemma {:induction false} VerdictIff(h: HashFn, entries: seq<AuditEntry>, r: Verdict)
    ensures IsVerdict(h, entries, r) <==>
            if forall i | 0 <= i < |entries| :: SoundAt(h, entries, i)
            then r == Verdict(true, Entries(|entries|), None, None)
            else exists k | 0 <= k < |entries| ::
                   && (forall i | 0 <= i < k :: SoundAt(h, entries, i)) && !SoundAt(h, entries, k)
                   && Reports(entries[k], LinksBack(entries, k), r)
  {
    hide LinkOk, LinksBack, GoodAt, SoundAt, Reports, BreakVerdict;
    forall i | 0 <= i < |entries|
      ensures LinkOk(entries, i) <==> LinksBack(entries, i)
      ensures GoodAt(h, entries, i) <==> SoundAt(h, entries, i)
    {
      SoundIff(h, entries, i);
    }
    forall k | 0 <= k < |entries|
      ensures BrokenAt(h, entries, k, r) <==>
              (forall i | 0 <= i < k :: SoundAt(h, entries, i)) && !SoundAt(h, entries, k)
              && Reports(entries[k], LinksBack(entries, k), r)
    {
      BreakReports(entries[k], LinkOk(entries, k), r);
      SoundIff(h, entries, k);
    }
  }

  lemma {:induction false} BreakReports(e: AuditEntry, links: bool, r: Verdict)
    ensures r == BreakVerdict(e.seqNo, if links then EntryHashMismatch else PrevHashMismatch) <==> Reports(e, links, r)
  {}

  /** A list has one verdict. */
  lemma {:induction false} VerdictUnique(h: HashFn, entries: seq<AuditEntry>, r: Verdict, s: Verdict)
    requires IsVerdict(h, entries, r) && IsVerdict(h, entries, s)
    ensures r == s
  {
    hide GoodAt;
    if !Intact(h, entries) {
      var j :| BrokenAt(h, entries, j, r);
      var k :| BrokenAt(h, entries, k, s);
      assert j == k;
    }
  }

  /** What `append` builds, `verify_chain` accepts, and its positions are its sequence numbers. */
  lemma {:induction false} ChainIntact(h: HashFn, records: seq<Record>)
    ensures Intact(h, Chain(h, records))
    ensures forall i | 0 <= i < |records| ::
              Chain(h, records)[i].seqNo == Int(i) && RecordOf(Chain(h, records)[i]) == records[i]
  {
    hide HashOf;
    if records != [] {
      var init := records[..|records| - 1];
      ChainIntact(h, init);
      var before, all := Chain(h, init), Chain(h, records);
      assert all[..|init|] == before;
      forall i | 0 <= i < |all|
        ensures GoodAt(h, all, i) && all[i].seqNo == Int(i) && RecordOf(all[i]) == records[i]
      {
        if i < |init| {
          assert all[i] == before[i] && records[i] == init[i] && all[..i] == before[..i];
          assert GoodAt(h, before, i);
        } else {
          LinkedIsGood(h, before, Int(i), records[i]);
          assert all[..i] == before;
        }
      }
    }
  }

  /** An entry's hash ignores the hash it records. */
  lemma {:induction false} HashIgnoresItself(h: HashFn, e: AuditEntry, recorded: Json)
    ensures HashOf(h, e.(entryHash := recorded)) == HashOf(h, e)
  {
    hide Print;
  }

  lemma {:induction false} LinkedIsGood(h: HashFn, entries: seq<AuditEntry>, seqNo: Json, r: Record)
    ensures var e := Linked(h, entries, seqNo, r);
            HashOk(h, e) && e.prevHash == LastHash(entries) && e.seqNo == seqNo && RecordOf(e) == r
  {
    hide HashOf;
    var e := AuditEntry(seqNo, r.ts, r.eventType, r.payload, LastHash(entries), Null);
    HashIgnoresItself(h, e, Str(HashOf(h, e)));
  }

  function RecordOf(e: AuditEntry): Record {
    Record(e.ts, e.eventType, e.payload)
  }
}
