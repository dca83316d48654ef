/**
 * What the hash chain commits to, and where `verify_chain` reports a tampered log.  Every claim holds
 * up to a collision between texts of the logs themselves, or a log text that hashes to the genesis value.
 */
module AuditTamper {
  import opened Json
  import opened JsonRoundTrip
  import opened JsonFused
  import opened Hashing
  import opened AuditLog

  // ----- what an entry's text determines -----

  /** The two entries show the same documents in their hashed fields. */
  predicate SameDocs(a: AuditEntry, b: AuditEntry) {
    && DocOf(a.seqNo) == DocOf(b.seqNo) && DocOf(a.ts) == DocOf(b.ts) && DocOf(a.eventType) == DocOf(b.eventType)
    && DocOf(a.payload) == DocOf(b.payload) && DocOf(a.prevHash) == DocOf(b.prevHash)
  }

  /** Two entries hash from the same text exactly when their hashed fields print alike. */
  lemma {:induction false} SameTextIff(a: AuditEntry, b: AuditEntry)
    ensures EntryText(a) == EntryText(b) <==> SameDocs(a, b)
  {
    hide Print, DocOf;
    var m, n := HashedDict(a), HashedDict(b);
    PrintEqualIff(Obj(m), Obj(n));
    FieldNames();
    assert m.Keys == {SEQ, TS, EVENT_TYPE, PAYLOAD, PREV_HASH} && n.Keys == m.Keys;
    SameKeysDoc(m, n);
    HashedFields(a);
    HashedFields(b);
    hide HashedDict;
    assert forall k | k in m :: k == SEQ || k == TS || k == EVENT_TYPE || k == PAYLOAD || k == PREV_HASH;
  }

  lemma {:induction false} HashedFields(e: AuditEntry)
    ensures var m := HashedDict(e);
            && m.Keys == {SEQ, TS, EVENT_TYPE, PAYLOAD, PREV_HASH}
            && m[SEQ] == e.seqNo && m[TS] == e.ts && m[EVENT_TYPE] == e.eventType
            && m[PAYLOAD] == e.payload && m[PREV_HASH] == e.prevHash
  {
    FieldNames();
  }

  /** The text shows a sequence number and a plain hash as they are. */
  lemma {:induction false} TextShows(a: AuditEntry, b: AuditEntry)
    requires EntryText(a) == EntryText(b)
    ensures a.seqNo.Int? && b.seqNo.Int? ==> a.seqNo == b.seqNo
    ensures PlainText(a.prevHash) && PlainText(b.prevHash) ==> a.prevHash == b.prevHash
  {
    hide EntryText;
    SameTextIff(a, b);
    if PlainText(a.prevHash) && PlainText(b.prevHash) {
      JoinPairsIdentity(a.prevHash.s);
      JoinPairsIdentity(b.prevHash.s);
    }
  }

  predicate PlainText(v: Json) { v.Str? && PairFree(v.s) }

  // ----- exceptions to the theorems -----

  /** Two entries, one of each list, hash alike from different texts. */
  predicate Collides(h: HashFn, a: seq<AuditEntry>, b: seq<AuditEntry>) {
    exists i, j | 0 <= i < |a| && 0 <= j < |b| ::
      EntryText(a[i]) != EntryText(b[j]) && h(EntryText(a[i])) == h(EntryText(b[j]))
  }

  /** Some entry's text hashes to the genesis value. */
  predicate HitsGenesis(h: HashFn, a: seq<AuditEntry>) {
    exists i | 0 <= i < |a| :: HashOf(h, a[i]) == GenesisHash()
  }

  /** The lists have the same texts, entry for entry. */
  predicate SameLog(a: seq<AuditEntry>, b: seq<AuditEntry>) {
    |a| == |b| && forall i | 0 <= i < |a| :: EntryText(a[i]) == EntryText(b[i])
  }

  // ----- commitment -----

  lemma {:induction false} LinkBack(h: HashFn, a: seq<AuditEntry>, i: nat)
    requires Intact(h, a) && i < |a|
    ensures a[i].prevHash == if i == 0 then Str(GenesisHash()) else a[i - 1].entryHash
  {
    assert GoodAt(h, a, i);
  }

  lemma {:induction false} IntactPrefix(h: HashFn, a: seq<AuditEntry>, n: nat)
    requires Intact(h, a) && n <= |a|
    ensures Intact(h, a[..n])
  {
    hide HashOf;
    forall i | 0 <= i < n ensures GoodAt(h, a[..n], i) {
      assert GoodAt(h, a, i) && a[..n][..i] == a[..i];
    }
  }

  /** In an intact list every recorded hash is plain hexadecimal text. */
  lemma {:induction false} HashesPlain(h: HashFn, a: seq<AuditEntry>, i: nat)
    requires Intact(h, a) && i < |a|
    ensures PlainText(a[i].prevHash) && PlainText(a[i].entryHash)
  {
    assert GoodAt(h, a, i);
    HexDigestPairFree(h(EntryText(a[i])));
    LinkBack(h, a, i);
    if i > 0 {
      assert GoodAt(h, a, i - 1);
      HexDigestPairFree(h(EntryText(a[i - 1])));
    } else {
      JoinPairsIdentity(GenesisHash());
    }
  }

  /** Equal hashes of two sound entries: the same text, or a collision. */
  lemma {:induction false} SameHashSameText(h: HashFn, a: seq<AuditEntry>, b: seq<AuditEntry>, i: nat, j: nat)
    requires i < |a| && j < |b| && HashOk(h, a[i]) && HashOk(h, b[j])
    requires a[i].entryHash == b[j].entryHash && !Collides(h, a, b)
    ensures EntryText(a[i]) == EntryText(b[j])
  {
    hide EntryText;
    HexDigestInjective(h(EntryText(a[i])), h(EntryText(b[j])));
  }

  /** Two intact lists with the same last hash have the same texts throughout. */
  lemma {:induction false} WholeLogCommitment(h: HashFn, a: seq<AuditEntry>, b: seq<AuditEntry>)
    requires Intact(h, a) && Intact(h, b)
    requires a != [] && b != [] && a[|a| - 1].entryHash == b[|b| - 1].entryHash
    ensures SameLog(a, b) || Collides(h, a, b) || HitsGenesis(h, a) || HitsGenesis(h, b)
    decreases |a|
  {
    hide Intact, EntryText, GenesisHash, Collides, HitsGenesis;
    if !Collides(h, a, b) && !HitsGenesis(h, a) && !HitsGenesis(h, b) {
      var m, n := |a| - 1, |b| - 1;
      LastEntriesAgree(h, a, b);
      LinkBack(h, a, m);
      LinkBack(h, b, n);
      if m > 0 && n > 0 {
        IntactPrefix(h, a, m);
        IntactPrefix(h, b, n);
        NoNewCollisions(h, a, b, m, n);
        WholeLogCommitment(h, a[..m], b[..n]);
        forall i | 0 <= i < |a| ensures EntryText(a[i]) == EntryText(b[i]) {
          if i < m { assert a[..m][i] == a[i] && b[..n][i] == b[i]; }
        }
      } else if m > 0 {
        NoGenesisLink(h, a, m);
      } else if n > 0 {
        NoGenesisLink(h, b, n);
      }
    }
  }

  lemma {:induction false} LastEntriesAgree(h: HashFn, a: seq<AuditEntry>, b: seq<AuditEntry>)
    requires Intact(h, a) && Intact(h, b) && !Collides(h, a, b)
    requires a != [] && b != [] && a[|a| - 1].entryHash == b[|b| - 1].entryHash
    ensures EntryText(a[|a| - 1]) == EntryText(b[|b| - 1])
    ensures a[|a| - 1].prevHash == b[|b| - 1].prevHash
  {
    hide EntryText, HashOf;
    var m, n := |a| - 1, |b| - 1;
    assert GoodAt(h, a, m) && GoodAt(h, b, n);
    SameHashSameText(h, a, b, m, n);
    TextShows(a[m], b[n]);
    HashesPlain(h, a, m);
    HashesPlain(h, b, n);
  }

  lemma {:induction false} NoNewCollisions(h: HashFn, a: seq<AuditEntry>, b: seq<AuditEntry>, m: nat, n: nat)
    requires m <= |a| && n <= |b|
    ensures Collides(h, a[..m], b[..n]) ==> Collides(h, a, b)
    ensures HitsGenesis(h, a[..m]) ==> HitsGenesis(h, a)
    ensures HitsGenesis(h, b[..n]) ==> HitsGenesis(h, b)
  {
    hide HashOf, EntryText;
  }

  lemma {:induction false} NoGenesisLink(h: HashFn, a: seq<AuditEntry>, i: nat)
    requires Intact(h, a) && 0 < i < |a| && !HitsGenesis(h, a)
    ensures a[i].prevHash != Str(GenesisHash())
  {
    hide HashOf;
    assert GoodAt(h, a, i) && GoodAt(h, a, i - 1);
  }

  /** No string and no key in any field holds a surrogate pair, as in every entry read from a file. */
  predicate PlainEntry(fl: FloatReader, e: AuditEntry) {
    Plain(fl, e.seqNo) && Plain(fl, e.ts) && Plain(fl, e.eventType) && Plain(fl, e.payload) && Plain(fl, e.prevHash) && Plain(fl, e.entryHash)
  }

  predicate AllPlain(fl: FloatReader, a: seq<AuditEntry>) {
    forall i | 0 <= i < |a| :: PlainEntry(fl, a[i])
  }

  /** Plain entries with one text agree in every hashed field. */
  lemma {:induction false} PlainTextDetermines(fl: FloatReader, a: AuditEntry, b: AuditEntry)
    requires PlainEntry(fl, a) && PlainEntry(fl, b) && EntryText(a) == EntryText(b)
    ensures a == b.(entryHash := a.entryHash)
  {
    hide EntryText, DocOf, Plain, Print;
    SameTextIff(a, b);
    SameDocPlain(fl, a.seqNo, b.seqNo);
    SameDocPlain(fl, a.ts, b.ts);
    SameDocPlain(fl, a.eventType, b.eventType);
    SameDocPlain(fl, a.payload, b.payload);
    SameDocPlain(fl, a.prevHash, b.prevHash);
  }

  lemma {:induction false} SameDocPlain(fl: FloatReader, v: Json, w: Json)
    requires Plain(fl, v) && Plain(fl, w) && DocOf(v) == DocOf(w)
    ensures v == w
  {
    hide DocOf, Plain, Print;
    PrintEqualIff(v, w);
    PlainPrintInjective(fl, v, w);
  }

  /** With plain strings and keys, the last hash of an intact log fixes the log itself. */
  lemma {:induction false} PlainLogCommitment(fl: FloatReader, h: HashFn, a: seq<AuditEntry>, b: seq<AuditEntry>)
    requires Intact(h, a) && Intact(h, b) && AllPlain(fl, a) && AllPlain(fl, b)
    requires a != [] && b != [] && a[|a| - 1].entryHash == b[|b| - 1].entryHash
    ensures a == b || Collides(h, a, b) || HitsGenesis(h, a) || HitsGenesis(h, b)
  {
    hide EntryText, PlainEntry;
    WholeLogCommitment(h, a, b);
    if SameLog(a, b) {
      forall i | 0 <= i < |a| ensures a[i] == b[i] {
        assert GoodAt(h, a, i) && GoodAt(h, b, i);
        PlainTextDetermines(fl, a[i], b[i]);
      }
    }
  }

  // ----- exactly what `verify_chain` accepts -----

  /** What `append` builds (`ChainIntact`): an intact list whose sequence numbers are its positions. */
  predicate Built(h: HashFn, log: seq<AuditEntry>) {
    Intact(h, log) && forall i | 0 <= i < |log| :: log[i].seqNo == Int(i)
  }

  /** The list with every link and hash computed anew. */
  function Relink(h: HashFn, log: seq<AuditEntry>): (r: seq<AuditEntry>)
    ensures |r| == |log|
  {
    if log == [] then []
    else
      var before, e := Relink(h, log[..|log| - 1]), log[|log| - 1];
      before + [Linked(h, before, e.seqNo, RecordOf(e))]
  }

  lemma {:induction false} RelinkPrefix(h: HashFn, log: seq<AuditEntry>, n: nat)
    requires n <= |log|
    ensures Relink(h, log)[..n] == Relink(h, log[..n])
  {
    hide Linked;
    if n < |log| {
      var init := log[..|log| - 1];
      RelinkPrefix(h, init, n);
      assert init[..n] == log[..n] && Relink(h, log)[..n] == Relink(h, init)[..n];
    } else {
      assert log[..n] == log;
    }
  }

  /** Anyone can link a list anew: the result is accepted, whatever the entries say. */
  lemma {:induction false} RelinkIntact(h: HashFn, log: seq<AuditEntry>)
    ensures Intact(h, Relink(h, log))
    ensures forall i | 0 <= i < |log| ::
              Relink(h, log)[i].seqNo == log[i].seqNo && RecordOf(Relink(h, log)[i]) == RecordOf(log[i])
  {
    hide HashOf, Linked;
    var r := Relink(h, log);
    forall i | 0 <= i < |log|
      ensures GoodAt(h, r, i) && r[i].seqNo == log[i].seqNo && RecordOf(r[i]) == RecordOf(log[i])
    {
      RelinkAt(h, log, i);
      LinkedIsGood(h, r[..i], log[i].seqNo, RecordOf(log[i]));
    }
  }

  lemma {:induction false} RelinkAt(h: HashFn, log: seq<AuditEntry>, i: nat)
    requires i < |log|
    ensures var r := Relink(h, log); r[i] == Linked(h, r[..i], log[i].seqNo, RecordOf(log[i]))
  {
    hide Linked;
    RelinkPrefix(h, log, i + 1);
    RelinkPrefix(h, log, i);
    var p := log[..i + 1];
    assert p[..|p| - 1] == log[..i] && Relink(h, log)[i] == Relink(h, p)[i];
  }

  /** A list is accepted exactly when linking it anew changes nothing. */
  lemma {:induction false} IntactIff(h: HashFn, log: seq<AuditEntry>)
    ensures Intact(h, log) <==> Relink(h, log) == log
  {
    RelinkIntact(h, log);
    hide HashOf, Linked;
    if Intact(h, log) && log != [] {
      var m := |log| - 1;
      IntactPrefix(h, log, m);
      IntactIff(h, log[..m]);
      RelinkAt(h, log, m);
      RelinkPrefix(h, log, m);
      assert GoodAt(h, log, m);
      GoodIsLinked(h, log[..m], log[m]);
    }
  }

  lemma {:induction false} GoodIsLinked(h: HashFn, before: seq<AuditEntry>, e: AuditEntry)
    requires HashOk(h, e) && e.prevHash == LastHash(before)
    ensures Linked(h, before, e.seqNo, RecordOf(e)) == e
  {
    hide HashOf;
    HashIgnoresItself(h, e, Null);
  }

  function RecordsOf(log: seq<AuditEntry>): (r: seq<Record>)
    ensures |r| == |log|
  {
    seq(|log|, i requires 0 <= i < |log| => RecordOf(log[i]))
  }

  /** The lists with their positions as sequence numbers that are accepted are exactly those of `append`. */
  lemma {:induction false} BuiltIff(h: HashFn, log: seq<AuditEntry>)
    ensures Built(h, log) <==> exists rs :: log == Chain(h, rs)
  {
    if Built(h, log) {
      BuiltIsChain(h, log);
    }
    if rs :| log == Chain(h, rs) {
      ChainIntact(h, rs);
    }
  }

  lemma {:induction false} BuiltIsChain(h: HashFn, log: seq<AuditEntry>)
    requires Built(h, log)
    ensures log == Chain(h, RecordsOf(log))
  {
    hide HashOf, Linked;
    if log != [] {
      var m := |log| - 1;
      IntactPrefix(h, log, m);
      BuiltIsChain(h, log[..m]);
      assert RecordsOf(log)[..m] == RecordsOf(log[..m]);
      assert GoodAt(h, log, m);
      GoodIsLinked(h, log[..m], log[m]);
    }
  }

  // ----- localisation -----

  /** The entry with the three fields an attacker rewrites. */
  function Rewrite(e: AuditEntry, r: Record): AuditEntry {
    e.(ts := r.ts, eventType := r.eventType, payload := r.payload)
  }

  predicate SameDigest(h: HashFn, a: AuditEntry, b: AuditEntry) { h(EntryText(a)) == h(EntryText(b)) }

  /** The lists record the same hashes. */
  predicate SameHashes(a: seq<AuditEntry>, b: seq<AuditEntry>) {
    |a| == |b| && forall i | 0 <= i < |a| :: a[i].prevHash == b[i].prevHash && a[i].entryHash == b[i].entryHash
  }

  /** Entries that keep the recorded hashes of an intact log are good as far as their digests are the old ones. */
  lemma {:induction false} SameHashesGood(h: HashFn, log: seq<AuditEntry>, other: seq<AuditEntry>, i: nat)
    requires Intact(h, log) && SameHashes(log, other) && i < |log|
    ensures LinkOk(other, i) && (HashOk(h, other[i]) <==> SameDigest(h, log[i], other[i]))
  {
    hide EntryText;
    assert GoodAt(h, log, i);
    if i > 0 { assert log[i - 1].entryHash == other[i - 1].entryHash; }
    if HashOk(h, other[i]) { HexDigestInjective(h(EntryText(log[i])), h(EntryText(other[i]))); }
  }

  /** Such a list is intact exactly when every digest is the old one. */
  lemma {:induction false} SameHashesIntact(h: HashFn, log: seq<AuditEntry>, other: seq<AuditEntry>)
    requires Intact(h, log) && SameHashes(log, other)
    ensures Intact(h, other) <==> forall i | 0 <= i < |log| :: SameDigest(h, log[i], other[i])
  {
    hide HashOk, LinkOk, SameDigest;
    forall i | 0 <= i < |log| ensures GoodAt(h, other, i) <==> SameDigest(h, log[i], other[i]) {
      SameHashesGood(h, log, other, i);
    }
  }

  /** Otherwise the break is reported at the first digest that changed. */
  lemma {:induction false} SameHashesBroken(h: HashFn, log: seq<AuditEntry>, other: seq<AuditEntry>, k: nat, v: Verdict)
    requires Intact(h, log) && SameHashes(log, other) && k < |log| && !SameDigest(h, log[k], other[k])
    requires forall i | 0 <= i < k :: SameDigest(h, log[i], other[i])
    requires IsVerdict(h, other, v)
    ensures v == BreakVerdict(other[k].seqNo, EntryHashMismatch)
  {
    hide HashOk, LinkOk, SameDigest;
    forall i | 0 <= i <= k ensures GoodAt(h, other, i) <==> SameDigest(h, log[i], other[i]) {
      SameHashesGood(h, log, other, i);
    }
    SameHashesGood(h, log, other, k);
    BrokenVerdict(h, other, k, v, BreakVerdict(other[k].seqNo, EntryHashMismatch));
  }

  lemma {:induction false} BrokenVerdict(h: HashFn, bad: seq<AuditEntry>, k: nat, v: Verdict, w: Verdict)
    requires IsVerdict(h, bad, v) && BrokenAt(h, bad, k, w)
    ensures v == w
  {
    hide GoodAt, LinkOk;
    VerdictUnique(h, bad, v, w);
  }

  /**
   * Rewriting entry k and keeping its hashes is reported at entry k, with k + 1 entries checked,
   * exactly when the digest of the entry's text changes.
   */
  lemma {:induction false} RewriteReported(h: HashFn, log: seq<AuditEntry>, k: nat, r: Record, v: Verdict)
    requires Built(h, log) && k < |log|
    requires IsVerdict(h, log[k := Rewrite(log[k], r)], v)
    ensures v == if h(EntryText(Rewrite(log[k], r))) == h(EntryText(log[k]))
                 then Verdict(true, Entries(|log|), None, None)
                 else Verdict(false, Entries(k + 1), Some(Int(k)), Some(EntryHashMismatch))
  {
    hide EntryText, Intact, HashOf;
    var bad := log[k := Rewrite(log[k], r)];
    if SameDigest(h, log[k], bad[k]) {
      SameHashesIntact(h, log, bad);
    } else {
      SameHashesBroken(h, log, bad, k, v);
    }
  }

  /** Entries before the first changed position stay good. */
  lemma {:induction false} GoodBefore(h: HashFn, log: seq<AuditEntry>, bad: seq<AuditEntry>, k: nat)
    requires Intact(h, log) && k <= |log| && k <= |bad| && log[..k] == bad[..k]
    ensures forall i | 0 <= i < k :: GoodAt(h, bad, i)
  {
    hide HashOf;
    forall i | 0 <= i < k ensures GoodAt(h, bad, i) {
      assert GoodAt(h, log, i) && log[..k][i] == log[i] && bad[..k][i] == bad[i];
      assert log[..k][..i] == log[..i] && bad[..k][..i] == bad[..i];
    }
  }

  /** An entry replaced by a sound one with another hash breaks the link of the next entry. */
  lemma {:induction false} NextLinkBreaks(h: HashFn, log: seq<AuditEntry>, k: nat, f: AuditEntry)
    requires Built(h, log) && k + 1 < |log| && HashOk(h, f)
    requires f.prevHash == log[k].prevHash && f.entryHash != log[k].entryHash
    ensures BrokenAt(h, log[k := f], k + 1, Verdict(false, Entries(k + 2), Some(Int(k + 1)), Some(PrevHashMismatch)))
  {
    hide HashOf, GenesisHash;
    var bad := log[k := f];
    GoodBefore(h, log, bad, k);
    LinkBack(h, log, k);
    LinkBack(h, log, k + 1);
    assert bad[..k] == log[..k];
    assert GoodAt(h, log, k);
    assert GoodAt(h, bad, k);
  }

  lemma {:induction false} RehashedEntry(h: HashFn, log: seq<AuditEntry>, k: nat, e: AuditEntry)
    requires Intact(h, log) && k < |log|
    ensures var f := e.(entryHash := Str(HashOf(h, e)));
            HashOk(h, f) && EntryText(f) == EntryText(e)
            && (f.entryHash == log[k].entryHash <==> SameDigest(h, log[k], e))
  {
    hide Print;
    HashIgnoresItself(h, e, Str(HashOf(h, e)));
    assert GoodAt(h, log, k);
    if HashOf(h, e) == HashOf(h, log[k]) { HexDigestInjective(h(EntryText(e)), h(EntryText(log[k]))); }
  }

  /**
   * Rewriting a non-last entry k and recomputing its own hash is reported at the next entry, exactly
   * when the digest of the entry's text changes.
   */
  lemma {:induction false} RehashReported(h: HashFn, log: seq<AuditEntry>, k: nat, r: Record, v: Verdict)
    requires Built(h, log) && k + 1 < |log|
    requires var e' := Rewrite(log[k], r); IsVerdict(h, log[k := e'.(entryHash := Str(HashOf(h, e')))], v)
    ensures v == if h(EntryText(Rewrite(log[k], r))) == h(EntryText(log[k]))
                 then Verdict(true, Entries(|log|), None, None)
                 else Verdict(false, Entries(k + 2), Some(Int(k + 1)), Some(PrevHashMismatch))
  {
    hide EntryText, HashOf, Intact;
    var e' := Rewrite(log[k], r);
    var f := e'.(entryHash := Str(HashOf(h, e')));
    RehashedEntry(h, log, k, e');
    if SameDigest(h, log[k], e') {
      SameHashesIntact(h, log, log[k := f]);
    } else {
      NextLinkBreaks(h, log, k, f);
      BrokenVerdict(h, log[k := f], k + 1, v, Verdict(false, Entries(k + 2), Some(Int(k + 1)), Some(PrevHashMismatch)));
    }
  }

  /** Deleting entry k, not the last, is reported at the entry that took its place. */
  lemma {:induction false} DeletionReported(h: HashFn, log: seq<AuditEntry>, k: nat, v: Verdict)
    requires Built(h, log) && k + 1 < |log|
    requires IsVerdict(h, log[..k] + log[k + 1..], v)
    ensures v == Verdict(false, Entries(k + 2), Some(Int(k + 1)), Some(PrevHashMismatch))
            || Collides(h, log, log) || HitsGenesis(h, log)
  {
    var bad := log[..k] + log[k + 1..];
    if !Collides(h, log, log) && !HitsGenesis(h, log) {
      HashesApart(h, log, k, k);
      hide Intact, Collides, HitsGenesis, HashOf, GenesisHash;
      assert bad[..k] == log[..k];
      GoodBefore(h, log, bad, k);
      LinkBack(h, log, k + 1);
      assert bad[k] == log[k + 1] && !LinkOk(bad, k);
      var w := Verdict(false, Entries(k + 2), Some(Int(k + 1)), Some(PrevHashMismatch));
      BrokenVerdict(h, bad, k, v, w);
    }
  }

  /**
   * Inserting an entry before entry k is reported at it, by its link or else by its hash; an inserted entry
   * that is linked and hashed is reported at the entry behind it, unless it carries the hash before it.
   */
  lemma {:induction false} InsertionReported(h: HashFn, log: seq<AuditEntry>, k: nat, e: AuditEntry, v: Verdict)
    requires Built(h, log) && k < |log| && IsVerdict(h, log[..k] + [e] + log[k..], v)
    ensures v == if e.prevHash != LastHash(log[..k]) then BreakVerdict(e.seqNo, PrevHashMismatch)
                 else if e.entryHash != Str(HashOf(h, e)) then BreakVerdict(e.seqNo, EntryHashMismatch)
                 else if e.entryHash != LastHash(log[..k]) then Verdict(false, Entries(k + 1), Some(Int(k)), Some(PrevHashMismatch))
                 else Verdict(true, Entries(|log| + 1), None, None)
  {
    hide HashOf, GenesisHash;
    var bad := log[..k] + [e] + log[k..];
    assert bad[..k] == log[..k] && bad[k] == e && bad[..k + 1] == log[..k] + [e];
    GoodBefore(h, log, bad, k);
    LinkBack(h, log, k);
    assert GoodAt(h, log, k);
    if e.prevHash != LastHash(log[..k]) || e.entryHash != Str(HashOf(h, e)) {
      BrokenVerdict(h, bad, k, v,
                    BreakVerdict(e.seqNo, if LinkOk(bad, k) then EntryHashMismatch else PrevHashMismatch));
    } else if e.entryHash != LastHash(log[..k]) {
      assert GoodAt(h, bad, k) && bad[k + 1] == log[k];
      BrokenVerdict(h, bad, k + 1, v, Verdict(false, Entries(k + 1), Some(Int(k)), Some(PrevHashMismatch)));
    } else {
      assert GoodAt(h, bad, k);
      forall i | k < i < |bad| ensures GoodAt(h, bad, i) {
        ShiftedGood(h, log, bad, k, i);
      }
    }
  }

  /** Behind an inserted entry that carries the hash before it, every entry is as good as it was. */
  lemma {:induction false} ShiftedGood(h: HashFn, log: seq<AuditEntry>, bad: seq<AuditEntry>, k: nat, i: nat)
    requires Intact(h, log) && k < i < |bad| == |log| + 1
    requires bad[k].entryHash == LastHash(log[..k]) && forall j | k < j < |bad| :: bad[j] == log[j - 1]
    ensures GoodAt(h, bad, i)
  {
    hide HashOf, GenesisHash;
    assert GoodAt(h, log, i - 1);
    if i > k + 1 { assert bad[i - 1] == log[i - 2]; }
  }

  /** Swapping two entries is reported where the later one now stands, with its seq. */
  lemma {:induction false} SwapReported(h: HashFn, log: seq<AuditEntry>, i: nat, j: nat, v: Verdict)
    requires Built(h, log) && i < j < |log| && IsVerdict(h, log[i := log[j]][j := log[i]], v)
    ensures v == Verdict(false, Entries(j + 1), Some(Int(j)), Some(PrevHashMismatch))
            || Collides(h, log, log) || HitsGenesis(h, log)
  {
    hide Intact, Collides, HitsGenesis, HashOf, GenesisHash, BrokenAt, IsVerdict;
    if !Collides(h, log, log) && !HitsGenesis(h, log) {
      HashesApart(h, log, i, j - 1);
      SwapBreaks(h, log, i, j);
      BrokenVerdict(h, log[i := log[j]][j := log[i]], i, v,
                    Verdict(false, Entries(j + 1), Some(Int(j)), Some(PrevHashMismatch)));
    }
  }

  lemma {:induction false} SwapBreaks(h: HashFn, log: seq<AuditEntry>, i: nat, j: nat)
    requires Built(h, log) && i < j < |log| && log[j - 1].entryHash != LastHash(log[..i])
    ensures BrokenAt(h, log[i := log[j]][j := log[i]], i, Verdict(false, Entries(j + 1), Some(Int(j)), Some(PrevHashMismatch)))
  {
    hide Intact, HashOf, GenesisHash;
    var bad := log[i := log[j]][j := log[i]];
    assert bad[..i] == log[..i] && bad[i] == log[j];
    GoodBefore(h, log, bad, i);
    LinkBack(h, log, j);
  }

  /** No entry carries the hash that stands before an entry at or before it. */
  lemma {:induction false} HashesApart(h: HashFn, log: seq<AuditEntry>, i: nat, j: nat)
    requires Built(h, log) && i <= j < |log| && !Collides(h, log, log) && !HitsGenesis(h, log)
    ensures log[j].entryHash != LastHash(log[..i])
  {
    hide HashOf, EntryText;
    assert GoodAt(h, log, j);
    if i > 0 && log[j].entryHash == log[i - 1].entryHash {
      assert GoodAt(h, log, i - 1);
      SameHashSameText(h, log, log, j, i - 1);
      TextShows(log[j], log[i - 1]);
    }
  }

  /**
   * Whatever is deleted, inserted, swapped or rewritten, a list that still ends with the log's last
   * hash is not intact, unless it has the log's texts throughout.
   */
  lemma {:induction false} AnyOtherHistoryBroken(h: HashFn, log: seq<AuditEntry>, other: seq<AuditEntry>, v: Verdict)
    requires Intact(h, log) && log != [] && other != []
    requires other[|other| - 1].entryHash == log[|log| - 1].entryHash
    requires !SameLog(log, other) && IsVerdict(h, other, v)
    ensures v == Raises || !v.intact || Collides(h, log, other) || HitsGenesis(h, log) || HitsGenesis(h, other)
  {
    hide HashOf, EntryText;
    if Intact(h, other) {
      WholeLogCommitment(h, log, other);
    }
  }

  // ----- what the chain cannot show -----

  /** Cutting the log short leaves an intact list. */
  lemma {:induction false} TruncationPasses(h: HashFn, log: seq<AuditEntry>, n: nat)
    requires Built(h, log) && n <= |log|
    ensures Built(h, log[..n])
  {
    hide HashOf;
    IntactPrefix(h, log, n);
  }

  /**
   * Rewriting any entry and linking the rest anew leaves an accepted list that differs in that entry's
   * contents alone and keeps everything before it.
   */
  lemma {:induction false} RechainPasses(h: HashFn, log: seq<AuditEntry>, k: nat, r: Record)
    requires Built(h, log) && k < |log|
    ensures var other := Relink(h, log[k := Rewrite(log[k], r)]);
            && Built(h, other) && |other| == |log| && other[..k] == log[..k] && RecordOf(other[k]) == r
            && forall i | 0 <= i < |log| && i != k :: RecordOf(other[i]) == RecordOf(log[i])
  {
    hide HashOf, Intact;
    var bad := log[k := Rewrite(log[k], r)];
    RelinkIntact(h, bad);
    RelinkPrefix(h, bad, k);
    assert bad[..k] == log[..k];
    IntactPrefix(h, log, k);
    IntactIff(h, log[..k]);
  }

  /** Rewriting the last entry and recomputing its hash is that with nothing left to link. */
  lemma {:induction false} LastRewritePasses(h: HashFn, log: seq<AuditEntry>, r: Record)
    requires Built(h, log) && log != []
    ensures var k := |log| - 1; var e' := Rewrite(log[k], r);
            Built(h, log[k := e'.(entryHash := Str(HashOf(h, e')))])
  {
    hide HashOf;
    var k := |log| - 1;
    var bad := log[k := Rewrite(log[k], r)];
    RechainPasses(h, log, k, r);
    RelinkAt(h, bad, k);
    assert GoodAt(h, log, k);
    LinkedRewrite(h, log[..k], log[k], r);
    var e' := Rewrite(log[k], r);
    var f := e'.(entryHash := Str(HashOf(h, e')));
    assert bad[k].seqNo == log[k].seqNo && RecordOf(bad[k]) == r;
    assert Relink(h, bad)[k] == f;
    assert Relink(h, bad) == log[..k] + [f] == log[k := f];
  }

  lemma {:induction false} LinkedRewrite(h: HashFn, before: seq<AuditEntry>, e: AuditEntry, r: Record)
    requires e.prevHash == LastHash(before)
    ensures var e' := Rewrite(e, r); Linked(h, before, e.seqNo, r) == e'.(entryHash := Str(HashOf(h, e')))
  {
    hide HashOf;
    var e' := Rewrite(e, r);
    HashIgnoresItself(h, e', Null);
    var x := AuditEntry(e.seqNo, r.ts, r.eventType, r.payload, LastHash(before), Null);
    assert x == e'.(entryHash := Null);
  }

  /**
   * Why an anchored last hash finds such a list out: from the first text that differs on, every stored
   * hash does.
   */
  lemma {:induction false} LaterHashesDiffer(h: HashFn, a: seq<AuditEntry>, b: seq<AuditEntry>, k: nat, j: nat)
    requires Intact(h, a) && Intact(h, b) && k <= j < |a| && j < |b|
    requires EntryText(a[k]) != EntryText(b[k])
    ensures a[j].entryHash != b[j].entryHash || Collides(h, a, b)
    ensures EntryText(a[j]) != EntryText(b[j]) || Collides(h, a, b)
  {
    hide EntryText, HashOf;
    if !Collides(h, a, b) {
      assert GoodAt(h, a, j) && GoodAt(h, b, j);
      if k < j {
        LaterHashesDiffer(h, a, b, k, j - 1);
        LinkBack(h, a, j);
        LinkBack(h, b, j);
        HashesPlain(h, a, j);
        HashesPlain(h, b, j);
        if EntryText(a[j]) == EntryText(b[j]) { TextShows(a[j], b[j]); }
      }
      if a[j].entryHash == b[j].entryHash { SameHashSameText(h, a, b, j, j); }
    }
  }
}
