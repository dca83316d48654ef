/** How the addon's events become audit log records, and what the log of a whole run amounts to. */
module AuditTrail {
  import opened PyText
  import opened Json
  import opened JsonFused
  import opened Hashing
  import opened Engine
  import opened Protocol
  import Dpop
  import A = AuditLog
  import T = AuditTamper
  import F = AuditFile

  function ProofReasonText(r: Dpop.Reason): PyStr {
    match r
    case ProofOk => Py("ok")
    case MalformedHeader => Py("malformed proof header")
    case InvalidTyp => Py("invalid typ header")
    case AlgorithmNotAllowed(a) => Py("algorithm not allow-listed: ") + a
    case UnsupportedJwk => Py("missing or unsupported jwk in header")
    case InvalidJwk => Py("invalid jwk")
    case BadSignature => Py("signature verification failed")
    case HtmMismatch => Py("htm mismatch")
    case HtuMismatch => Py("htu mismatch")
    case NotFresh => Py("proof not fresh (iat outside window)")
  }

  function ReasonText(r: Reason): PyStr {
    match r
    case MissingProof => Py("missing DPoP proof")
    case ProofInvalid(p) => Py("DPoP invalid: ") + ProofReasonText(p)
    case ProofReplayed => Py("DPoP proof replayed")
    case NoBinding => Py("no binding found for presented token")
    case TokenRevoked => Py("token revoked")
    case Ja4Mismatch => Py("JA4 mismatch")
    case JktMismatch => Py("DPoP jkt mismatch")
    case RiskExceeded => Py("risk threshold exceeded")
    case DecisionOk => Py("ok")
  }

  /** How many of the three hard signals an attacker could match the request matched. */
  function Sophistication(d: Decision): (n: int)
    ensures 0 <= n <= 3
  {
    (if d.dpopValid then 1 else 0) + (if d.presentedJa4 == Some(d.boundJa4) then 1 else 0) + (if d.jktMatch then 1 else 0)
  }

  function SophisticationLabel(n: int): string {
    if n == 0 then "trivial" else if n == 1 then "low" else if n == 2 then "moderate" else "high"
  }

  function OrNull(s: Option<PyStr>): Json { if s.Some? then Str(s.value) else Null }

  function Text(s: string): Json { Str(Py(s)) }

  function EventType(e: Event): string {
    match e
    case RateLimitedEvent(_, _) => "rate_limited"
    case BlockEvent(_, _, _, _) => "block"
    case ChallengePassedEvent(_) => "challenge_passed"
    case ChallengeIssuedEvent(_, _) => "challenge_issued"
    case DecisionEvent(_, _) => "decision"
    case RevocationEvent(_, _) => "revocation"
    case IssuanceEvent(_, _, _, _) => "issuance"
  }

  /** The members of an event's payload. */
  function Fields(e: Event): seq<(string, Json)> {
    match e
    case RateLimitedEvent(key, attempts) => [("key", Str(key)), ("attempts_in_window", Int(attempts))]
    case BlockEvent(ip, ja4, reason, story) =>
      [("source_ip", Str(ip)), ("ja4", OrNull(ja4)), ("reason", Str(ReasonText(reason))),
          ("story_id", OrNull(story))]
    case ChallengePassedEvent(storyId) => [("story_id", Str(storyId))]
    case ChallengeIssuedEvent(storyId, risk) => [("story_id", Str(storyId)), ("risk_score", Int(risk))]
    case DecisionEvent(d, storyId) =>
      [("outcome", Text(if d.outcome.Pass? then "PASS" else "BLOCK")), ("reason", Str(ReasonText(d.reason))),
          ("risk_score", Int(d.riskScore)), ("story_id", Str(storyId)), ("source_ip", Str(d.sourceIp)),
          ("ja4", OrNull(d.presentedJa4)), ("sophistication_score", Int(Sophistication(d))),
          ("sophistication_label", Text(SophisticationLabel(Sophistication(d))))]
    case RevocationEvent(jti, _) => [("jti", Str(jti))]
    case IssuanceEvent(jti, jkt, ja4, ip) =>
      [("jti", Str(jti)), ("jkt", Str(jkt)), ("ja4", Str(ja4)), ("source_ip", Str(ip))]
  }

  function FieldDict(fields: seq<(string, Json)>): map<PyStr, Json> {
    if fields == [] then map[]
    else
      var (name, v) := fields[|fields| - 1];
      FieldDict(fields[..|fields| - 1])[Py(name) := v]
  }

  function Payload(e: Event): map<PyStr, Json> { FieldDict(Fields(e)) }

  /** A revocation is stamped with a fractional clock reading of its own. */
  function Stamp(l: Logged): Json { if l.event.RevocationEvent? then l.event.at else Int(l.ts) }

  function RecordFor(l: Logged): A.Record { A.Record(Stamp(l), Str(Py(EventType(l.event))), Obj(Payload(l.event))) }

  function RecordsFor(log: seq<Logged>): (r: seq<A.Record>)
    ensures |r| == |log|
  {
    if log == [] then [] else RecordsFor(log[..|log| - 1]) + [RecordFor(log[|log| - 1])]
  }

  lemma {:induction false} RecordsMore(log: seq<Logged>, l: Logged)
    ensures RecordsFor(log + [l]) == RecordsFor(log) + [RecordFor(l)]
  {
    hide RecordFor;
    assert (log + [l])[..|log|] == log;
  }

  predicate Ascii(s: string) { forall c <- s :: c < 128 as char }

  lemma {:induction false} AsciiPy(s: string)
    requires Ascii(s)
    ensures AsciiText(Py(s))
  {
    forall i | 0 <= i < |Py(s)| ensures Py(s)[i] < 128 {
      assert s[i] in s;
    }
  }

  lemma {:induction false} AsciiIsPairFree(k: PyStr)
    requires AsciiText(k)
    ensures PairFree(k)
  {}

  lemma {:induction false} AsciiPairFree(s: string)
    requires Ascii(s)
    ensures PairFree(Py(s))
  {
    forall i | 0 <= i < |Py(s)| - 1 ensures !High(Py(s)[i]) {
      assert s[i] in s;
    }
  }

  predicate IsShortField(f: string) {
    f in ["key", "jti", "jkt", "ja4", "reason", "outcome", "source_ip"]
  }

  predicate IsLongField(f: string) {
    f in ["attempts_in_window", "story_id", "risk_score"]
  }

  predicate IsScoreField(f: string) {
    f in ["sophistication_score", "sophistication_label"]
  }

  predicate IsField(f: string) { IsShortField(f) || IsLongField(f) || IsScoreField(f) }

  lemma {:induction false} ShortFieldAscii(f: string)
    requires IsShortField(f)
    ensures Ascii(f)
  {}

  lemma {:induction false} LongFieldAscii(f: string)
    requires IsLongField(f)
    ensures Ascii(f)
  {}

  lemma {:induction false} ScoreFieldAscii(f: string)
    requires IsScoreField(f)
    ensures Ascii(f)
  {}

  lemma {:induction false} FieldAscii(f: string)
    requires IsField(f)
    ensures Ascii(f)
  {
    hide Ascii, IsShortField, IsLongField, IsScoreField;
    if IsShortField(f) {
      ShortFieldAscii(f);
    } else if IsLongField(f) {
      LongFieldAscii(f);
    } else {
      ScoreFieldAscii(f);
    }
  }

  predicate Flat(v: Json) { !v.Obj? && !v.Arr? && !v.Float? }

  /** Every key is ASCII, and no value is an object, a list or a float. */
  predicate FlatDict(m: map<PyStr, Json>) {
    forall k | k in m :: AsciiText(k) && Flat(m[k])
  }

  lemma {:induction false} DictFlat(fields: seq<(string, Json)>)
    requires forall i | 0 <= i < |fields| :: IsField(fields[i].0) && Flat(fields[i].1)
    ensures FlatDict(FieldDict(fields))
  {
    hide IsField, Ascii, Py, AsciiText;
    if fields != [] {
      DictFlat(fields[..|fields| - 1]);
      FieldAscii(fields[|fields| - 1].0);
      AsciiPy(fields[|fields| - 1].0);
    }
  }

  /** Every payload the addon logs survives the file with its text. */
  lemma {:induction false} PayloadOk(fl: FloatReader, e: Event)
    ensures FlatDict(Payload(e)) && Stable(fl, Obj(Payload(e)))
  {
    hide FieldDict, ReasonText, Sophistication, SophisticationLabel, Py, PairFree, AsciiText;
    DictFlat(Fields(e));
    hide Fields;
    forall k | k in Payload(e) ensures PairFree(k) {
      AsciiIsPairFree(k);
    }
    PlainKeepsOrder(Payload(e).Keys);
    forall k | k in Payload(e) ensures Stable(fl, Payload(e)[k]) {
      FlatStable(fl, Payload(e)[k]);
    }
    hide Payload, KeysKeepOrder;
  }

  lemma {:induction false} FlatStable(fl: FloatReader, v: Json)
    requires Flat(v)
    ensures Stable(fl, v)
  {}

  /** The revocation stamps keep their text, as every printed float does that reads back as itself. */
  predicate StampsRead(fl: FloatReader, log: seq<Logged>) {
    forall i | 0 <= i < |log| && log[i].event.RevocationEvent? :: Stable(fl, log[i].event.at)
  }

  lemma {:induction false} RecordsOk(fl: FloatReader, log: seq<Logged>)
    ensures forall i | 0 <= i < |log| :: RecordsFor(log)[i] == RecordFor(log[i]) && F.Appendable(RecordsFor(log)[i])
    ensures F.StableRecords(fl, RecordsFor(log)) <==> StampsRead(fl, log)
  {
    hide Payload, Py, EventType, Stable;
    forall i | 0 <= i < |log|
      ensures RecordsFor(log)[i] == RecordFor(log[i])
      ensures Stable(fl, RecordFor(log[i]).payload)
      ensures Stable(fl, RecordFor(log[i]).ts) <==> log[i].event.RevocationEvent? ==> Stable(fl, log[i].event.at)
    {
      RecordAt(log, i);
      PayloadOk(fl, log[i].event);
      IntStable(fl, log[i].ts);
    }
  }

  lemma {:induction false} RecordAt(log: seq<Logged>, i: nat)
    requires i < |log|
    ensures RecordsFor(log)[i] == RecordFor(log[i])
  {
    hide RecordFor;
    if i < |log| - 1 { RecordAt(log[..|log| - 1], i); }
  }

  lemma {:induction false} IntStable(fl: FloatReader, n: int)
    ensures Stable(fl, Int(n))
  {}

  /**
   * The audit file of any run of the proxy loads completely, one entry per event in order.  Exactly when
   * the stamps read back as themselves the texts are unchanged; then the loaded chain verifies.
   */
  lemma {:induction false} EveryRunAudits(fl: FloatReader, env: Env, steps: seq<Step>, h: HashFn)
    ensures var log := Run(env, steps).state.log;
            var entries := A.Chain(h, RecordsFor(log));
            var loaded := F.EntriesOf(fl, F.Lines(A.FileText(entries)));
            && F.Readable(fl, F.Lines(A.FileText(entries)))
            && |loaded| == |log| && loaded == F.FusedEntries(fl, entries)
            && (T.SameLog(loaded, entries) <==> StampsRead(fl, log))
            && (StampsRead(fl, log) ==> A.Intact(h, loaded))
  {
    var log := Run(env, steps).state.log;
    hide Run;
    RecordsOk(fl, log);
    hide RecordFor, RecordsFor, Stable, A.Chain, T.SameLog, A.FileText, F.Lines, F.EntriesOf, F.KindOf, F.StableEntry;
    F.StableChain(fl, h, RecordsFor(log));
    F.FileRoundTrip(fl, A.Chain(h, RecordsFor(log)));
    F.FileVerifiesIff(fl, h, A.Chain(h, RecordsFor(log)));
  }
}
