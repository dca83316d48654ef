/**
 * What the audit file says of the events: a reader that goes by the names and texts in an entry alone
 * (proxy/addon.py, proxy/engine.py, proxy/dpop.py).
 */
module AuditReader {
  import opened PyText
  import opened Json
  import opened JsonRoundTrip
  import opened JsonFused
  import opened Hashing
  import opened Engine
  import opened Protocol
  import opened AuditTrail
  import Dpop
  import Ja4
  import AuditReport
  import A = AuditLog
  import T = AuditTamper
  import F = AuditFile

  // ----- the reader -----

  /** What an entry says that an event was. */
  datatype Told =
    | ToldLimited(key: PyStr, attempts: int)
    | ToldBlock(sourceIp: PyStr, ja4: Option<PyStr>, reason: Reason, token: Option<PyStr>)
    | ToldChallengePassed(story: PyStr)
    | ToldChallengeIssued(story: PyStr, risk: int)
    | ToldDecision(passed: bool, reason: Reason, risk: int, story: PyStr, sourceIp: PyStr, ja4: Option<PyStr>,
                   score: int, grade: PyStr)
    | ToldRevocation(jti: PyStr)
    | ToldIssuance(jti: PyStr, jkt: PyStr, boundJa4: PyStr, sourceIp: PyStr)

  function StrAt(m: map<PyStr, Json>, name: string): Option<PyStr> {
    if Py(name) in m && m[Py(name)].Str? then Some(m[Py(name)].s) else None
  }

  function IntAt(m: map<PyStr, Json>, name: string): Option<int> {
    if Py(name) in m && m[Py(name)].Int? then Some(m[Py(name)].n) else None
  }

  /** A member that is text or null. */
  function OptAt(m: map<PyStr, Json>, name: string): Option<Option<PyStr>> {
    if Py(name) !in m then None
    else match m[Py(name)] case Null => Some(None) case Str(s) => Some(Some(s)) case _ => None
  }

  /** The reason a text names. */
  function ReasonTold(t: PyStr): Option<Reason> {
    if t == Py("missing DPoP proof") then Some(MissingProof)
    else if t == Py("DPoP proof replayed") then Some(ProofReplayed)
    else if t == Py("no binding found for presented token") then Some(NoBinding)
    else if t == Py("token revoked") then Some(TokenRevoked)
    else if t == Py("JA4 mismatch") then Some(Ja4Mismatch)
    else if t == Py("DPoP jkt mismatch") then Some(JktMismatch)
    else if t == Py("risk threshold exceeded") then Some(RiskExceeded)
    else if t == Py("ok") then Some(DecisionOk)
    else if |t| < 14 || t[..14] != Py("DPoP invalid: ") then None
    else match ProofReasonTold(t[14..]) case None => None case Some(r) => Some(ProofInvalid(r))
  }

  function ProofReasonTold(t: PyStr): Option<Dpop.Reason> {
    if t == Py("malformed proof header") then Some(Dpop.MalformedHeader)
    else if t == Py("invalid typ header") then Some(Dpop.InvalidTyp)
    else if t == Py("missing or unsupported jwk in header") then Some(Dpop.UnsupportedJwk)
    else if t == Py("invalid jwk") then Some(Dpop.InvalidJwk)
    else if t == Py("signature verification failed") then Some(Dpop.BadSignature)
    else if t == Py("htm mismatch") then Some(Dpop.HtmMismatch)
    else if t == Py("htu mismatch") then Some(Dpop.HtuMismatch)
    else if t == Py("proof not fresh (iat outside window)") then Some(Dpop.NotFresh)
    else if t == Py("ok") then Some(Dpop.ProofOk)
    else if |t| >= 28 && t[..28] == Py("algorithm not allow-listed: ") then Some(Dpop.AlgorithmNotAllowed(t[28..]))
    else None
  }

  function PassTold(m: map<PyStr, Json>): Option<bool> {
    match StrAt(m, "outcome")
    case None => None
    case Some(t) => if t == Py("PASS") then Some(true) else if t == Py("BLOCK") then Some(false) else None
  }

  function ReasonAt(m: map<PyStr, Json>): Option<Reason> {
    match StrAt(m, "reason") case None => None case Some(t) => ReasonTold(t)
  }

  function TellLimited(m: map<PyStr, Json>): Option<Told> {
    if m.Keys == {Py("key"), Py("attempts_in_window")} && StrAt(m, "key").Some? && IntAt(m, "attempts_in_window").Some?
    then Some(ToldLimited(StrAt(m, "key").value, IntAt(m, "attempts_in_window").value))
    else None
  }

  function TellBlock(m: map<PyStr, Json>): Option<Told> {
    if m.Keys == {Py("source_ip"), Py("ja4"), Py("reason"), Py("story_id")} && StrAt(m, "source_ip").Some?
       && OptAt(m, "ja4").Some? && ReasonAt(m).Some? && OptAt(m, "story_id").Some?
    then Some(ToldBlock(StrAt(m, "source_ip").value, OptAt(m, "ja4").value, ReasonAt(m).value, OptAt(m, "story_id").value))
    else None
  }

  function TellPassed(m: map<PyStr, Json>): Option<Told> {
    if m.Keys == {Py("story_id")} && StrAt(m, "story_id").Some?
    then Some(ToldChallengePassed(StrAt(m, "story_id").value)) else None
  }

  function TellIssued(m: map<PyStr, Json>): Option<Told> {
    if m.Keys == {Py("story_id"), Py("risk_score")} && StrAt(m, "story_id").Some? && IntAt(m, "risk_score").Some?
    then Some(ToldChallengeIssued(StrAt(m, "story_id").value, IntAt(m, "risk_score").value)) else None
  }

  function TellDecision(m: map<PyStr, Json>): Option<Told> {
    if m.Keys == {Py("outcome"), Py("reason"), Py("risk_score"), Py("story_id"), Py("source_ip"), Py("ja4"),
                  Py("sophistication_score"), Py("sophistication_label")}
       && PassTold(m).Some? && ReasonAt(m).Some? && IntAt(m, "risk_score").Some? && StrAt(m, "story_id").Some?
       && StrAt(m, "source_ip").Some? && OptAt(m, "ja4").Some? && IntAt(m, "sophistication_score").Some?
       && StrAt(m, "sophistication_label").Some?
    then Some(ToldDecision(PassTold(m).value, ReasonAt(m).value, IntAt(m, "risk_score").value, StrAt(m, "story_id").value,
                           StrAt(m, "source_ip").value, OptAt(m, "ja4").value, IntAt(m, "sophistication_score").value,
                           StrAt(m, "sophistication_label").value))
    else None
  }

  function TellRevocation(m: map<PyStr, Json>): Option<Told> {
    if m.Keys == {Py("jti")} && StrAt(m, "jti").Some? then Some(ToldRevocation(StrAt(m, "jti").value)) else None
  }

  function TellIssuance(m: map<PyStr, Json>): Option<Told> {
    if m.Keys == {Py("jti"), Py("jkt"), Py("ja4"), Py("source_ip")} && StrAt(m, "jti").Some? && StrAt(m, "jkt").Some?
       && StrAt(m, "ja4").Some? && StrAt(m, "source_ip").Some?
    then Some(ToldIssuance(StrAt(m, "jti").value, StrAt(m, "jkt").value, StrAt(m, "ja4").value, StrAt(m, "source_ip").value))
    else None
  }

  /** The event an entry tells of, if its payload has the members of its kind and no others. */
  function Tell(e: A.AuditEntry): Option<Told> {
    if !e.eventType.Str? || !e.payload.Obj? then None
    else
      var t, m := e.eventType.s, e.payload.members;
      if t == Py("rate_limited") then TellLimited(m)
      else if t == Py("block") then TellBlock(m)
      else if t == Py("challenge_passed") then TellPassed(m)
      else if t == Py("challenge_issued") then TellIssued(m)
      else if t == Py("decision") then TellDecision(m)
      else if t == Py("revocation") then TellRevocation(m)
      else if t == Py("issuance") then TellIssuance(m)
      else None
  }

  // ----- what it should say -----

  function JoinOpt(s: Option<PyStr>): Option<PyStr> { if s.Some? then Some(JoinPairs(s.value)) else None }

  function JoinReason(r: Reason): Reason {
    match r
    case ProofInvalid(AlgorithmNotAllowed(a)) => ProofInvalid(Dpop.AlgorithmNotAllowed(JoinPairs(a)))
    case _ => r
  }

  /** How many of a valid proof, the bound JA4 and the bound key a request showed. */
  function Matched(d: Decision): (n: nat)
    ensures n <= 3
  {
    var ja4 := d.presentedJa4.Some? && d.presentedJa4.value == d.boundJa4;
    if d.dpopValid && ja4 && d.jktMatch then 3
    else if (d.dpopValid && ja4) || (d.dpopValid && d.jktMatch) || (ja4 && d.jktMatch) then 2
    else if d.dpopValid || ja4 || d.jktMatch then 1
    else 0
  }

  /** The recorded parts of an event, with surrogate pairs joined. */
  function ToldOf(e: Event): Told {
    match e
    case RateLimitedEvent(key, attempts) => ToldLimited(JoinPairs(key), attempts)
    case BlockEvent(ip, ja4, reason, story) => ToldBlock(JoinPairs(ip), JoinOpt(ja4), JoinReason(reason), JoinOpt(story))
    case ChallengePassedEvent(story) => ToldChallengePassed(JoinPairs(story))
    case ChallengeIssuedEvent(story, risk) => ToldChallengeIssued(JoinPairs(story), risk)
    case DecisionEvent(d, story) =>
      ToldDecision(d.outcome.Pass?, JoinReason(d.reason), d.riskScore, JoinPairs(story), JoinPairs(d.sourceIp), JoinOpt(d.presentedJa4),
                   Matched(d), Py(["trivial", "low", "moderate", "high"][Matched(d)]))
    case RevocationEvent(jti, _) => ToldRevocation(JoinPairs(jti))
    case IssuanceEvent(jti, jkt, ja4, ip) => ToldIssuance(JoinPairs(jti), JoinPairs(jkt), JoinPairs(ja4), JoinPairs(ip))
  }

  // ----- texts read back -----

  lemma {:induction false} OuterReasonRead(r: Reason)
    requires !r.ProofInvalid?
    ensures ReasonTold(ReasonText(r)) == Some(r)
  {}

  predicate AboutClaims(r: Dpop.Reason) { r.HtmMismatch? || r.HtuMismatch? || r.NotFresh? || r.BadSignature? }

  lemma {:induction false} ClaimReasonRead(r: Dpop.Reason)
    requires AboutClaims(r)
    ensures ProofReasonTold(ProofReasonText(r)) == Some(r)
  {
    assert Py("htu mismatch")[2] != Py("htm mismatch")[2];
    assert Py("proof not fresh (iat outside window)")[0] != Py("missing or unsupported jwk in header")[0];
  }

  lemma {:induction false} HeaderReasonRead(r: Dpop.Reason)
    requires !AboutClaims(r) && !r.AlgorithmNotAllowed?
    ensures ProofReasonTold(ProofReasonText(r)) == Some(r)
  {}

  /** No other text about a proof starts like the one that names the algorithm. */
  lemma {:induction false} AlgorithmRead(a: PyStr)
    ensures ProofReasonTold(Py("algorithm not allow-listed: ") + a) == Some(Dpop.AlgorithmNotAllowed(a))
  {
    var p := Py("algorithm not allow-listed: ");
    var t := p + a;
    assert t[..28] == p && t[28..] == a;
    assert t[0] == 'a' as int;
  }

  lemma {:induction false} ProofReasonRead(r: Dpop.Reason)
    ensures ProofReasonTold(ProofReasonText(r)) == Some(r)
  {
    hide ProofReasonTold;
    match r
    case AlgorithmNotAllowed(a) => AlgorithmRead(a);
    case _ =>
      if AboutClaims(r) {
        ClaimReasonRead(r);
      } else {
        HeaderReasonRead(r);
      }
  }

  lemma {:induction false} ReasonRead(r: Reason)
    ensures ReasonTold(ReasonText(r)) == Some(r)
  {
    hide ProofReasonTold, ProofReasonText;
    if r.ProofInvalid? {
      var t := ProofReasonText(r.proof);
      ProofReasonRead(r.proof);
      PrefixedReason(t);
    } else {
      OuterReasonRead(r);
    }
  }

  /** The texts of the proof's own reasons stand after a prefix no other reason has. */
  lemma {:induction false} PrefixedReason(t: PyStr)
    ensures ReasonTold(Py("DPoP invalid: ") + t)
            == match ProofReasonTold(t) case None => None case Some(r) => Some(ProofInvalid(r))
  {
    hide ProofReasonTold;
    var p := Py("DPoP invalid: ");
    var s := p + t;
    assert s[..14] == p && s[14..] == t;
    assert s[0] == 'D' as int && s[5] == 'i' as int;
  }

  /** Joining pairs leaves a literal at the front alone. */
  lemma {:induction false} JoinAfterLiteral(s: string, t: PyStr)
    ensures JoinPairs(Py(s) + t) == Py(s) + JoinPairs(t)
  {
    hide JoinPairs;
    if s == "" {
      assert Py(s) + t == t;
    } else {
      JoinAfterLiteral(s[1..], t);
      assert Py(s) == [s[0] as int] + Py(s[1..]);
      assert Py(s) + t == [s[0] as int] + (Py(s[1..]) + t);
      JoinAfterOne(s[0] as int, Py(s[1..]) + t);
    }
  }

  lemma {:induction false} JoinAfterOne(c: Code, t: PyStr)
    requires !High(c)
    ensures JoinPairs([c] + t) == [c] + JoinPairs(t)
  {
    assert ([c] + t)[1..] == t;
  }

  lemma {:induction false} ReasonJoined(r: Reason)
    ensures JoinPairs(ReasonText(r)) == ReasonText(JoinReason(r))
  {
    hide JoinPairs, Py;
    if r.ProofInvalid? {
      JoinAfterLiteral("DPoP invalid: ", ProofReasonText(r.proof));
      if r.proof.AlgorithmNotAllowed? {
        JoinAfterLiteral("algorithm not allow-listed: ", r.proof.algText);
      } else {
        ProofLiteral(r.proof);
      }
    } else {
      OuterLiteral(r);
    }
  }

  lemma {:induction false} ProofLiteral(r: Dpop.Reason)
    requires !r.AlgorithmNotAllowed?
    ensures JoinPairs(ProofReasonText(r)) == ProofReasonText(r)
  {
    hide JoinPairs, Py;
    match r
    case ProofOk => LiteralKept("ok");
    case MalformedHeader => LiteralKept("malformed proof header");
    case InvalidTyp => LiteralKept("invalid typ header");
    case UnsupportedJwk => LiteralKept("missing or unsupported jwk in header");
    case InvalidJwk => LiteralKept("invalid jwk");
    case BadSignature => LiteralKept("signature verification failed");
    case HtmMismatch => LiteralKept("htm mismatch");
    case HtuMismatch => LiteralKept("htu mismatch");
    case NotFresh => LiteralKept("proof not fresh (iat outside window)");
  }

  lemma {:induction false} OuterLiteral(r: Reason)
    requires !r.ProofInvalid?
    ensures JoinPairs(ReasonText(r)) == ReasonText(r)
  {
    hide JoinPairs, Py;
    match r
    case MissingProof => LiteralKept("missing DPoP proof");
    case ProofReplayed => LiteralKept("DPoP proof replayed");
    case NoBinding => LiteralKept("no binding found for presented token");
    case TokenRevoked => LiteralKept("token revoked");
    case Ja4Mismatch => LiteralKept("JA4 mismatch");
    case JktMismatch => LiteralKept("DPoP jkt mismatch");
    case RiskExceeded => LiteralKept("risk threshold exceeded");
    case DecisionOk => LiteralKept("ok");
  }

  // ----- payloads read back -----

  predicate Distinct(fields: seq<(string, Json)>) {
    forall i, j | 0 <= i < j < |fields| :: fields[i].0 != fields[j].0
  }

  lemma {:induction false} DictNames(fields: seq<(string, Json)>)
    ensures forall k :: k in FieldDict(fields) <==> exists i | 0 <= i < |fields| :: k == Py(fields[i].0)
  {
    hide Py;
    if fields != [] {
      var init, last := fields[..|fields| - 1], fields[|fields| - 1];
      DictNames(init);
      forall k ensures k in FieldDict(fields) <==> exists i | 0 <= i < |fields| :: k == Py(fields[i].0) {
        if k in FieldDict(init) {
          var i :| 0 <= i < |init| && k == Py(init[i].0);
          assert fields[i] == init[i];
        }
        if i :| 0 <= i < |fields| && k == Py(fields[i].0) {
          if i < |init| { assert init[i] == fields[i]; }
        }
      }
    }
  }

  /** The dictionary has exactly the named members, each with its value. */
  lemma {:induction false} DictMembers(fields: seq<(string, Json)>)
    requires Distinct(fields)
    ensures forall k :: k in FieldDict(fields) <==> exists i | 0 <= i < |fields| :: k == Py(fields[i].0)
    ensures forall i | 0 <= i < |fields| ::
              Py(fields[i].0) in FieldDict(fields) && FieldDict(fields)[Py(fields[i].0)] == fields[i].1
  {
    hide Py, FieldDict;
    DictNames(fields);
    forall i | 0 <= i < |fields|
      ensures Py(fields[i].0) in FieldDict(fields) && FieldDict(fields)[Py(fields[i].0)] == fields[i].1
    {
      AuditReport.FieldAt(fields, i);
    }
  }

  /** A flat value as the file gives it back. */
  function FlatRead(v: Json): Json
    requires Flat(v)
  {
    if v.Str? then Str(JoinPairs(v.s)) else v
  }

  lemma {:induction false} FlatFused(fl: FloatReader, v: Json)
    requires Flat(v)
    ensures Fused(fl, v) == FlatRead(v)
  {}

  /** The payload read back: the same names, every text with its pairs joined. */
  predicate ReadAs(m: map<PyStr, Json>, fields: seq<(string, Json)>) {
    && (forall i | 0 <= i < |fields| :: Flat(fields[i].1))
    && (forall k <- m :: exists i | 0 <= i < |fields| :: k == Py(fields[i].0))
    && (forall i | 0 <= i < |fields| :: Py(fields[i].0) in m && m[Py(fields[i].0)] == FlatRead(fields[i].1))
  }

  lemma {:induction false} PayloadRead(fl: FloatReader, e: Event, m: map<PyStr, Json>)
    requires Distinct(Fields(e)) && Obj(m) == Fused(fl, Obj(Payload(e)))
    ensures ReadAs(m, Fields(e))
  {
    hide Py, Fields, FieldDict, Fused;
    var fields := Fields(e);
    DictMembers(fields);
    AuditReport.ReadPayload(fl, e);
    PayloadOk(fl, e);
    forall i | 0 <= i < |fields| ensures Flat(fields[i].1) && m[Py(fields[i].0)] == FlatRead(fields[i].1) {
      assert Py(fields[i].0) in Payload(e);
      FlatFused(fl, fields[i].1);
    }
  }

  lemma {:induction false} FieldsDistinct(e: Event)
    ensures Distinct(Fields(e))
  {
    hide ReasonText, Sophistication, SophisticationLabel, Py, Text;
  }

  lemma {:induction false} ReasonKept(r: Reason)
    ensures ReasonTold(JoinPairs(ReasonText(r))) == Some(JoinReason(r))
  {
    hide ReasonTold, ReasonText, JoinReason;
    ReasonJoined(r);
    ReasonRead(JoinReason(r));
  }

  lemma {:induction false} LimitedTold(e: Event, m: map<PyStr, Json>)
    requires e.RateLimitedEvent? && ReadAs(m, Fields(e))
    ensures TellLimited(m) == Some(ToldOf(e))
  {
    hide Py, JoinPairs;
    var f := Fields(e);
    assert f[0].0 == "key" && f[1].0 == "attempts_in_window";
    assert m.Keys == {Py("key"), Py("attempts_in_window")};
  }

  lemma {:induction false} BlockTold(e: Event, m: map<PyStr, Json>)
    requires e.BlockEvent? && ReadAs(m, Fields(e))
    ensures TellBlock(m) == Some(ToldOf(e))
  {
    hide Py, JoinPairs, ReasonText, ReasonTold, JoinReason;
    var f := Fields(e);
    assert f[0].0 == "source_ip" && f[1].0 == "ja4" && f[2].0 == "reason" && f[3].0 == "story_id";
    assert m.Keys == {Py("source_ip"), Py("ja4"), Py("reason"), Py("story_id")};
    ReasonKept(e.reason);
  }

  lemma {:induction false} ChallengeTold(e: Event, m: map<PyStr, Json>)
    requires ReadAs(m, Fields(e))
    ensures e.ChallengePassedEvent? ==> TellPassed(m) == Some(ToldOf(e))
    ensures e.ChallengeIssuedEvent? ==> TellIssued(m) == Some(ToldOf(e))
  {
    hide Py, JoinPairs;
    var f := Fields(e);
    if e.ChallengePassedEvent? {
      assert f[0].0 == "story_id";
      assert m.Keys == {Py("story_id")};
    } else if e.ChallengeIssuedEvent? {
      assert f[0].0 == "story_id" && f[1].0 == "risk_score";
      assert m.Keys == {Py("story_id"), Py("risk_score")};
    }
  }

  lemma {:induction false} TokenTold(e: Event, m: map<PyStr, Json>)
    requires ReadAs(m, Fields(e))
    ensures e.RevocationEvent? ==> TellRevocation(m) == Some(ToldOf(e))
    ensures e.IssuanceEvent? ==> TellIssuance(m) == Some(ToldOf(e))
  {
    hide Py, JoinPairs;
    var f := Fields(e);
    if e.RevocationEvent? {
      assert f[0].0 == "jti";
      assert m.Keys == {Py("jti")};
    } else if e.IssuanceEvent? {
      assert f[0].0 == "jti" && f[1].0 == "jkt" && f[2].0 == "ja4" && f[3].0 == "source_ip";
      assert m.Keys == {Py("jti"), Py("jkt"), Py("ja4"), Py("source_ip")};
    }
  }

  /** The score counts what matched, and the label names it. */
  lemma {:induction false} ScoreTold(d: Decision)
    ensures Sophistication(d) == Matched(d)
    ensures var t := SophisticationLabel(Sophistication(d));
            t == ["trivial", "low", "moderate", "high"][Matched(d)] && JoinPairs(Py(t)) == Py(t)
  {
    var t := SophisticationLabel(Sophistication(d));
    LiteralKept(t);
  }

  lemma {:induction false} VerdictTold(d: Decision)
    ensures var t := Py(if d.outcome.Pass? then "PASS" else "BLOCK");
            JoinPairs(t) == t && (t == Py("PASS") <==> d.outcome.Pass?) && (t == Py("BLOCK") <==> !d.outcome.Pass?)
  {
    LiteralKept("PASS");
    LiteralKept("BLOCK");
  }

  lemma {:induction false} DecisionKeys(e: Event, m: map<PyStr, Json>)
    requires e.DecisionEvent? && ReadAs(m, Fields(e))
    ensures forall k <- m :: k in {Py("outcome"), Py("reason"), Py("risk_score"), Py("story_id"), Py("source_ip"),
                                   Py("ja4"), Py("sophistication_score"), Py("sophistication_label")}
  {
    hide Py, JoinPairs, ReasonText, Sophistication, SophisticationLabel;
    var f := Fields(e);
    assert f[0].0 == "outcome" && f[1].0 == "reason" && f[2].0 == "risk_score" && f[3].0 == "story_id";
    assert f[4].0 == "source_ip" && f[5].0 == "ja4" && f[6].0 == "sophistication_score" && f[7].0 == "sophistication_label";
  }

  lemma {:induction false} DecisionNames(e: Event, m: map<PyStr, Json>)
    requires e.DecisionEvent? && ReadAs(m, Fields(e))
    ensures forall k <- {Py("outcome"), Py("reason"), Py("risk_score"), Py("story_id"), Py("source_ip"), Py("ja4"),
                         Py("sophistication_score"), Py("sophistication_label")} :: k in m
    ensures var d := e.decision;
            && m[Py("outcome")] == Str(JoinPairs(Py(if d.outcome.Pass? then "PASS" else "BLOCK")))
            && m[Py("reason")] == Str(JoinPairs(ReasonText(d.reason)))
            && m[Py("risk_score")] == Int(d.riskScore) && m[Py("story_id")] == Str(JoinPairs(e.storyId))
            && m[Py("source_ip")] == Str(JoinPairs(d.sourceIp)) && m[Py("ja4")] == FlatRead(OrNull(d.presentedJa4))
            && m[Py("sophistication_score")] == Int(Sophistication(d))
            && m[Py("sophistication_label")] == Str(JoinPairs(Py(SophisticationLabel(Sophistication(d)))))
  {
    hide Py, JoinPairs, ReasonText, Sophistication, SophisticationLabel;
    var f := Fields(e);
    assert f[0].0 == "outcome" && f[1].0 == "reason" && f[2].0 == "risk_score" && f[3].0 == "story_id";
    assert f[4].0 == "source_ip" && f[5].0 == "ja4" && f[6].0 == "sophistication_score" && f[7].0 == "sophistication_label";
  }

  lemma {:induction false} DecisionTold(e: Event, m: map<PyStr, Json>)
    requires e.DecisionEvent? && ReadAs(m, Fields(e))
    ensures TellDecision(m) == Some(ToldOf(e))
  {
    hide Py, JoinPairs, ReasonText, ReasonTold, JoinReason, Sophistication, SophisticationLabel, Fields, ReadAs, Matched;
    var d := e.decision;
    DecisionKeys(e, m);
    DecisionNames(e, m);
    ReasonKept(d.reason);
    ScoreTold(d);
    VerdictTold(d);
  }

  /** The seven kinds have seven names. */
  lemma {:induction false} KindTold(e: Event, m: map<PyStr, Json>)
    ensures var t := A.AuditEntry(Null, Null, Str(Py(EventType(e))), Obj(m), Null, Null);
            Tell(t) == match e
                       case RateLimitedEvent(_, _) => TellLimited(m)
                       case BlockEvent(_, _, _, _) => TellBlock(m)
                       case ChallengePassedEvent(_) => TellPassed(m)
                       case ChallengeIssuedEvent(_, _) => TellIssued(m)
                       case DecisionEvent(_, _) => TellDecision(m)
                       case RevocationEvent(_, _) => TellRevocation(m)
                       case IssuanceEvent(_, _, _, _) => TellIssuance(m)
  {
    hide TellLimited, TellBlock, TellPassed, TellIssued, TellDecision, TellRevocation, TellIssuance;
    assert Py("challenge_issued")[10] != Py("challenge_passed")[10] && Py("decision")[0] != Py("issuance")[0];
  }

  /** An entry read back from the file tells its event. */
  lemma {:induction false} TellsEvent(fl: FloatReader, l: Logged, e: A.AuditEntry)
    requires AuditReport.ReadsBack(fl, l, e)
    ensures Tell(e) == Some(ToldOf(l.event))
  {
    hide Py, Fields, Payload, EventType, ReadAs, ToldOf, JoinPairs,
      TellLimited, TellBlock, TellPassed, TellIssued, TellDecision, TellRevocation, TellIssuance;
    var ev := l.event;
    EventNameKept(fl, ev);
    AuditReport.ReadPayload(fl, ev);
    var m := e.payload.members;
    FieldsDistinct(ev);
    PayloadRead(fl, ev, m);
    KindTold(ev, m);
    match ev
    case RateLimitedEvent(_, _) => LimitedTold(ev, m);
    case BlockEvent(_, _, _, _) => BlockTold(ev, m);
    case DecisionEvent(_, _) => DecisionTold(ev, m);
    case RevocationEvent(_, _) => TokenTold(ev, m);
    case IssuanceEvent(_, _, _, _) => TokenTold(ev, m);
    case _ => ChallengeTold(ev, m);
  }

  lemma {:induction false} EventNameKept(fl: FloatReader, e: Event)
    ensures Fused(fl, Text(EventType(e))) == Str(Py(EventType(e)))
  {
    hide EventType, Py;
    AuditReport.EventTypeAscii(e);
    AuditReport.PlainText(fl, EventType(e));
  }

  // ----- every run's file -----

  /**
   * Reading the audit file of any run tells its events: entry i holds position i, event i as it was
   * logged with surrogate pairs joined, and but for a revocation the time of its hook.
   */
  lemma {:induction false} FileTells(fl: FloatReader, env: Env, steps: seq<Step>, h: HashFn)
    ensures var log := Run(env, steps).state.log;
            var loaded := F.EntriesOf(fl, F.Lines(A.FileText(A.Chain(h, RecordsFor(log)))));
            && |loaded| == |log|
            && forall i | 0 <= i < |log| ::
                 && Tell(loaded[i]) == Some(ToldOf(log[i].event))
                 && loaded[i].seqNo == Int(i)
                 && loaded[i].ts == if log[i].event.RevocationEvent? then Fused(fl, log[i].event.at) else Int(log[i].ts)
  {
    hide Run, A.Chain, A.FileText, F.Lines, F.EntriesOf, RecordsFor, RecordFor, Tell, ToldOf, Fused;
    var log := Run(env, steps).state.log;
    var entries := A.Chain(h, RecordsFor(log));
    EveryRunAudits(fl, env, steps, h);
    RecordsOk(fl, log);
    A.ChainIntact(h, RecordsFor(log));
    hide A.Intact, F.Readable, T.SameLog, F.FusedEntry;
    var loaded := F.EntriesOf(fl, F.Lines(A.FileText(entries)));
    forall i | 0 <= i < |log|
      ensures Tell(loaded[i]) == Some(ToldOf(log[i].event)) && loaded[i].seqNo == Int(i)
      ensures loaded[i].ts == if log[i].event.RevocationEvent? then Fused(fl, log[i].event.at) else Int(log[i].ts)
    {
      EntryIs(fl, log[i], entries[i], i);
    }
  }

  lemma {:induction false} EntryIs(fl: FloatReader, l: Logged, e: A.AuditEntry, i: int)
    requires A.RecordOf(e) == RecordFor(l) && e.seqNo == Int(i)
    ensures var loaded := F.FusedEntry(fl, e);
            && Tell(loaded) == Some(ToldOf(l.event)) && loaded.seqNo == Int(i)
            && loaded.ts == if l.event.RevocationEvent? then Fused(fl, l.event.at) else Int(l.ts)
  {
    hide Tell, ToldOf, Fused, Payload, EventType, Py;
    AuditReport.LoadedReadsBack(fl, l, e);
    TellsEvent(fl, l, F.FusedEntry(fl, e));
    F.IntKept(fl, i);
    F.IntKept(fl, l.ts);
  }
}
