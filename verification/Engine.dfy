/** The decision engine (proxy/engine.py) and the three tiers the addon makes of its verdict. */
module Engine {
  import opened PyText
  import opened Json
  import opened Policy
  import Dpop
  import opened Hashing
  import Ja4h

  /** What a token is bound to, as a value. */
  datatype BindingRec = BindingRec(
    jti: PyStr,
    jkt: PyStr,
    ja4: PyStr,
    sourceIp: PyStr,
    issuedAt: int,
    ja4h: Option<PyStr>,
    revoked: bool)

  /** Why a request was blocked or passed: before the engine, and by it. */
  datatype Reason =
    | MissingProof
    | ProofInvalid(proof: Dpop.Reason)
    | ProofReplayed
    | NoBinding
    | TokenRevoked
    | Ja4Mismatch
    | JktMismatch
    | RiskExceeded
    | DecisionOk

  datatype Verdict = Pass | Block

  datatype Decision = Decision(
    ts: int,
    sourceIp: PyStr,
    presentedJa4: Option<PyStr>,
    boundJa4: PyStr,
    jktMatch: bool,
    dpopValid: bool,
    ipDelta: bool,
    riskScore: int,
    outcome: Verdict,
    reason: Reason)

  predicate IpDelta(b: BindingRec, sourceIp: PyStr) { sourceIp != b.sourceIp }

  /** Both fingerprints are present and they differ. */
  predicate Ja4hDelta(b: BindingRec, ja4h: Option<PyStr>) {
    ja4h.Some? && ja4h.value != [] && b.ja4h.Some? && b.ja4h.value != [] && ja4h != b.ja4h
  }

  function Risk(p: Policy, b: BindingRec, sourceIp: PyStr, ja4h: Option<PyStr>): int {
    (if IpDelta(b, sourceIp) then p.ipDelta else 0) + (if Ja4hDelta(b, ja4h) then p.ja4hDelta else 0)
  }

  function Evaluate(p: Policy, b: BindingRec, presentedJa4: Option<PyStr>, dpop: Dpop.DpopResult,
                    sourceIp: PyStr, ja4h: Option<PyStr>, now: int): Decision
  {
    var risk := Risk(p, b, sourceIp, ja4h);
    var jktMatch := dpop.jkt == Some(b.jkt);
    var (outcome, reason) :=
      if b.revoked then (Block, TokenRevoked)
      else if !dpop.valid then (Block, ProofInvalid(dpop.reason))
      else if presentedJa4 != Some(b.ja4) then (Block, Ja4Mismatch)
      else if !jktMatch then (Block, JktMismatch)
      else if risk >= p.riskThreshold then (Block, RiskExceeded)
      else (Pass, DecisionOk);
    Decision(now, sourceIp, presentedJa4, b.ja4, jktMatch, dpop.valid, IpDelta(b, sourceIp), risk, outcome, reason)
  }

  /** Every hard signal holds. */
  predicate HardSignals(b: BindingRec, presentedJa4: Option<PyStr>, dpop: Dpop.DpopResult) {
    !b.revoked && dpop.valid && presentedJa4 == Some(b.ja4) && dpop.jkt == Some(b.jkt)
  }

  /** PASS exactly when every hard signal holds and the risk stays under the threshold. */
  lemma {:induction false} PassIff(p: Policy, b: BindingRec, presentedJa4: Option<PyStr>, dpop: Dpop.DpopResult,
                                   sourceIp: PyStr, ja4h: Option<PyStr>, now: int)
    ensures var d := Evaluate(p, b, presentedJa4, dpop, sourceIp, ja4h, now);
            && (d.outcome.Pass? <==> HardSignals(b, presentedJa4, dpop) && d.riskScore < p.riskThreshold)
            && (d.outcome.Pass? <==> d.reason.DecisionOk?)
            && (b.revoked ==> d.reason.TokenRevoked?)
  {}

  /** Exactly which reason the engine gives: the first hard signal that fails, then the risk. */
  lemma {:induction false} ReasonIff(p: Policy, b: BindingRec, presentedJa4: Option<PyStr>, dpop: Dpop.DpopResult,
                                     sourceIp: PyStr, ja4h: Option<PyStr>, now: int)
    ensures var d := Evaluate(p, b, presentedJa4, dpop, sourceIp, ja4h, now);
            var sameJa4, sameKey := presentedJa4 == Some(b.ja4), dpop.jkt == Some(b.jkt);
            && (d.reason == TokenRevoked <==> b.revoked)
            && (forall x :: d.reason == ProofInvalid(x) <==> !b.revoked && !dpop.valid && x == dpop.reason)
            && (d.reason == Ja4Mismatch <==> !b.revoked && dpop.valid && !sameJa4)
            && (d.reason == JktMismatch <==> !b.revoked && dpop.valid && sameJa4 && !sameKey)
            && (d.reason == RiskExceeded <==>
                !b.revoked && dpop.valid && sameJa4 && sameKey && d.riskScore >= p.riskThreshold)
            && (d.reason == DecisionOk <==>
                !b.revoked && dpop.valid && sameJa4 && sameKey && d.riskScore < p.riskThreshold)
            && (d.outcome == Pass <==> d.reason == DecisionOk)
  {}

  /** What a decision records of the request and the binding. */
  lemma {:induction false} DecisionRecords(p: Policy, b: BindingRec, presentedJa4: Option<PyStr>, dpop: Dpop.DpopResult,
                                           sourceIp: PyStr, ja4h: Option<PyStr>, now: int)
    ensures var d := Evaluate(p, b, presentedJa4, dpop, sourceIp, ja4h, now);
            && d.ts == now && d.sourceIp == sourceIp && d.presentedJa4 == presentedJa4 && d.boundJa4 == b.ja4
            && (d.jktMatch <==> dpop.jkt == Some(b.jkt)) && d.dpopValid == dpop.valid
            && (d.ipDelta <==> sourceIp != b.sourceIp)
            && d.riskScore == (if sourceIp == b.sourceIp then 0 else p.ipDelta)
                              + (if ja4h.None? || b.ja4h.None? || [] in {ja4h.value, b.ja4h.value} || ja4h == b.ja4h
                                 then 0 else p.ja4hDelta)
  {}

  /** With a valid proof the engine never blocks for a reason of the checks before it. */
  lemma {:induction false} EngineReasons(p: Policy, b: BindingRec, presentedJa4: Option<PyStr>, dpop: Dpop.DpopResult,
                                         sourceIp: PyStr, ja4h: Option<PyStr>, now: int)
    ensures var r := Evaluate(p, b, presentedJa4, dpop, sourceIp, ja4h, now).reason;
            !r.MissingProof? && !r.ProofReplayed? && !r.NoBinding? && (r.ProofInvalid? ==> !dpop.valid)
  {}

  /** What the addon makes of a decision, least restrictive first. */
  datatype Tier = Forward | StepUp | Refuse

  function Rank(t: Tier): nat { match t case Forward => 0 case StepUp => 1 case Refuse => 2 }

  function TierOf(p: Policy, d: Decision): Tier {
    if d.outcome.Block? then Refuse
    else if p.challengeThreshold <= d.riskScore < p.riskThreshold then StepUp
    else Forward
  }

  /** More soft deltas never lead to a more permissive tier. */
  lemma {:induction false} TierMonotone(p: Policy, b: BindingRec, presentedJa4: Option<PyStr>, dpop: Dpop.DpopResult,
                                        ip1: PyStr, h1: Option<PyStr>, ip2: PyStr, h2: Option<PyStr>, now: int)
    requires Valid(p)
    requires (IpDelta(b, ip1) ==> IpDelta(b, ip2)) && (Ja4hDelta(b, h1) ==> Ja4hDelta(b, h2))
    ensures Rank(TierOf(p, Evaluate(p, b, presentedJa4, dpop, ip1, h1, now)))
            <= Rank(TierOf(p, Evaluate(p, b, presentedJa4, dpop, ip2, h2, now)))
  {}

  /** Under an accepted policy the tier of a hard-signal match is decided by the risk alone. */
  lemma {:induction false} TierIff(p: Policy, b: BindingRec, presentedJa4: Option<PyStr>, dpop: Dpop.DpopResult,
                                   sourceIp: PyStr, ja4h: Option<PyStr>, now: int)
    requires Valid(p)
    ensures var t := TierOf(p, Evaluate(p, b, presentedJa4, dpop, sourceIp, ja4h, now));
            var hard, risk := HardSignals(b, presentedJa4, dpop), Risk(p, b, sourceIp, ja4h);
            && (t.Forward? <==> hard && risk < p.challengeThreshold)
            && (t.StepUp? <==> hard && p.challengeThreshold <= risk < p.riskThreshold)
            && (t.Refuse? <==> !hard || risk >= p.riskThreshold)
  {}

  /** Requests that differ only in volatile headers get the same decision, hence the same tier. */
  lemma {:induction false} HeaderShapeStable(h: StrHash, p: Policy, b: BindingRec, presentedJa4: Option<PyStr>,
                                             dpop: Dpop.DpopResult, sourceIp: PyStr, now: int,
                                             r: Ja4h.HttpShape, s: Ja4h.HttpShape)
    requires r.version == s.version && Ja4h.Stable(r.headers) == Ja4h.Stable(s.headers)
    ensures Evaluate(p, b, presentedJa4, dpop, sourceIp, Some(Ja4h.Ja4h(h, r)), now)
            == Evaluate(p, b, presentedJa4, dpop, sourceIp, Some(Ja4h.Ja4h(h, s)), now)
  {
    Ja4h.VolatileInvisible(h, r, s);
  }
}
