/** Which request of a run is blocked, and for which reason (proxy/addon.py, proxy/engine.py). */
module ProtocolReasons {
  import opened PyText
  import opened Json
  import opened Policy
  import opened Engine
  import opened Protocol
  import opened ProtocolSteps
  import opened ProtocolHistory
  import opened ProtocolLimits
  import opened ProtocolSafety
  import Dpop
  import RL = RateLimiter

  /** What the proof of a step validates to. */
  function ProofResult(env: Env, step: Step): Dpop.DpopResult
    requires HasProof(step)
  {
    Dpop.ValidateDpop(env.thumb, ProofOf(step), step.hook.r.httpMethod, step.hook.r.url, step.now)
  }

  /** The key a step's proof is made with. */
  function KeyOf(env: Env, step: Step): PyStr
    requires HasProof(step) && ProofOf(step).jwk.Some?
  {
    Dpop.Thumbprint(env.thumb, ProofOf(step).jwk.value)
  }

  /**
   * Whether a request that gets as far as its proof is refused for the reason: `used` says that its proof
   * was accepted before, `bound` what its token is bound to, `presented` what its connection presents.
   */
  predicate Refused(env: Env, step: Step, used: bool, bound: Option<BindingRec>, presented: Option<PyStr>, reason: Reason)
    requires step.hook.Req?
  {
    var proven := HasProof(step) && ProofResult(env, step).valid && ProofOf(step).jwk.Some? && !used;
    var sought := proven && step.hook.r.route.ResourceRoute?;
    var sameJa4 := bound.Some? && !bound.value.revoked && presented == Some(bound.value.ja4);
    var sameKey := sought && bound.Some? && KeyOf(env, step) == bound.value.jkt;
    match reason
    case MissingProof => step.hook.r.proof.None?
    case ProofInvalid(x) => HasProof(step) && !ProofResult(env, step).valid && x == ProofResult(env, step).reason
    case ProofReplayed => HasProof(step) && ProofResult(env, step).valid && used
    case NoBinding => sought && bound.None?
    case TokenRevoked => sought && bound.Some? && bound.value.revoked
    case Ja4Mismatch => sought && bound.Some? && !bound.value.revoked && presented != Some(bound.value.ja4)
    case JktMismatch => sought && sameJa4 && !sameKey
    case RiskExceeded =>
      sought && sameJa4 && sameKey && RiskOf(env, bound.value, step.hook.r) >= env.policy.riskThreshold
    case DecisionOk => false
  }

  /** What the token of a request is bound to in a state. */
  function BoundIn(s: State, step: Step): Option<BindingRec>
    requires step.hook.Req?
  {
    var token := step.hook.r.tokenJti;
    if token.None? || token.value == [] then None else Live(s.bindings, token.value, step.now)
  }

  lemma {:induction false} ResourceBlockedIff(env: Env, s: State, step: Step, reason: Reason)
    requires HasProof(step) && step.hook.r.route.ResourceRoute? && ProofResult(env, step).valid && ProofOf(step).jwk.Some?
    requires ProofResult(env, step).jkt == Some(KeyOf(env, step))
    ensures ResourceStep(env, s, step.now, step.hook.r, ProofResult(env, step), step.hook.nonce).1 == Blocked(reason)
            <==> Refused(env, step, false, BoundIn(s, step), PresentedJa4(s, step.hook.r.conn), reason)
  {
    var r, dpop := step.hook.r, ProofResult(env, step);
    var bound, ja4 := BoundIn(s, step), PresentedJa4(s, r.conn);
    if bound.Some? {
      var jti := r.tokenJti.value;
      var d := Evaluate(env.policy, bound.value, ja4, dpop, r.sourceIp, r.ja4h, step.now);
      ReasonIff(env.policy, bound.value, ja4, dpop, r.sourceIp, r.ja4h, step.now);
      DecisionScore(env, bound.value, ja4, dpop, r, step.now);
      JudgedOutcome(env, s.(bindings := AfterGet(s.bindings, jti, step.now)), step.now, d, jti, r.proof.value.claims.nonce,
                    step.hook.nonce);
      hide JudgedStep, Evaluate, AfterGet, Live, ProofResult, KeyOf, Risk;
    }
  }

  lemma {:induction false} DecisionScore(env: Env, b: BindingRec, ja4: Option<PyStr>, dpop: Dpop.DpopResult, r: Request, now: int)
    ensures Evaluate(env.policy, b, ja4, dpop, r.sourceIp, r.ja4h, now).riskScore == RiskOf(env, b, r)
  {}

  /** Judging blocks exactly with the engine's own reason. */
  lemma {:induction false} JudgedOutcome(env: Env, s: State, now: int, d: Decision, jti: PyStr, presented: Option<PyStr>,
                                         nonce: PyStr)
    ensures forall reason :: JudgedStep(env, s, now, d, jti, presented, nonce).1 == Blocked(reason)
                             <==> d.outcome.Block? && d.reason == reason
  {
    hide NonceOk, NonceRaises, AfterVerify, WithRow, DecisionRow;
  }

  /** The request gets as far as its proof. */
  predicate Reaches(s: State, step: Step) {
    && step.hook.Req? && !step.hook.r.route.RevokeRoute? && !step.hook.r.tokenRaises
    && (Metered(step) ==>
          RL.Verdict(s.windows, RATE_LIMIT_MAX_ATTEMPTS, RATE_LIMIT_WINDOW, LimiterKey(PresentedJa4(s, step.hook.r.conn)), step.now).allowed)
  }

  /** Exactly which requests are blocked from a given state, and why. */
  lemma {:induction false} BlockedIff(env: Env, s: State, step: Step, reason: Reason)
    ensures Next(env, s, step).1 == Blocked(reason)
            <==> Reaches(s, step)
                 && Refused(env, step, HasProof(step) && ProofOf(step).claims.jti in s.seen, BoundIn(s, step),
                            PresentedJa4(s, step.hook.r.conn), reason)
  {
    hide RL.Recorded, RL.Verdict, LimiterKey, ProvenStep, Refused;
    if step.hook.Req? {
      var r := step.hook.r;
      ProvenBlockedIff(env, s, step, reason);
      var w := RL.Recorded(s.windows, RATE_LIMIT_WINDOW, LimiterKey(PresentedJa4(s, r.conn)), step.now);
      ProvenBlockedIff(env, s.(windows := w), step, reason);
    }
  }

  lemma {:induction false} ProofKey(env: Env, step: Step)
    requires HasProof(step)
    ensures ProofResult(env, step).valid ==>
              ProofOf(step).jwk.Some? && ProofResult(env, step).jkt == Some(KeyOf(env, step))
  {
    hide Dpop.ValidateDpop, Dpop.Thumbprint, Dpop.SameTarget, Dpop.FreshAt;
    Dpop.ValidIff(env.thumb, ProofOf(step), step.hook.r.httpMethod, step.hook.r.url, step.now);
  }

  lemma {:induction false} ProvenBlockedIff(env: Env, s: State, step: Step, reason: Reason)
    requires step.hook.Req?
    ensures !step.hook.r.route.RevokeRoute? ==>
              (ProvenStep(env, s, step.now, step.hook.r, step.hook.nonce).1 == Blocked(reason)
               <==> Refused(env, step, HasProof(step) && ProofOf(step).claims.jti in s.seen, BoundIn(s, step),
                            PresentedJa4(s, step.hook.r.conn), reason))
  {
    hide ResourceStep, Dpop.ValidateDpop, Dpop.Thumbprint, Dpop.Genuine, Dpop.FreshAt, Live, KeyOf, RiskOf, WithRow,
      BlockRow;
    var r := step.hook.r;
    if r.proof.Some? {
      ProofKey(env, step);
      Dpop.ValidIff(env.thumb, r.proof.value, r.httpMethod, r.url, step.now);
      if ProofResult(env, step).valid && r.route.ResourceRoute? {
        var s1 := s.(seen := s.seen + {ProofOf(step).claims.jti});
        ResourceBlockedIff(env, s1, step, reason);
      }
    }
  }

  // ----- over a whole run -----

  /** The request of step i gets as far as its proof, by the run so far. */
  predicate ReachesProof(steps: seq<Step>, i: nat)
    requires i < |steps|
  {
    && steps[i].hook.Req? && !steps[i].hook.r.route.RevokeRoute? && !steps[i].hook.r.tokenRaises
    && (steps[i].hook.r.route.TokenRoute? ==> Recent(steps, i, Client(steps, i), steps[i].now - 30) < 5)
  }

  /** What the token of step i is bound to, by the run so far. */
  ghost function BoundBy(env: Env, steps: seq<Step>, os: seq<Outcome>, i: nat): Option<BindingRec>
    requires i < |steps| == |os| && steps[i].hook.Req?
  {
    var token := steps[i].hook.r.tokenJti;
    if token.None? || token.value == [] then None else BindingFrom(env, steps, os, i, token.value, steps[i].now)
  }

  /** In any run a request is blocked for a reason exactly when the history before it gives that reason. */
  lemma {:induction false} BlockedIffRefused(env: Env, steps: seq<Step>, i: nat, reason: Reason)
    requires Clocked(steps) && i < |steps|
    ensures var os := Run(env, steps).outcomes;
            os[i] == Blocked(reason) <==>
            ReachesProof(steps, i)
            && Refused(env, steps[i], HasProof(steps[i]) && UsedBefore(steps, os, i, ProofOf(steps[i]).claims.jti),
                       BoundBy(env, steps, os, i), Client(steps, i), reason)
  {
    hide Run, Before, Next, Refused, Presents, PresentedJa4, UsedBefore, BindingFrom, Live, Recent, RL.Verdict, LimiterKey;
    var s := Before(env, steps, i);
    OutcomeAt(env, steps, i);
    ClockedNotBefore(steps, i);
    BlockedIff(env, s, steps[i], reason);
    if steps[i].hook.Req? {
      Ja4History(env, steps, i, steps[i].hook.r.conn);
      if HasProof(steps[i]) { SeenHistory(env, steps, i, ProofOf(steps[i]).claims.jti); }
      if steps[i].hook.r.tokenJti.Some? {
        BindingHistory(env, steps, i, steps[i].hook.r.tokenJti.value, steps[i].now);
      }
      if Metered(steps[i]) {
        RateLimitedIff(env, steps, i);
        WindowsEffect(env, s, steps[i]);
      }
    }
  }

  // ----- the other outcomes -----

  /**
   * A token is bound exactly by a good answer to a token request that was forwarded on the same flow with
   * a key, a JA4 and an address.
   */
  lemma {:induction false} BoundIff(env: Env, steps: seq<Step>, i: nat, j: PyStr)
    requires i < |steps|
    ensures var os, hook := Run(env, steps).outcomes, steps[i].hook;
            os[i] == Bound(j) <==>
            && hook.Resp? && hook.route.TokenRoute? && hook.status == 200 && hook.jti == Some(j)
            && var q := Last(i, IsIssuance(steps, os, hook.flow));
               && q >= 0 && KeyOf(env, steps[q]) != [] && steps[q].hook.r.sourceIp != []
               && Client(steps, q).Some? && Client(steps, q).value != []
  {
    hide Run, Before, Next, IsIssuance, Presents, Dpop.Thumbprint;
    OutcomeAt(env, steps, i);
    BindsIff(env, Before(env, steps, i), steps[i], j);
    if steps[i].hook.Resp? {
      StashHistory(env, steps, i, steps[i].hook.flow);
      var q := Last(i, IsIssuance(steps, Run(env, steps).outcomes, steps[i].hook.flow));
      if q >= 0 { IssuanceAt(steps, Run(env, steps).outcomes, steps[i].hook.flow, q); }
    }
  }

  lemma {:induction false} IssuanceAt(steps: seq<Step>, os: seq<Outcome>, flow: FlowId, q: nat)
    requires IsIssuance(steps, os, flow)(q)
    ensures q < |os| == |steps| && HasProof(steps[q]) && ProofOf(steps[q]).jwk.Some?
  {}

  /** A token request is passed on exactly when its client is not throttled and its proof is good and new. */
  lemma {:induction false} IssuanceIff(env: Env, steps: seq<Step>, i: nat)
    requires Clocked(steps) && i < |steps|
    ensures var os := Run(env, steps).outcomes;
            os[i].IssuanceForwarded? <==>
            && ReachesProof(steps, i) && steps[i].hook.r.route.TokenRoute?
            && HasProof(steps[i]) && ProofResult(env, steps[i]).valid
            && !UsedBefore(steps, os, i, ProofOf(steps[i]).claims.jti)
  {
    hide Run, Before, Next, Presents, PresentedJa4, UsedBefore, Recent, RL.Verdict, LimiterKey;
    var s := Before(env, steps, i);
    OutcomeAt(env, steps, i);
    IssuanceFrom(env, s, steps[i]);
    if steps[i].hook.Req? {
      Ja4History(env, steps, i, steps[i].hook.r.conn);
      if HasProof(steps[i]) { SeenHistory(env, steps, i, ProofOf(steps[i]).claims.jti); }
      if Metered(steps[i]) {
        RateLimitedIff(env, steps, i);
        WindowsEffect(env, s, steps[i]);
      }
    }
  }

  lemma {:induction false} IssuanceFrom(env: Env, s: State, step: Step)
    ensures Next(env, s, step).1.IssuanceForwarded? <==>
            && Reaches(s, step) && step.hook.r.route.TokenRoute?
            && HasProof(step) && ProofResult(env, step).valid && ProofOf(step).claims.jti !in s.seen
  {
    hide RL.Recorded, RL.Verdict, LimiterKey, ProvenStep;
    if step.hook.Req? {
      ProvenIssuance(env, s, step);
      ProvenIssuance(env, s.(windows := RL.Recorded(s.windows, RATE_LIMIT_WINDOW, LimiterKey(PresentedJa4(s, step.hook.r.conn)),
                                                    step.now)), step);
    }
  }

  lemma {:induction false} ProvenIssuance(env: Env, s: State, step: Step)
    requires step.hook.Req?
    ensures ProvenStep(env, s, step.now, step.hook.r, step.hook.nonce).1.IssuanceForwarded? <==>
            && step.hook.r.route.TokenRoute?
            && HasProof(step) && ProofResult(env, step).valid && ProofOf(step).claims.jti !in s.seen
  {
    hide ResourceStep, Dpop.ValidateDpop, Dpop.Thumbprint, Dpop.SameTarget, Dpop.FreshAt;
    var r := step.hook.r;
    if r.proof.Some? {
      var dpop := ProofResult(env, step);
      Dpop.ValidIff(env.thumb, r.proof.value, r.httpMethod, r.url, step.now);
      if dpop.valid {
        ResourceEffect(env, s.(seen := s.seen + {dpop.jti.value}), step.now, r, dpop, step.hook.nonce, []);
      }
    }
  }

  /** How a revocation is answered, by its body and what is stored. */
  lemma {:induction false} RevocationIff(env: Env, s: State, step: Step)
    requires step.hook.Req? && step.hook.r.route.RevokeRoute?
    ensures var (s', o) := Next(env, s, step);
            var body := step.hook.r.revokeBody;
            var named := body.Members? && body.jti.Some? && body.jti.value != [];
            && (o == RevokeRefused <==> body.Unparsable? || (body.Members? && !named))
            && (o == Raised(BodyNotAnObject) <==> body.NotAnObject?)
            && (o == RevokeUnknown <==> named && body.jti.value !in s.bindings)
            && (forall j :: o == Revoked(j) <==> named && j == body.jti.value && j in s.bindings)
            && (!o.Revoked? ==> s' == s)
  {}
}
