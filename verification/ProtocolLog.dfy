/** What a run writes to the audit log, step by step, by the history before each step (proxy/addon.py). */
module ProtocolLog {
  import opened PyText
  import opened Json
  import opened Policy
  import opened Engine
  import opened Protocol
  import opened ProtocolSteps
  import opened ProtocolHistory
  import opened ProtocolLimits
  import opened ProtocolReasons
  import opened ProtocolSafety
  import Dpop
  import RL = RateLimiter

  // ----- what one step adds -----

  /** What a moved address and a changed header shape add up to. */
  function RiskAgainst(p: Policy, b: BindingRec, r: Request): int {
    (if r.sourceIp == b.sourceIp then 0 else p.ipDelta)
    + (if r.ja4h.None? || b.ja4h.None? || [] in {r.ja4h.value, b.ja4h.value} || r.ja4h == b.ja4h then 0 else p.ja4hDelta)
  }

  /** The decision recorded of a request against the binding of its token. */
  function DecisionOf(env: Env, step: Step, b: BindingRec, presented: Option<PyStr>, reason: Reason): Decision
    requires HasProof(step)
  {
    var r := step.hook.r;
    Decision(step.now, r.sourceIp, presented, b.ja4,
             ProofOf(step).jwk.Some? && KeyOf(env, step) == b.jkt,
             true, r.sourceIp != b.sourceIp, RiskAgainst(env.policy, b, r),
             if reason == DecisionOk then Pass else Block, reason)
  }

  /**
   * What a step with the given outcome adds to the log: `bound` is what its token is bound to,
   * `presented` what its connection presents, `recent` how many token requests its client made in the
   * last thirty seconds, and `issued` what its flow's token request left.
   */
  function Added(env: Env, step: Step, o: Outcome, bound: Option<BindingRec>, presented: Option<PyStr>, recent: nat,
                 issued: Option<Stash>): seq<Event>
  {
    match o
    case Blocked(reason) =>
      if !step.hook.Req? then []
      else if reason.MissingProof? || reason.ProofInvalid? || reason.ProofReplayed? || reason.NoBinding?
      then [BlockEvent(step.hook.r.sourceIp, presented, reason, step.hook.r.tokenJti)]
      else if bound.Some? && HasProof(step) && step.hook.r.tokenJti.Some?
      then [DecisionEvent(DecisionOf(env, step, bound.value, presented, reason), step.hook.r.tokenJti.value)]
      else []
    case Forwarded(jti, steppedUp) =>
      if bound.None? || !HasProof(step) then []
      else
        (if steppedUp then [ChallengePassedEvent(jti)] else [])
        + [DecisionEvent(DecisionOf(env, step, bound.value, presented, DecisionOk), jti)]
    case Challenged(jti, _) =>
      if bound.None? || !step.hook.Req? then []
      else [ChallengeIssuedEvent(jti, RiskAgainst(env.policy, bound.value, step.hook.r))]
    case RateLimited =>
      [RateLimitedEvent(if presented.Some? && presented.value != [] then presented.value else Py("unknown"), recent + 1)]
    case Revoked(jti) => if step.hook.Req? then [RevocationEvent(jti, step.hook.r.revokedAt)] else []
    case Bound(jti) =>
      if issued.None? || issued.value.ja4.None? then []
      else [IssuanceEvent(jti, issued.value.jkt, issued.value.ja4.value, issued.value.sourceIp)]
    case _ => []
  }

  function Stamped(now: int, es: seq<Event>): (r: seq<Logged>)
    ensures |r| == |es|
  {
    seq(|es|, i requires 0 <= i < |es| => Logged(now, es[i]))
  }

  // ----- from the inside out -----

  /** What judging a decision adds. */
  function JudgedEvents(d: Decision, jti: PyStr, o: Outcome): seq<Event> {
    match o
    case Blocked(_) => [DecisionEvent(d, jti)]
    case Forwarded(_, true) => [ChallengePassedEvent(jti), DecisionEvent(d, jti)]
    case Forwarded(_, false) => [DecisionEvent(d, jti)]
    case Challenged(_, _) => [ChallengeIssuedEvent(jti, d.riskScore)]
    case _ => []
  }

  lemma {:induction false} JudgedLog(env: Env, s: State, now: int, d: Decision, jti: PyStr, presented: Option<PyStr>,
                                     nonce: PyStr)
    ensures var (s', o) := JudgedStep(env, s, now, d, jti, presented, nonce);
            && s'.log == s.log + Stamped(now, JudgedEvents(d, jti, o))
            && (o.Blocked? ==> d.outcome.Block? && o.reason == d.reason)
            && (o.Forwarded? ==> d.outcome.Pass? && o.jti == jti)
            && (o.Challenged? ==> d.outcome.Pass? && o.jti == jti)
            && (o.Blocked? || o.Forwarded? || o.Challenged? || o == Raised(NonceNotAscii(jti)))
  {
    hide AfterVerify, NonceOk, NonceRaises, WithRow, DecisionRow;
  }

  lemma {:induction false} DecisionIs(env: Env, step: Step, b: BindingRec, presented: Option<PyStr>, dpop: Dpop.DpopResult)
    requires HasProof(step) && dpop.valid && ProofOf(step).jwk.Some? && dpop.jkt == Some(KeyOf(env, step))
    ensures var r := step.hook.r;
            var d := Evaluate(env.policy, b, presented, dpop, r.sourceIp, r.ja4h, step.now);
            d == DecisionOf(env, step, b, presented, d.reason) && !d.reason.MissingProof? && !d.reason.ProofInvalid?
            && !d.reason.ProofReplayed? && !d.reason.NoBinding? && (d.outcome.Pass? <==> d.reason.DecisionOk?)
  {
    hide KeyOf;
    var r := step.hook.r;
    DecisionRecords(env.policy, b, presented, dpop, r.sourceIp, r.ja4h, step.now);
    ReasonIff(env.policy, b, presented, dpop, r.sourceIp, r.ja4h, step.now);
  }

  /** A resource request whose proof is good logs what its binding and JA4 make of it. */
  lemma {:induction false} ResourceLog(env: Env, s: State, step: Step, dpop: Dpop.DpopResult)
    requires HasProof(step) && dpop.valid && ProofOf(step).jwk.Some? && dpop.jkt == Some(KeyOf(env, step))
    ensures var (s', o) := ResourceStep(env, s, step.now, step.hook.r, dpop, step.hook.nonce);
            s'.log == s.log + Stamped(step.now, Added(env, step, o, BoundIn(s, step), PresentedJa4(s, step.hook.r.conn), 0, None))
  {
    hide JudgedStep, Evaluate, KeyOf, WithRow, BlockRow, AfterGet, Live, DecisionOf, RiskAgainst;
    var r := step.hook.r;
    if r.tokenJti.Some? && r.tokenJti.value != [] {
      var jti, presented := r.tokenJti.value, PresentedJa4(s, r.conn);
      var bound := Live(s.bindings, jti, step.now);
      if bound.Some? {
        var d := Evaluate(env.policy, bound.value, presented, dpop, r.sourceIp, r.ja4h, step.now);
        DecisionIs(env, step, bound.value, presented, dpop);
        DecisionRisk(env, step, bound.value, presented, d.reason);
        JudgedLog(env, s.(bindings := AfterGet(s.bindings, jti, step.now)), step.now, d, jti, r.proof.value.claims.nonce,
                  step.hook.nonce);
      }
    }
  }

  lemma {:induction false} DecisionRisk(env: Env, step: Step, b: BindingRec, presented: Option<PyStr>, reason: Reason)
    requires HasProof(step)
    ensures DecisionOf(env, step, b, presented, reason).riskScore == RiskAgainst(env.policy, b, step.hook.r)
  {}

  lemma {:induction false} ProvenLog(env: Env, s: State, step: Step)
    requires step.hook.Req? && !step.hook.r.route.RevokeRoute?
    ensures var (s', o) := ProvenStep(env, s, step.now, step.hook.r, step.hook.nonce);
            s'.log == s.log + Stamped(step.now, Added(env, step, o, BoundIn(s, step), PresentedJa4(s, step.hook.r.conn), 0, None))
            && !o.RateLimited?
  {
    hide ResourceStep, Dpop.ValidateDpop, Dpop.Thumbprint, Dpop.SameTarget, Dpop.FreshAt, Live, WithRow, BlockRow,
      DecisionOf, RiskAgainst;
    var r := step.hook.r;
    if r.proof.Some? {
      var dpop := Dpop.ValidateDpop(env.thumb, r.proof.value, r.httpMethod, r.url, step.now);
      Dpop.ValidIff(env.thumb, r.proof.value, r.httpMethod, r.url, step.now);
      if dpop.valid && dpop.jti.value !in s.seen && r.route.ResourceRoute? {
        var s1 := s.(seen := s.seen + {dpop.jti.value});
        ResourceLog(env, s1, step, dpop);
        ResourceEffect(env, s1, step.now, r, dpop, step.hook.nonce, []);
      }
    }
  }

  /** How many attempts the limiter holds of a client. */
  function HeldOf(s: State, step: Step): nat
    requires step.hook.Req?
  {
    var key := LimiterKey(PresentedJa4(s, step.hook.r.conn));
    |RL.Evict(RL.WindowOf(s.windows, key), step.now - 30)|
  }

  function LeftFor(s: State, step: Step): Option<Stash> {
    if step.hook.Resp? && step.hook.flow in s.stash then Some(s.stash[step.hook.flow]) else None
  }

  lemma {:induction false} RequestLog(env: Env, s: State, step: Step)
    requires step.hook.Req?
    ensures var (s', o) := RequestStep(env, s, step.now, step.hook.r, step.hook.nonce);
            s'.log == s.log + Stamped(step.now,
              Added(env, step, o, BoundIn(s, step), PresentedJa4(s, step.hook.r.conn), HeldOf(s, step), None))
  {
    hide RL.Recorded, RL.Evict, RL.WindowOf, RL.Verdict, ProvenStep, Live, Added, HeldOf;
    var r := step.hook.r;
    var key := LimiterKey(PresentedJa4(s, r.conn));
    if r.route.RevokeRoute? {
      RevokeLog(env, s, step);
    } else {
      var s1 := s.(windows := RL.Recorded(s.windows, RATE_LIMIT_WINDOW, key, step.now));
      ProvenLog(env, s, step);
      ProvenLog(env, s1, step);
      if Metered(step)
         && !RL.Verdict(s.windows, RATE_LIMIT_MAX_ATTEMPTS, RATE_LIMIT_WINDOW, key, step.now).allowed
      {
        LimitedLog(env, s, step);
      }
      RaisedLog(env, s, step);
      var bound, presented := BoundIn(s, step), PresentedJa4(s, r.conn);
      SameAdded(env, step, ProvenStep(env, s, step.now, r, step.hook.nonce).1, bound, presented, HeldOf(s, step));
      SameAdded(env, step, ProvenStep(env, s1, step.now, r, step.hook.nonce).1, bound, presented, HeldOf(s, step));
    }
  }

  lemma {:induction false} RevokeLog(env: Env, s: State, step: Step)
    requires step.hook.Req? && step.hook.r.route.RevokeRoute?
    ensures var (s', o) := RequestStep(env, s, step.now, step.hook.r, step.hook.nonce);
            s'.log == s.log + Stamped(step.now,
              Added(env, step, o, BoundIn(s, step), PresentedJa4(s, step.hook.r.conn), HeldOf(s, step), None))
  {
    hide BoundIn, HeldOf, DecisionOf, RiskAgainst;
  }

  /** A throttled token request logs its client and how many requests of it the limiter now holds. */
  lemma {:induction false} LimitedLog(env: Env, s: State, step: Step)
    requires Metered(step)
             && !RL.Verdict(s.windows, RATE_LIMIT_MAX_ATTEMPTS, RATE_LIMIT_WINDOW,
                            LimiterKey(PresentedJa4(s, step.hook.r.conn)), step.now).allowed
    ensures var (s', o) := RequestStep(env, s, step.now, step.hook.r, step.hook.nonce);
            s'.log == s.log + Stamped(step.now,
              Added(env, step, o, BoundIn(s, step), PresentedJa4(s, step.hook.r.conn), HeldOf(s, step), None))
  {
    hide BoundIn, DecisionOf, RiskAgainst, RL.Recorded, RL.Evict, RL.WindowOf, ProvenStep, Py;
  }

  lemma {:induction false} RaisedLog(env: Env, s: State, step: Step)
    ensures forall bound, presented, recent: nat :: Added(env, step, Raised(TokenUnreadable), bound, presented, recent, None) == []
  {}

  lemma {:induction false} SameAdded(env: Env, step: Step, o: Outcome, bound: Option<BindingRec>, presented: Option<PyStr>,
                                     recent: nat)
    requires !o.RateLimited?
    ensures Added(env, step, o, bound, presented, recent, None) == Added(env, step, o, bound, presented, 0, None)
  {
    hide DecisionOf, RiskAgainst;
  }

  /** What one hook call adds to the log, from any state. */
  lemma {:induction false} NextLog(env: Env, s: State, step: Step)
    ensures var (s', o) := Next(env, s, step);
            var bound := if step.hook.Req? then BoundIn(s, step) else None;
            var presented := if step.hook.Req? then PresentedJa4(s, step.hook.r.conn) else None;
            var held := if step.hook.Req? then HeldOf(s, step) else 0;
            s'.log == s.log + Stamped(step.now, Added(env, step, o, bound, presented, held, LeftFor(s, step)))
  {
    hide RequestStep, HeldOf, BoundIn, PresentedJa4, DecisionOf, RiskAgainst, Push;
    if step.hook.Req? {
      RequestLog(env, s, step);
    }
  }

  // ----- over a whole run -----

  /** What the token of step i is bound to, what its connection presents, how busy its client is. */
  ghost function AddedAt(env: Env, steps: seq<Step>, os: seq<Outcome>, i: nat): seq<Event>
    requires i < |steps| == |os|
  {
    if steps[i].hook.Req? then
      Added(env, steps[i], os[i], BoundBy(env, steps, os, i), Client(steps, i),
            Recent(steps, i, Client(steps, i), steps[i].now - 30), None)
    else if steps[i].hook.Resp? then
      var q := Last(i, IsIssuance(steps, os, steps[i].hook.flow));
      Added(env, steps[i], os[i], None, None, 0, if q >= 0 then Some(StashFrom(env, steps, q)) else None)
    else []
  }

  /** The events of the first n steps, stamped with the time of their step. */
  ghost function LogFrom(env: Env, steps: seq<Step>, os: seq<Outcome>, n: nat): seq<Logged>
    requires n <= |steps| == |os|
  {
    if n == 0 then [] else LogFrom(env, steps, os, n - 1) + Stamped(steps[n - 1].now, AddedAt(env, steps, os, n - 1))
  }

  lemma {:induction false} HeldHistory(env: Env, steps: seq<Step>, i: nat)
    requires Clocked(steps) && i < |steps| && steps[i].hook.Req?
    ensures HeldOf(Before(env, steps, i), steps[i]) == Recent(steps, i, Client(steps, i), steps[i].now - 30)
  {
    hide Run, Before, Recent, AttemptsOf, LimiterKey, Presents, PresentedJa4, RL.Since, RL.TimesOf, RL.Evict, RL.WindowOf,
      RL.Replay;
    var key := LimiterKey(Client(steps, i));
    Ja4History(env, steps, i, steps[i].hook.r.conn);
    WindowsHistory(env, steps, i);
    AttemptsBefore(steps, i, key);
    var hist := AttemptsOf(steps, i);
    assert RL.Clocked(hist) && (hist != [] ==> hist[|hist| - 1].time <= steps[i].now) by {
      var all := hist + [RL.Attempt(key, steps[i].now)];
      assert forall k | 0 <= k < |hist| :: all[k] == hist[k];
      assert all[|hist|].time == steps[i].now;
    }
    RL.WindowIsHistory(30, hist, key, steps[i].now - 30);
    RecentAttempts(steps, i, Client(steps, i), steps[i].now - 30);
  }

  lemma {:induction false} LogStep(env: Env, steps: seq<Step>, i: nat)
    requires Clocked(steps) && i < |steps|
    ensures Before(env, steps, i + 1).log
            == Before(env, steps, i).log + Stamped(steps[i].now, AddedAt(env, steps, Run(env, steps).outcomes, i))
  {
    hide Run, Before, Next, Presents, PresentedJa4, BindingFrom, Live, Recent, HeldOf, StashFrom, DecisionOf, RiskAgainst,
      Stamped;
    var s := Before(env, steps, i);
    OutcomeAt(env, steps, i);
    ClockedNotBefore(steps, i);
    NextLog(env, s, steps[i]);
    match steps[i].hook
    case Req(r, _) =>
      Ja4History(env, steps, i, r.conn);
      HeldHistory(env, steps, i);
      if r.tokenJti.Some? { BindingHistory(env, steps, i, r.tokenJti.value, steps[i].now); }
    case Resp(flow, _, _, _) =>
      StashHistory(env, steps, i, flow);
      ResponseOutcomes(env, s, steps[i]);
    case Hello(_, _) => HelloQuiet(env, s, steps[i]);
  }

  lemma {:induction false} ResponseOutcomes(env: Env, s: State, step: Step)
    requires step.hook.Resp?
    ensures var o := Next(env, s, step).1; o.Quiet? || o.Bound?
  {}

  lemma {:induction false} HelloQuiet(env: Env, s: State, step: Step)
    requires step.hook.Hello?
    ensures Next(env, s, step).1 == Quiet
  {}

  lemma {:induction false} LogPrefix(env: Env, steps: seq<Step>, i: nat)
    requires Clocked(steps) && i <= |steps|
    ensures Before(env, steps, i).log == LogFrom(env, steps, Run(env, steps).outcomes, i)
  {
    hide Run, Before, AddedAt, Stamped;
    if i == 0 {
      BeforeAny(env, steps);
    } else {
      LogPrefix(env, steps, i - 1);
      LogStep(env, steps, i - 1);
    }
  }

  /** The log of a run is what its steps add, in order, by the history before each. */
  lemma {:induction false} LogIsHistory(env: Env, steps: seq<Step>)
    requires Clocked(steps)
    ensures Run(env, steps).state.log == LogFrom(env, steps, Run(env, steps).outcomes, |steps|)
  {
    hide Run, LogFrom;
    LogPrefix(env, steps, |steps|);
    assert steps[..|steps|] == steps;
  }
}
