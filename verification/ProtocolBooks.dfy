/** The dashboard, the audit log and the outcomes of a run agree at every hook boundary. */
module ProtocolBooks {
  import opened PyText
  import opened Json
  import opened Engine
  import opened Protocol
  import opened ProtocolSteps
  import opened ProtocolHistory
  import Dpop
  import RL = RateLimiter
  import ProtocolSafety

  // ----- the dashboard by the log -----

  function Count<T>(xs: seq<T>, p: T -> bool): (n: nat)
    ensures n <= |xs|
  {
    if xs == [] then 0 else Count(xs[..|xs| - 1], p) + if p(xs[|xs| - 1]) then 1 else 0
  }

  function LastOf<T>(xs: seq<T>, n: nat): (r: seq<T>)
    ensures |r| == if |xs| < n then |xs| else n
  {
    if |xs| <= n then xs else xs[|xs| - n..]
  }

  predicate IsVerdict(l: Logged) { l.event.BlockEvent? || l.event.DecisionEvent? }

  predicate IsPass(l: Logged) { l.event.DecisionEvent? && l.event.decision.outcome.Pass? }

  predicate IsRefusal(l: Logged) { IsVerdict(l) && !IsPass(l) }

  /** The table row of a block or a decision. */
  function RowFor(l: Logged): Row
    requires IsVerdict(l)
  {
    match l.event
    case BlockEvent(ip, ja4, reason, story) => Row(l.ts, ip, ja4, None, Block, reason, story)
    case DecisionEvent(d, storyId) => Row(d.ts, d.sourceIp, d.presentedJa4, Some(d), d.outcome, d.reason, Some(storyId))
  }

  function RowsOf(log: seq<Logged>): seq<Row> {
    if log == [] then []
    else
      var before, l := RowsOf(log[..|log| - 1]), log[|log| - 1];
      if IsVerdict(l) then before + [RowFor(l)] else before
  }

  function IssuancesOf(log: seq<Logged>): seq<Issued> {
    if log == [] then []
    else
      var before, l := IssuancesOf(log[..|log| - 1]), log[|log| - 1];
      if l.event.IssuanceEvent?
      then before + [Issued(l.ts, l.event.jti, l.event.jkt, l.event.boundJa4, l.event.sourceIp)]
      else before
  }

  /** The dashboard one would draw from the audit log alone. */
  function DashOf(log: seq<Logged>): Dash {
    Dash(Count(log, IsVerdict), Count(log, IsPass), Count(log, IsRefusal),
         Count(log, (l: Logged) => l.event.RateLimitedEvent?),
         Count(log, (l: Logged) => l.event.ChallengeIssuedEvent?),
         LastOf(RowsOf(log), 15), LastOf(IssuancesOf(log), 15))
  }

  /** Appending to a bounded deque keeps the last of everything appended. */
  lemma {:induction false} PushKeepsLast<T>(xs: seq<T>, x: T)
    ensures Push(LastOf(xs, MAX_ROWS), x) == LastOf(xs + [x], MAX_ROWS)
  {
    if |xs| > MAX_ROWS {
      assert LastOf(xs, MAX_ROWS) + [x] == (xs + [x])[|xs| - MAX_ROWS..];
    }
  }

  /** What the addon and the dashboard do with one event. */
  function Record(d: Dash, l: Logged): Dash {
    match l.event
    case BlockEvent(_, _, _, _) => WithRow(d, RowFor(l))
    case DecisionEvent(_, _) => WithRow(d, RowFor(l))
    case RateLimitedEvent(_, _) => d.(rateLimited := d.rateLimited + 1)
    case ChallengeIssuedEvent(_, _) => d.(challengesIssued := d.challengesIssued + 1)
    case IssuanceEvent(jti, jkt, ja4, ip) => d.(issuances := Push(d.issuances, Issued(l.ts, jti, jkt, ja4, ip)))
    case _ => d
  }

  lemma {:induction false} RecordOne(log: seq<Logged>, l: Logged)
    ensures DashOf(log + [l]) == Record(DashOf(log), l)
  {
    hide Push, LastOf;
    var all := log + [l];
    assert all[..|all| - 1] == log && all[|all| - 1] == l;
    if IsVerdict(l) { PushKeepsLast(RowsOf(log), RowFor(l)); }
    if l.event.IssuanceEvent? {
      PushKeepsLast(IssuancesOf(log), Issued(l.ts, l.event.jti, l.event.jkt, l.event.boundJa4, l.event.sourceIp));
    }
  }

  ghost predicate Booked(s: State) { s.dash == DashOf(s.log) }

  lemma {:induction false} BlockBooked(s: State, now: int, r: Request, reason: Reason)
    requires Booked(s)
    ensures Booked(BlockStep(s, now, r, reason).0)
  {
    hide DashOf, WithRow;
    RecordOne(s.log, Logged(now, BlockEvent(r.sourceIp, PresentedJa4(s, r.conn), reason, r.tokenJti)));
  }

  lemma {:induction false} DecidedBooked(s: State, now: int, d: Decision, jti: PyStr, steppedUp: bool)
    requires Booked(s)
    ensures Booked(DecidedStep(s, now, d, jti, steppedUp).0)
  {
    hide DashOf, WithRow;
    RecordOne(s.log, Logged(now, DecisionEvent(d, jti)));
  }

  lemma {:induction false} NotedBooked(s: State, now: int, jti: PyStr, e: Event)
    requires Booked(s) && (e.ChallengePassedEvent? || e.RevocationEvent?)
    ensures Booked(Noted(s, now, e))
  {
    hide DashOf;
    RecordOne(s.log, Logged(now, e));
  }

  lemma {:induction false} JudgedBooked(env: Env, s: State, now: int, d: Decision, jti: PyStr,
                                        presented: Option<PyStr>, nonce: PyStr)
    requires Booked(s)
    ensures Booked(JudgedStep(env, s, now, d, jti, presented, nonce).0)
  {
    hide DashOf, DecidedStep, AfterVerify, NonceOk, Noted;
    DecidedBooked(s, now, d, jti, false);
    var shown := if presented.Some? then presented.value else [];
    var s' := s.(challenges := AfterVerify(s.challenges, jti, shown, now));
    NotedBooked(s', now, jti, ChallengePassedEvent(jti));
    DecidedBooked(Noted(s', now, ChallengePassedEvent(jti)), now, d, jti, true);
    ChallengeBooked(s', now, d, jti, nonce);
    hide ChallengeStep;
  }

  lemma {:induction false} ChallengeBooked(s: State, now: int, d: Decision, jti: PyStr, nonce: PyStr)
    requires Booked(s)
    ensures Booked(ChallengeStep(s, now, d, jti, nonce).0)
  {
    hide DashOf;
    RecordOne(s.log, Logged(now, ChallengeIssuedEvent(jti, d.riskScore)));
  }

  lemma {:induction false} ResourceBooked(env: Env, s: State, now: int, r: Request, dpop: Dpop.DpopResult, nonce: PyStr)
    requires r.proof.Some? && Booked(s)
    ensures Booked(ResourceStep(env, s, now, r, dpop, nonce).0)
  {
    hide DashOf, BlockStep, JudgedStep, Evaluate, AfterGet;
    BlockBooked(s, now, r, NoBinding);
    if r.tokenJti.Some? {
      var jti := r.tokenJti.value;
      var s', binding := s.(bindings := AfterGet(s.bindings, jti, now)), Live(s.bindings, jti, now);
      BlockBooked(s', now, r, NoBinding);
      if binding.Some? {
        var d := Evaluate(env.policy, binding.value, PresentedJa4(s, r.conn), dpop, r.sourceIp, r.ja4h, now);
        JudgedBooked(env, s', now, d, jti, r.proof.value.claims.nonce, nonce);
      }
    }
  }

  lemma {:induction false} ProvenBooked(env: Env, s: State, now: int, r: Request, nonce: PyStr)
    requires Booked(s)
    ensures Booked(ProvenStep(env, s, now, r, nonce).0)
  {
    hide DashOf, BlockStep, ResourceStep, Dpop.ValidateDpop;
    BlockBooked(s, now, r, MissingProof);
    BlockBooked(s, now, r, ProofReplayed);
    if r.proof.Some? {
      var dpop := Dpop.ValidateDpop(env.thumb, r.proof.value, r.httpMethod, r.url, now);
      Dpop.ValidIff(env.thumb, r.proof.value, r.httpMethod, r.url, now);
      BlockBooked(s, now, r, ProofInvalid(dpop.reason));
      if dpop.valid {
        ResourceBooked(env, s.(seen := s.seen + {dpop.jti.value}), now, r, dpop, nonce);
      }
    }
  }

  lemma {:induction false} RequestBooked(env: Env, s: State, now: int, r: Request, nonce: PyStr)
    requires Booked(s)
    ensures Booked(RequestStep(env, s, now, r, nonce).0)
  {
    hide DashOf, ProvenStep, RL.Recorded, RL.Verdict, LimiterKey;
    ProvenBooked(env, s, now, r, nonce);
    if r.revokeBody.Members? && r.revokeBody.jti.Some? {
      RecordOne(s.log, Logged(now, RevocationEvent(r.revokeBody.jti.value, r.revokedAt)));
    }
    var key := LimiterKey(PresentedJa4(s, r.conn));
    var rate := RL.Verdict(s.windows, RATE_LIMIT_MAX_ATTEMPTS, RATE_LIMIT_WINDOW, key, now);
    ProvenBooked(env, s.(windows := RL.Recorded(s.windows, RATE_LIMIT_WINDOW, key, now)), now, r, nonce);
    RecordOne(s.log, Logged(now, RateLimitedEvent(key, rate.attemptsInWindow)));
  }

  /** Every hook keeps the dashboard a function of the log. */
  lemma {:induction false} NextBooked(env: Env, s: State, step: Step)
    requires Booked(s)
    ensures Booked(Next(env, s, step).0)
  {
    hide DashOf, RequestStep;
    match step.hook
    case Hello(_, _) =>
    case Req(r, nonce) => RequestBooked(env, s, step.now, r, nonce);
    case Resp(flow, route, status, jti) =>
      if jti.Some? && flow in s.stash && s.stash[flow].ja4.Some? {
        var st := s.stash[flow];
        RecordOne(s.log, Logged(step.now, IssuanceEvent(jti.value, st.jkt, st.ja4.value, st.sourceIp)));
      }
  }

  /** The dashboard agrees with the audit log at every hook boundary of every run. */
  lemma {:induction false} DashboardAgrees(env: Env, steps: seq<Step>)
    ensures Run(env, steps).state.dash == DashOf(Run(env, steps).state.log)
  {
    hide Next, DashOf;
    if steps == [] {
      NothingBooked();
    } else {
      DashboardAgrees(env, steps[..|steps| - 1]);
      NextBooked(env, Run(env, steps[..|steps| - 1]).state, steps[|steps| - 1]);
    }
  }

  lemma {:induction false} NothingBooked()
    ensures Booked(INIT)
  {}

  // ----- the dashboard by the outcomes -----

  predicate IsCounted(step: Step) { step.hook.Req? && !step.hook.r.route.RevokeRoute? }

  /** A token or resource request on which the hook raised. */
  predicate Faulted(o: Outcome) { o.Raised? && !o.fault.BodyNotAnObject? }

  /** The counters after an outcome; one class each. */
  ghost predicate Tallied(s: State, s': State, o: Outcome, counted: bool) {
    var d, d' := s.dash, s'.dash;
    && d'.passed == d.passed + (if o.Forwarded? then 1 else 0)
    && d'.blocked == d.blocked + (if o.Blocked? then 1 else 0)
    && d'.total == d.total + (if o.Forwarded? || o.Blocked? then 1 else 0)
    && d'.rateLimited == d.rateLimited + (if o.RateLimited? then 1 else 0)
    && d'.challengesIssued == d.challengesIssued + (if o.Challenged? then 1 else 0)
    && (counted <==> o.Forwarded? || o.Blocked? || o.RateLimited? || o.Challenged? || o.IssuanceForwarded? || Faulted(o))
  }

  lemma {:induction false} JudgedTallied(env: Env, s: State, now: int, d: Decision, jti: PyStr,
                                         presented: Option<PyStr>, nonce: PyStr)
    ensures var (s', o) := JudgedStep(env, s, now, d, jti, presented, nonce); Tallied(s, s', o, true)
  {
    hide Push, AfterVerify, NonceOk, NonceRaises, DecidedStep;
    var shown := if presented.Some? then presented.value else [];
    var s1 := s.(challenges := AfterVerify(s.challenges, jti, shown, now));
    DecidedTallied(s, now, d, jti, false);
    DecidedTallied(Noted(s1, now, ChallengePassedEvent(jti)), now, d, jti, true);
  }

  lemma {:induction false} DecidedTallied(s: State, now: int, d: Decision, jti: PyStr, steppedUp: bool)
    ensures var (s', o) := DecidedStep(s, now, d, jti, steppedUp); Tallied(s, s', o, true)
  {
    hide Push;
  }

  lemma {:induction false} ResourceTallied(env: Env, s: State, now: int, r: Request, dpop: Dpop.DpopResult, nonce: PyStr)
    requires r.proof.Some?
    ensures var (s', o) := ResourceStep(env, s, now, r, dpop, nonce); Tallied(s, s', o, true)
  {
    hide Push, AfterGet, JudgedStep, Evaluate, Live;
    if r.tokenJti.Some? {
      var jti := r.tokenJti.value;
      var s', binding := s.(bindings := AfterGet(s.bindings, jti, now)), Live(s.bindings, jti, now);
      if binding.Some? {
        var d := Evaluate(env.policy, binding.value, PresentedJa4(s, r.conn), dpop, r.sourceIp, r.ja4h, now);
        JudgedTallied(env, s', now, d, jti, r.proof.value.claims.nonce, nonce);
      }
    }
  }

  lemma {:induction false} ProvenTallied(env: Env, s: State, now: int, r: Request, nonce: PyStr)
    ensures var (s', o) := ProvenStep(env, s, now, r, nonce); Tallied(s, s', o, true)
  {
    hide Push, ResourceStep, Dpop.ValidateDpop, Dpop.Thumbprint, Dpop.Genuine, Dpop.FreshAt;
    if r.proof.Some? {
      var dpop := Dpop.ValidateDpop(env.thumb, r.proof.value, r.httpMethod, r.url, now);
      Dpop.ValidIff(env.thumb, r.proof.value, r.httpMethod, r.url, now);
      if dpop.valid {
        ResourceTallied(env, s.(seen := s.seen + {dpop.jti.value}), now, r, dpop, nonce);
      }
    }
  }

  lemma {:induction false} NextTallied(env: Env, s: State, step: Step)
    ensures var (s', o) := Next(env, s, step); Tallied(s, s', o, IsCounted(step))
  {
    hide Push, ProvenStep, RL.Recorded, RL.Verdict, LimiterKey;
    if step.hook.Req? {
      var r := step.hook.r;
      ProvenTallied(env, s, step.now, r, step.hook.nonce);
      var key := LimiterKey(PresentedJa4(s, r.conn));
      ProvenTallied(env, s.(windows := RL.Recorded(s.windows, RATE_LIMIT_WINDOW, key, step.now)), step.now, r, step.hook.nonce);
    }
  }

  /** Requests are conserved: each but a revocation is in exactly one class, and the counters count the classes. */
  lemma {:induction false} RequestsConserved(env: Env, steps: seq<Step>)
    ensures var t := Run(env, steps);
            && t.state.dash.passed == Count(t.outcomes, (o: Outcome) => o.Forwarded?)
            && t.state.dash.blocked == Count(t.outcomes, (o: Outcome) => o.Blocked?)
            && t.state.dash.rateLimited == Count(t.outcomes, (o: Outcome) => o.RateLimited?)
            && t.state.dash.challengesIssued == Count(t.outcomes, (o: Outcome) => o.Challenged?)
            && t.state.dash.total == t.state.dash.passed + t.state.dash.blocked
            && Count(steps, IsCounted) == t.state.dash.total + t.state.dash.rateLimited + t.state.dash.challengesIssued
                                          + Count(t.outcomes, (o: Outcome) => o.IssuanceForwarded?)
                                          + Count(t.outcomes, Faulted)
  {
    hide Next, IsCounted;
    if steps != [] {
      var init := steps[..|steps| - 1];
      RequestsConserved(env, init);
      NextTallied(env, Run(env, init).state, steps[|steps| - 1]);
      var os := Run(env, steps).outcomes;
      assert os[..|os| - 1] == Run(env, init).outcomes;
    }
  }

  lemma {:induction false} CountNone<T>(xs: seq<T>, p: T -> bool)
    requires forall i | 0 <= i < |xs| :: !p(xs[i])
    ensures Count(xs, p) == 0
  {
    if xs != [] { CountNone(xs[..|xs| - 1], p); }
  }

  /** With readable tokens and ASCII nonces there is no further class. */
  lemma {:induction false} AsciiRequestsConserved(env: Env, steps: seq<Step>)
    requires Clocked(steps) && ProtocolSafety.AllAscii(steps)
    ensures var t := Run(env, steps);
            Count(steps, IsCounted) == t.state.dash.total + t.state.dash.rateLimited + t.state.dash.challengesIssued
                                       + Count(t.outcomes, (o: Outcome) => o.IssuanceForwarded?)
  {
    hide Run, Count, IsCounted;
    RequestsConserved(env, steps);
    var os := Run(env, steps).outcomes;
    forall i | 0 <= i < |os| ensures !Faulted(os[i]) {
      if os[i].Raised? { ProtocolSafety.AsciiNeverRaises(env, steps, i); }
    }
    CountNone(os, Faulted);
  }
}
