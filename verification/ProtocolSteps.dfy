/** What one hook call can do to each store, read off its outcome. */
module ProtocolSteps {
  import opened PyText
  import opened Json
  import opened Policy
  import opened Engine
  import opened Protocol
  import Dpop
  import RL = RateLimiter

  /** The request got past the replay check. */
  predicate Accepted(o: Outcome) {
    match o
    case IssuanceForwarded => true
    case Challenged(_, _) => true
    case Forwarded(_, _) => true
    case Raised(NonceNotAscii(_)) => true
    case Blocked(reason) => !reason.MissingProof? && !reason.ProofInvalid? && !reason.ProofReplayed?
    case _ => false
  }

  predicate HasProof(step: Step) { step.hook.Req? && step.hook.r.proof.Some? }

  function ProofOf(step: Step): Dpop.Proof
    requires HasProof(step)
  {
    step.hook.r.proof.value
  }

  predicate ProofValid(env: Env, step: Step)
    requires HasProof(step)
  {
    Dpop.ValidateDpop(env.thumb, ProofOf(step), step.hook.r.httpMethod, step.hook.r.url, step.now).valid
  }

  /** What a token request leaves behind. */
  function StashOf(env: Env, s: State, r: Request): Stash
    requires r.proof.Some? && r.proof.value.jwk.Some?
  {
    Stash(Dpop.Thumbprint(env.thumb, r.proof.value.jwk.value), PresentedJa4(s, r.conn), r.ja4h, r.sourceIp)
  }

  // ----- from the inside out -----

  /** Everything but challenges, the log and the dashboard. */
  ghost predicate SameCore(s: State, s': State) {
    s'.ja4ByConn == s.ja4ByConn && s'.seen == s.seen && s'.stash == s.stash && s'.windows == s.windows
  }

  ghost predicate SameOpen(s: State, s': State, j: PyStr, from: int) {
    forall now | now >= from :: Open(s'.challenges, j, now) == Open(s.challenges, j, now)
  }

  /** The token's binding is as it was, unless it had expired and is gone. */
  ghost predicate SameLive(s: State, s': State, j: PyStr, from: int) {
    (forall now | now >= from :: Live(s'.bindings, j, now) == Live(s.bindings, j, now))
    && (j in s'.bindings ==> j in s.bindings && s'.bindings[j] == s.bindings[j])
  }

  /** How the challenges of token j fare, by the outcome. */
  ghost predicate ChallengesFollow(s: State, s': State, o: Outcome, j: PyStr, now: int, nonce: PyStr) {
    if o.Challenged? && o.jti == j then
      j in s'.challenges && s'.challenges[j] == Challenge(nonce, now) && o.nonce == nonce
    else if o == Forwarded(j, true) then j !in s'.challenges
    else SameOpen(s, s', j, now)
  }

  lemma {:induction false} DecidedKeeps(s: State, now: int, d: Decision, jti: PyStr, steppedUp: bool)
    ensures var (s', o) := DecidedStep(s, now, d, jti, steppedUp);
            && s' == s.(log := s'.log, dash := s'.dash)
            && o == if d.outcome.Pass? then Forwarded(jti, steppedUp) else Blocked(d.reason)
  {
    hide WithRow, DecisionRow;
  }

  /** What checking a nonce leaves open. */
  lemma {:induction false} VerifyEffect(challenges: map<PyStr, Challenge>, jti: PyStr, nonce: PyStr, now: int, j: PyStr)
    ensures var after := AfterVerify(challenges, jti, nonce, now);
            if NonceOk(challenges, jti, nonce, now) then
              jti !in after && (j != jti ==> forall t :: Open(after, j, t) == Open(challenges, j, t))
            else forall t | t >= now :: Open(after, j, t) == Open(challenges, j, t)
  {
    hide AsciiText;
  }

  lemma {:induction false} RaisesNotOk(challenges: map<PyStr, Challenge>, jti: PyStr, nonce: PyStr, now: int)
    ensures NonceRaises(challenges, jti, nonce, now) ==> !NonceOk(challenges, jti, nonce, now)
  {
    hide AsciiText;
  }

  lemma {:induction false} JudgedEffect(env: Env, s: State, now: int, d: Decision, jti: PyStr,
                                        presented: Option<PyStr>, nonce: PyStr, j: PyStr)
    requires d.outcome.Pass? <==> d.reason.DecisionOk?
    ensures var (s', o) := JudgedStep(env, s, now, d, jti, presented, nonce);
            && SameCore(s, s') && s'.bindings == s.bindings
            && (o == Challenged(jti, nonce) || o == Forwarded(jti, o.Forwarded? && o.steppedUp)
                || o == Raised(NonceNotAscii(jti)) || (o == Blocked(d.reason) && !d.reason.DecisionOk?))
            && ChallengesFollow(s, s', o, j, now, nonce)
  {
    hide DecidedStep, AfterVerify, NonceOk, NonceRaises, AsciiText;
    var shown := if presented.Some? then presented.value else [];
    var s1 := s.(challenges := AfterVerify(s.challenges, jti, shown, now));
    DecidedKeeps(s, now, d, jti, false);
    DecidedKeeps(Noted(s1, now, ChallengePassedEvent(jti)), now, d, jti, true);
    VerifyEffect(s.challenges, jti, shown, now, j);
    RaisesNotOk(s.challenges, jti, shown, now);
  }

  /** A resource request changes nothing but what the lookup expires, the challenges, the log and the dashboard. */
  lemma {:induction false} ResourceEffect(env: Env, s: State, now: int, r: Request, dpop: Dpop.DpopResult,
                                          nonce: PyStr, j: PyStr)
    requires r.proof.Some? && dpop.valid
    ensures var (s', o) := ResourceStep(env, s, now, r, dpop, nonce);
            && SameCore(s, s') && SameLive(s, s', j, now) && Accepted(o)
            && (o.Challenged? || o.Forwarded? || o.Blocked? || (o.Raised? && o.fault.NonceNotAscii?))
            && ChallengesFollow(s, s', o, j, now, nonce)
  {
    hide JudgedStep, Evaluate, WithRow, BlockRow;
    if r.tokenJti.Some? && r.tokenJti.value != [] {
      var jti := r.tokenJti.value;
      var binding := Live(s.bindings, jti, now);
      if binding.Some? {
        var d := Evaluate(env.policy, binding.value, PresentedJa4(s, r.conn), dpop, r.sourceIp, r.ja4h, now);
        PassIff(env.policy, binding.value, PresentedJa4(s, r.conn), dpop, r.sourceIp, r.ja4h, now);
        EngineReasons(env.policy, binding.value, PresentedJa4(s, r.conn), dpop, r.sourceIp, r.ja4h, now);
        JudgedEffect(env, s.(bindings := AfterGet(s.bindings, jti, now)), now, d, jti, r.proof.value.claims.nonce, nonce, j);
      }
    }
  }

  ghost predicate ProvenFollows(env: Env, s: State, s': State, o: Outcome, now: int, r: Request, nonce: PyStr, j: PyStr) {
    && s'.ja4ByConn == s.ja4ByConn && s'.windows == s.windows
    && SameLive(s, s', j, now) && ChallengesFollow(s, s', o, j, now, nonce)
    && !o.Bound? && !o.Revoked? && !o.RateLimited? && (o.Raised? ==> o.fault.NonceNotAscii?)
    && (Accepted(o) ==>
          r.proof.Some? && Dpop.ValidateDpop(env.thumb, r.proof.value, r.httpMethod, r.url, now).valid
          && r.proof.value.claims.jti !in s.seen)
    && s'.seen == (if Accepted(o) then s.seen + {r.proof.value.claims.jti} else s.seen)
    && (o.IssuanceForwarded? ==> r.route.TokenRoute? && r.proof.value.jwk.Some?)
    && s'.stash == if o.IssuanceForwarded? then s.stash[r.flow := StashOf(env, s, r)] else s.stash
  }

  lemma {:induction false} ProvenEffect(env: Env, s: State, now: int, r: Request, nonce: PyStr, j: PyStr)
    ensures var (s', o) := ProvenStep(env, s, now, r, nonce);
            ProvenFollows(env, s, s', o, now, r, nonce, j)
  {
    hide ResourceStep, Dpop.ValidateDpop, Dpop.Thumbprint, Dpop.SameTarget, Dpop.FreshAt, WithRow, BlockRow, Live, Open, NonceOk;
    if r.proof.Some? {
      Dpop.ValidIff(env.thumb, r.proof.value, r.httpMethod, r.url, now);
      var dpop := Dpop.ValidateDpop(env.thumb, r.proof.value, r.httpMethod, r.url, now);
      if dpop.valid && dpop.jti.value !in s.seen && !r.route.TokenRoute? {
        ResourceEffect(env, s.(seen := s.seen + {dpop.jti.value}), now, r, dpop, nonce, j);
      }
    }
  }

  /** The request hook on the two routes that carry a proof. */
  lemma {:induction false} RequestEffect(env: Env, s: State, now: int, r: Request, nonce: PyStr, j: PyStr)
    requires !r.route.RevokeRoute?
    ensures var (s', o) := RequestStep(env, s, now, r, nonce);
            o == RateLimited || o == Raised(TokenUnreadable) || ProvenFollows(env, s, s'.(windows := s.windows), o, now, r, nonce, j)
    ensures RequestStep(env, s, now, r, nonce).1 in {RateLimited, Raised(TokenUnreadable)} ==>
              RequestStep(env, s, now, r, nonce).0.(windows := s.windows, log := s.log, dash := s.dash) == s
  {
    ProvenEffect(env, s, now, r, nonce, j);
    if r.route.TokenRoute? {
      var key := LimiterKey(PresentedJa4(s, r.conn));
      var w := RL.Recorded(s.windows, RATE_LIMIT_WINDOW, key, now);
      ProvenEffect(env, s.(windows := w), now, r, nonce, j);
    }
    hide ProvenStep, RL.Recorded, RL.Verdict, Live, Open, NonceOk, LimiterKey, Dpop.ValidateDpop, Dpop.Thumbprint;
  }

  // ----- store by store -----

  /** The replay set grows by exactly the proof of an accepted request, which was not in it. */
  lemma {:induction false} SeenEffect(env: Env, s: State, step: Step)
    ensures var (s', o) := Next(env, s, step);
            if Accepted(o)
            then HasProof(step) && ProofValid(env, step) && ProofOf(step).claims.jti !in s.seen
                 && s'.seen == s.seen + {ProofOf(step).claims.jti}
            else s'.seen == s.seen
  {
    if step.hook.Req? && !step.hook.r.route.RevokeRoute? {
      RequestEffect(env, s, step.now, step.hook.r, step.hook.nonce, []);
      hide RequestStep, RL.Recorded, Dpop.ValidateDpop, Dpop.Thumbprint, Push;
    }
  }

  lemma {:induction false} StashEffect(env: Env, s: State, step: Step)
    ensures var (s', o) := Next(env, s, step);
            if o.IssuanceForwarded?
            then HasProof(step) && step.hook.r.route.TokenRoute? && ProofOf(step).jwk.Some?
                 && s'.stash == s.stash[step.hook.r.flow := StashOf(env, s, step.hook.r)]
            else s'.stash == s.stash
  {
    if step.hook.Req? && !step.hook.r.route.RevokeRoute? {
      RequestEffect(env, s, step.now, step.hook.r, step.hook.nonce, []);
      hide RequestStep, RL.Recorded, Dpop.ValidateDpop, Dpop.Thumbprint, Push;
    }
  }

  /** Only a new ClientHello changes what a connection presents. */
  lemma {:induction false} HelloEffect(env: Env, s: State, step: Step)
    ensures var (s', o) := Next(env, s, step);
            s'.ja4ByConn == if step.hook.Hello? then s.ja4ByConn[step.hook.conn := step.hook.ja4] else s.ja4ByConn
  {
    if step.hook.Req? && !step.hook.r.route.RevokeRoute? {
      RequestEffect(env, s, step.now, step.hook.r, step.hook.nonce, []);
      hide RequestStep, RL.Recorded, Dpop.ValidateDpop, Dpop.Thumbprint, Push;
    }
  }

  /** What a token response binds. */
  function BoundRec(st: Stash, jti: PyStr, now: int): BindingRec
    requires Bindable(st)
  {
    BindingRec(jti, st.jkt, st.ja4.value, st.sourceIp, now, st.ja4h, false)
  }

  predicate BindsAs(s: State, step: Step, jti: PyStr) {
    step.hook.Resp? && step.hook.route.TokenRoute? && step.hook.status == 200 && step.hook.jti == Some(jti)
    && step.hook.flow in s.stash && Bindable(s.stash[step.hook.flow])
  }

  /** A token's binding appears by a bind, is flagged by a revoke, and otherwise at most expires. */
  lemma {:induction false} BindingEffect(env: Env, s: State, step: Step, j: PyStr)
    ensures var (s', o) := Next(env, s, step);
            match o
            case Bound(k) =>
              BindsAs(s, step, k) && s'.bindings == s.bindings[k := BoundRec(s.stash[step.hook.flow], k, step.now)]
            case Revoked(k) =>
              k in s.bindings && s'.bindings == s.bindings[k := s.bindings[k].(revoked := true)]
            case _ => SameLive(s, s', j, step.now)
  {
    if step.hook.Req? && !step.hook.r.route.RevokeRoute? {
      RequestEffect(env, s, step.now, step.hook.r, step.hook.nonce, j);
      hide RequestStep, RL.Recorded, Dpop.ValidateDpop, Dpop.Thumbprint, Push;
    }
  }

  /** The other way: which hooks bind and which revoke. */
  lemma {:induction false} BindsIff(env: Env, s: State, step: Step, j: PyStr)
    ensures Next(env, s, step).1 == Bound(j) <==> BindsAs(s, step, j)
  {}

  lemma {:induction false} RevokesIff(env: Env, s: State, step: Step, j: PyStr)
    ensures Next(env, s, step).1 == Revoked(j) <==>
            step.hook.Req? && step.hook.r.route.RevokeRoute? && step.hook.r.revokeBody == Members(Some(j)) && j != []
            && j in s.bindings
  {}

  /** The risk a request carries against a binding. */
  function RiskOf(env: Env, b: BindingRec, r: Request): int { Risk(env.policy, b, r.sourceIp, r.ja4h) }

  function ShownNonce(r: Request): PyStr
    requires r.proof.Some?
  {
    if r.proof.value.claims.nonce.Some? then r.proof.value.claims.nonce.value else []
  }

  /** Everything short of the step-up nonce that a forwarded resource request needs. */
  predicate Passes(env: Env, s: State, step: Step, j: PyStr) {
    && HasProof(step) && step.hook.r.route.ResourceRoute? && !step.hook.r.tokenRaises
    && step.hook.r.tokenJti == Some(j) && j != []
    && ProofValid(env, step) && ProofOf(step).claims.jti !in s.seen
    && var b := Live(s.bindings, j, step.now);
    && b.Some? && !b.value.revoked
    && PresentedJa4(s, step.hook.r.conn) == Some(b.value.ja4)
    && ProofOf(step).jwk.Some? && Dpop.Thumbprint(env.thumb, ProofOf(step).jwk.value) == b.value.jkt
    && RiskOf(env, b.value, step.hook.r) < env.policy.riskThreshold
  }

  predicate Risky(env: Env, s: State, step: Step, j: PyStr)
    requires Passes(env, s, step, j)
  {
    env.policy.challengeThreshold <= RiskOf(env, Live(s.bindings, j, step.now).value, step.hook.r)
  }

  predicate ShowsNonce(env: Env, s: State, step: Step, j: PyStr)
    requires Passes(env, s, step, j)
  {
    NonceOk(s.challenges, j, ShownNonce(step.hook.r), step.now)
  }

  predicate NonceClashes(env: Env, s: State, step: Step, j: PyStr)
    requires Passes(env, s, step, j)
  {
    NonceRaises(s.challenges, j, ShownNonce(step.hook.r), step.now)
  }

  /** Exactly which requests are forwarded, and whether by a stepped-up proof. */
  lemma {:induction false} ForwardedIff(env: Env, s: State, step: Step, j: PyStr, steppedUp: bool)
    ensures Next(env, s, step).1 == Forwarded(j, steppedUp)
            <==> Passes(env, s, step, j) && steppedUp == Risky(env, s, step, j)
                 && (steppedUp ==> ShowsNonce(env, s, step, j))
  {
    hide RL.Recorded, RL.Verdict, WithRow, BlockRow, DecisionRow, LimiterKey, Dpop.Thumbprint, AfterVerify, AfterGet,
      NonceOk, NonceRaises;
    if step.hook.Req? && step.hook.r.proof.Some? {
      RaisesNotOk(s.challenges, j, ShownNonce(step.hook.r), step.now);
    }
  }

  /** Exactly which requests are challenged, and with what. */
  lemma {:induction false} ChallengedIff(env: Env, s: State, step: Step, j: PyStr, nonce: PyStr)
    ensures Next(env, s, step).1 == Challenged(j, nonce)
            <==> Passes(env, s, step, j) && Risky(env, s, step, j) && !ShowsNonce(env, s, step, j)
                 && !NonceClashes(env, s, step, j) && step.hook.nonce == nonce
  {
    hide RL.Recorded, RL.Verdict, WithRow, BlockRow, DecisionRow, LimiterKey, Dpop.Thumbprint, AfterVerify, AfterGet,
      NonceOk, NonceRaises;
    if step.hook.Req? && step.hook.r.proof.Some? {
      RaisesNotOk(s.challenges, j, ShownNonce(step.hook.r), step.now);
    }
  }

  /** Exactly when comparing the nonce makes the hook raise. */
  lemma {:induction false} NonceRaisesIff(env: Env, s: State, step: Step, j: PyStr)
    ensures Next(env, s, step).1 == Raised(NonceNotAscii(j))
            <==> Passes(env, s, step, j) && Risky(env, s, step, j) && NonceClashes(env, s, step, j)
  {
    hide RL.Recorded, RL.Verdict, WithRow, BlockRow, DecisionRow, LimiterKey, Dpop.Thumbprint, AfterVerify, AfterGet,
      NonceOk, NonceRaises;
    if step.hook.Req? && step.hook.r.proof.Some? {
      RaisesNotOk(s.challenges, j, ShownNonce(step.hook.r), step.now);
    }
  }

  /** Then nothing changes but that the proof counts as used: no row, no count, no log entry, no new nonce. */
  lemma {:induction false} RaisedKeeps(env: Env, s: State, step: Step, j: PyStr)
    requires Next(env, s, step).1 == Raised(NonceNotAscii(j))
    ensures HasProof(step) && Next(env, s, step).0 == s.(seen := s.seen + {ProofOf(step).claims.jti})
  {
    NonceRaisesIff(env, s, step, j);
    hide RL.Recorded, RL.Verdict, LimiterKey, Dpop.Thumbprint, NonceOk, AsciiText, DecidedStep, ChallengeStep, BlockStep, Push;
  }

  /** Exactly when the hook raises before that. */
  lemma {:induction false} OtherRaisesIff(env: Env, s: State, step: Step)
    ensures Next(env, s, step) == (s, Raised(TokenUnreadable))
            <==> step.hook.Req? && !step.hook.r.route.RevokeRoute? && step.hook.r.tokenRaises
    ensures Next(env, s, step) == (s, Raised(BodyNotAnObject))
            <==> step.hook.Req? && step.hook.r.route.RevokeRoute? && step.hook.r.revokeBody.NotAnObject?
    ensures var o := Next(env, s, step).1;
            o == Raised(TokenUnreadable) || o == Raised(BodyNotAnObject) ==> Next(env, s, step).0 == s
  {
    hide RL.Recorded, RL.Verdict, ProvenStep, LimiterKey;
    if step.hook.Req? {
      var r := step.hook.r;
      ProvenEffect(env, s, step.now, r, step.hook.nonce, []);
      var w := RL.Recorded(s.windows, RATE_LIMIT_WINDOW, LimiterKey(PresentedJa4(s, r.conn)), step.now);
      ProvenEffect(env, s.(windows := w), step.now, r, step.hook.nonce, []);
    }
  }

  /** A token's challenge is replaced by a new one, used up by a stepped-up request, and otherwise at most expires. */
  lemma {:induction false} ChallengeEffect(env: Env, s: State, step: Step, j: PyStr)
    ensures var (s', o) := Next(env, s, step);
            if o.Challenged? && o.jti == j then
              j in s'.challenges && s'.challenges[j] == Challenge(o.nonce, step.now) && o.nonce == step.hook.nonce
            else if o == Forwarded(j, true) then
              j !in s'.challenges
            else
              forall now | now >= step.now :: Open(s'.challenges, j, now) == Open(s.challenges, j, now)
  {
    if step.hook.Req? && !step.hook.r.route.RevokeRoute? {
      RequestEffect(env, s, step.now, step.hook.r, step.hook.nonce, j);
      hide RequestStep, RL.Recorded, Dpop.ValidateDpop, Dpop.Thumbprint, Push;
    }
  }

  /** A stored binding that was not bound by this step was there before, up to the revoked flag. */
  lemma {:induction false} StoredEffect(env: Env, s: State, step: Step, j: PyStr)
    requires j in Next(env, s, step).0.bindings
    ensures var (s', o) := Next(env, s, step);
            if o == Bound(j)
            then BindsAs(s, step, j) && s'.bindings[j] == BoundRec(s.stash[step.hook.flow], j, step.now)
            else j in s.bindings && s'.bindings[j] == s.bindings[j].(revoked := s'.bindings[j].revoked)
  {
    hide Next, Live, BindsAs;
    BindingEffect(env, s, step, j);
  }
}
