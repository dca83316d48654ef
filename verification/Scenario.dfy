/** Concrete runs: one that ends in an exception of the hook, and one on which proxy and backend disagree. */
module Scenario {
  import opened PyText
  import opened Json
  import opened Policy
  import opened Engine
  import opened Protocol
  import opened ProtocolSteps
  import opened Backend
  import Dpop
  import RL = RateLimiter

  const TOKEN: PyStr := [65]
  const JA4: PyStr := [116]
  const HOME: PyStr := [49]
  const AWAY: PyStr := [50]
  const SITE: Dpop.Url := Dpop.Url([104], [98], [47], [], [])
  const KEY: Dpop.Jwk := Dpop.Jwk(Py("EC"), Py("P-256"), [1], [2])

  /** A genuine proof of the key for SITE, made at the given time. */
  function ProofAt(jti: PyStr, iat: int, nonce: Option<PyStr>): Dpop.Proof {
    Dpop.Proof(true, Py("dpop+jwt"), Py("ES256"), Py("'ES256'"), Some(KEY), true, now => iat <= now,
               Dpop.Claims(jti, Py("POST"), SITE, Some(iat as real), nonce))
  }

  function Asks(flow: FlowId, route: Route, sourceIp: PyStr, jti: PyStr, iat: int, nonce: Option<PyStr>): Request {
    Request(flow, 0, route, Py("POST"), SITE, sourceIp, false, if route.TokenRoute? then None else Some(TOKEN),
            Some(ProofAt(jti, iat, nonce)), None, Unparsable, Null)
  }

  /** The hash of the key, where there is one. */
  function KeyPrint(env: Env): PyStr { Dpop.Thumbprint(env.thumb, KEY) }

  lemma {:induction false} ProofHolds(env: Env, jti: PyStr, iat: int, nonce: Option<PyStr>, now: int)
    requires iat <= now <= iat + 60
    ensures Dpop.ValidateDpop(env.thumb, ProofAt(jti, iat, nonce), Py("POST"), SITE, now)
            == Dpop.DpopResult(true, Some(KeyPrint(env)), Some(jti), Dpop.ProofOk)
  {
    hide Dpop.Thumbprint, Py, Dpop.Upper, Dpop.Normalize;
  }

  // ----- a token issued -----

  const GREETING: Step := Step(0, Hook.Hello(0, Some(JA4)))
  const TOKEN_REQUEST: Step := Step(0, Req(Asks(0, TokenRoute, HOME, [1], 0, None), []))
  const TOKEN_RESPONSE: Step := Step(0, Resp(0, TokenRoute, 200, Some(TOKEN)))

  /** A state in which the token is bound to the key, the JA4 and the home address since time 0. */
  ghost predicate BoundAtHome(env: Env, s: State) {
    && s.ja4ByConn == map[0 := Some(JA4)] && s.seen == {[1]} && s.challenges == map[]
    && s.bindings == map[TOKEN := BindingRec(TOKEN, KeyPrint(env), JA4, HOME, 0, None, false)]
  }

  lemma {:induction false} FirstAttempt(key: PyStr)
    ensures RL.Verdict(map[], RATE_LIMIT_MAX_ATTEMPTS, RATE_LIMIT_WINDOW, key, 0).allowed
  {}

  /** The state after the greeting. */
  function Greeted(): State { INIT.(ja4ByConn := map[0 := Some(JA4)]) }

  lemma {:induction false} TokenRequested(env: Env)
    ensures var (s, o) := Next(env, Greeted(), TOKEN_REQUEST);
            && o == IssuanceForwarded && s.seen == {[1]} && s.bindings == map[] && s.challenges == map[]
            && s.ja4ByConn == map[0 := Some(JA4)]
            && s.stash == map[0 := Stash(KeyPrint(env), Some(JA4), None, HOME)]
  {
    hide Dpop.ValidateDpop, Dpop.Thumbprint, ProofAt, ResourceStep, BlockStep, RL.Recorded, RL.Verdict, LimiterKey;
    ProofHolds(env, [1], 0, None, 0);
    ProofFields([1], 0, None);
    FirstAttempt(LimiterKey(Some(JA4)));
  }

  lemma {:induction false} ProofFields(jti: PyStr, iat: int, nonce: Option<PyStr>)
    ensures var p := ProofAt(jti, iat, nonce);
            p.claims.jti == jti && p.claims.nonce == nonce && p.jwk == Some(KEY)
  {}

  lemma {:induction false} TokenBound(env: Env)
    requires KeyPrint(env) != []
    ensures var s := Next(env, Next(env, Greeted(), TOKEN_REQUEST).0, TOKEN_RESPONSE).0; BoundAtHome(env, s)
  {
    var s := Next(env, Greeted(), TOKEN_REQUEST).0;
    TokenRequested(env);
    hide RequestStep, Push, KeyPrint;
  }

  /** A request of the token from an address, at a time the binding is live. */
  function Uses(sourceIp: PyStr, jti: PyStr, nonce: Option<PyStr>, now: int, drawn: PyStr): Step {
    Step(now, Req(Asks(1, ResourceRoute, sourceIp, jti, now, nonce), drawn))
  }

  lemma {:induction false} UsePasses(env: Env, s: State, sourceIp: PyStr, jti: PyStr, nonce: Option<PyStr>, now: int, drawn: PyStr)
    requires s.ja4ByConn == map[0 := Some(JA4)] && jti !in s.seen && now <= 300
    requires s.bindings == map[TOKEN := BindingRec(TOKEN, KeyPrint(env), JA4, HOME, 0, None, false)]
    requires (if sourceIp == HOME then 0 else env.policy.ipDelta) < env.policy.riskThreshold
    ensures var step := Uses(sourceIp, jti, nonce, now, drawn);
            && Passes(env, s, step, TOKEN)
            && (Risky(env, s, step, TOKEN)
                <==> env.policy.challengeThreshold <= if sourceIp == HOME then 0 else env.policy.ipDelta)
            && ShownNonce(step.hook.r) == if nonce.Some? then nonce.value else []
  {
    hide Dpop.ValidateDpop, Dpop.Thumbprint, ProofAt;
    ProofHolds(env, jti, now, nonce, now);
    ProofFields(jti, now, nonce);
  }

  // ----- the hook raises -----

  const E_ACUTE: PyStr := [0xE9]

  /** Issue a token, use it from elsewhere, and answer the challenge with a nonce that is not ASCII. */
  function RaisingRun(): seq<Step> {
    [GREETING, TOKEN_REQUEST, TOKEN_RESPONSE, Uses(AWAY, [2], None, 1, [97]), Uses(AWAY, [3], Some(E_ACUTE), 2, [98])]
  }

  lemma {:induction false} RunMore(env: Env, steps: seq<Step>, step: Step)
    ensures Run(env, steps + [step]).state == Next(env, Run(env, steps).state, step).0
    ensures Run(env, steps + [step]).outcomes == Run(env, steps).outcomes + [Next(env, Run(env, steps).state, step).1]
  {
    hide Next;
    assert (steps + [step])[..|steps|] == steps;
  }

  lemma {:induction false} RunNone(env: Env)
    ensures Run(env, []).state == INIT
  {}

  lemma {:induction false} GreetingDone(env: Env)
    ensures Next(env, INIT, GREETING).0 == Greeted()
  {
    hide RequestStep, ResponseStep;
  }

  lemma {:induction false} AfterIssuance(env: Env)
    requires KeyPrint(env) != []
    ensures BoundAtHome(env, Run(env, [GREETING, TOKEN_REQUEST, TOKEN_RESPONSE]).state)
  {
    hide Run, Next, KeyPrint, BoundAtHome;
    RunNone(env);
    RunMore(env, [], GREETING);
    GreetingDone(env);
    RunMore(env, [GREETING], TOKEN_REQUEST);
    RunMore(env, [GREETING, TOKEN_REQUEST], TOKEN_RESPONSE);
    TokenBound(env);
    assert [] + [GREETING] == [GREETING] && [GREETING] + [TOKEN_REQUEST] == [GREETING, TOKEN_REQUEST];
    assert [GREETING, TOKEN_REQUEST] + [TOKEN_RESPONSE] == [GREETING, TOKEN_REQUEST, TOKEN_RESPONSE];
  }

  /**
   * A hard-signal match in the challenge band that answers a live challenge with a nonce that is not ASCII
   * makes the hook raise: no answer, no row, no count, no log entry and no new nonce.
   */
  lemma {:induction false} NonAsciiNonceRaises(env: Env)
    requires KeyPrint(env) != [] && env.policy.challengeThreshold <= env.policy.ipDelta < env.policy.riskThreshold
    ensures var run := RaisingRun();
            var before, after := Run(env, run[..4]).state, Run(env, run);
            && Clocked(run) && after.outcomes[3] == Challenged(TOKEN, [97])
            && after.outcomes[4] == Raised(NonceNotAscii(TOKEN))
            && after.state.log == before.log && after.state.dash == before.dash
            && after.state.challenges == before.challenges
  {
    var run := RaisingRun();
    var issued := run[..3];
    var s := Run(env, issued).state;
    hide Run, KeyPrint, Uses, RaisingRun, JudgedStep;
    RunParts();
    AfterIssuance(env);
    RunMore(env, issued, run[3]);
    RunMore(env, run[..4], run[4]);
    Challenged1(env, s);
    Raised2(env, s, Next(env, s, run[3]).0);
    hide Next, BoundAtHome;
  }

  lemma {:induction false} RunParts()
    ensures var run := RaisingRun();
            && |run| == 5 && run[..3] == [GREETING, TOKEN_REQUEST, TOKEN_RESPONSE]
            && run[..3] + [run[3]] == run[..4] && run[..4] + [run[4]] == run && Clocked(run)
            && run[3] == Uses(AWAY, [2], None, 1, [97]) && run[4] == Uses(AWAY, [3], Some(E_ACUTE), 2, [98])
  {
    hide ProofAt;
  }

  lemma {:induction false} Challenged1(env: Env, s: State)
    requires BoundAtHome(env, s) && env.policy.challengeThreshold <= env.policy.ipDelta < env.policy.riskThreshold
    ensures var (s', o) := Next(env, s, Uses(AWAY, [2], None, 1, [97]));
            && o == Challenged(TOKEN, [97]) && s'.seen == {[1], [2]} && s'.bindings == s.bindings
            && s'.ja4ByConn == s.ja4ByConn
            && TOKEN in s'.challenges && s'.challenges[TOKEN] == Challenge([97], 1)
  {
    var step := Uses(AWAY, [2], None, 1, [97]);
    UsePasses(env, s, AWAY, [2], None, 1, [97]);
    hide Next, Passes, Risky, KeyPrint;
    ChallengedIff(env, s, step, TOKEN, [97]);
    ChallengeEffect(env, s, step, TOKEN);
    SeenEffect(env, s, step);
    HelloEffect(env, s, step);
    LiveKept(env, s, step);
    ProofFields([2], 1, None);
  }

  /** A live binding of the only token survives a request of it. */
  lemma {:induction false} LiveKept(env: Env, s: State, step: Step)
    requires BoundAtHome(env, s) && step.hook.Req? && step.hook.r.route.ResourceRoute? && step.now <= 300
    ensures Next(env, s, step).0.bindings == s.bindings
  {
    hide Next, KeyPrint;
    var s' := Next(env, s, step).0;
    BindsIff(env, s, step, TOKEN);
    NotBoundNorRevoked(env, s, step);
    forall j | j in s'.bindings ensures j in s.bindings && s'.bindings[j] == s.bindings[j] {
      BindingEffect(env, s, step, j);
    }
    BindingEffect(env, s, step, TOKEN);
    assert Live(s.bindings, TOKEN, step.now).Some?;
    assert Live(s'.bindings, TOKEN, step.now).Some?;
  }

  lemma {:induction false} NotBoundNorRevoked(env: Env, s: State, step: Step)
    requires step.hook.Req? && step.hook.r.route.ResourceRoute?
    ensures var o := Next(env, s, step).1; !o.Bound? && !o.Revoked?
  {
    hide ProvenStep;
    ProvenEffect(env, s, step.now, step.hook.r, step.hook.nonce, []);
  }

  lemma {:induction false} Raised2(env: Env, s: State, t: State)
    requires BoundAtHome(env, s) && t.seen == {[1], [2]} && t.bindings == s.bindings && t.ja4ByConn == s.ja4ByConn
    requires TOKEN in t.challenges && t.challenges[TOKEN] == Challenge([97], 1)
    requires env.policy.challengeThreshold <= env.policy.ipDelta < env.policy.riskThreshold
    ensures var (t', o) := Next(env, t, Uses(AWAY, [3], Some(E_ACUTE), 2, [98]));
            && o == Raised(NonceNotAscii(TOKEN))
            && t'.log == t.log && t'.dash == t.dash && t'.challenges == t.challenges
  {
    var step := Uses(AWAY, [3], Some(E_ACUTE), 2, [98]);
    var mine: PyStr, first: PyStr, second: PyStr := [3], [1], [2];
    assert mine[0] == 3 && first[0] == 1 && second[0] == 2;
    UsePasses(env, t, AWAY, [3], Some(E_ACUTE), 2, [98]);
    hide Passes, Risky, KeyPrint, ProofAt;
    assert !AsciiText(E_ACUTE);
    assert NonceClashes(env, t, step, TOKEN);
    NonceRaisesIff(env, t, step, TOKEN);
    RaisedKeeps(env, t, step, TOKEN);
  }

  // ----- proxy and backend disagree -----

  /** Greet, ask for a token, issue it, and pass the answer back, all at time 0. */
  function IssuingActs(): seq<Act> {
    [Act(0, Action.Hello(0, Some(JA4))), Act(0, Send(Asks(0, TokenRoute, HOME, [1], 0, None), [])),
     Act(0, Issue(0, [99], SITE, TOKEN)), Act(0, Answer(0))]
  }

  function IssuedToken(env: Env): Token { Token([99], TOKEN, KeyPrint(env), 0, 300) }

  lemma {:induction false} SysMore(env: Env, acts: seq<Act>, a: Act)
    ensures SysRun(env, acts + [a]) == SysNext(env, SysRun(env, acts), a)
    ensures Proper(env, acts + [a]) <==> Proper(env, acts) && Allowed(SysRun(env, acts), a)
  {
    hide SysNext, Allowed;
    assert (acts + [a])[..|acts|] == acts;
  }

  lemma {:induction false} SysNone(env: Env)
    ensures SysRun(env, []) == EMPTY && Proper(env, [])
  {}

  lemma {:induction false} ActParts()
    ensures var acts := IssuingActs();
            && |acts| == 4 && acts[..1] == [] + [acts[0]] && acts[..2] == acts[..1] + [acts[1]]
            && acts[..3] == acts[..2] + [acts[2]] && acts == acts[..3] + [acts[3]]
  {
    hide Asks;
  }

  /** What proxy and backend hold once the token is issued and bound. */
  lemma {:induction false} Issuing(env: Env)
    requires KeyPrint(env) != []
    ensures var sys := SysRun(env, IssuingActs());
            && Proper(env, IssuingActs()) && sys.clock == 0 && BoundAtHome(env, sys.proxy)
            && sys.tokens == map[TOKEN := IssuedToken(env)]
  {
    var acts := IssuingActs();
    hide SysRun, Proper, Next, KeyPrint, BoundAtHome, ProofAt, Dpop.ValidateDpop;
    ActParts();
    SysNone(env);
    SysMore(env, [], acts[0]);
    SysMore(env, acts[..1], acts[1]);
    SysMore(env, acts[..2], acts[2]);
    SysMore(env, acts[..3], acts[3]);
    GreetingDone(env);
    TokenRequested(env);
    TokenBound(env);
    ProofHolds(env, [1], 0, None, 0);
  }

  /** A use of the token from home, at the given time. */
  function HomeUse(now: int): Request { Uses(HOME, [2], None, now, []).hook.r }

  /**
   * A reachable instance: a use of the token is forwarded up to its 300th second; the backend accepts it
   * before, and refuses it at that instant.
   */
  lemma {:induction false} LastInstantReached(env: Env, now: int)
    requires KeyPrint(env) != [] && 0 < env.policy.challengeThreshold && 0 < env.policy.riskThreshold && 0 <= now <= 300
    ensures var acts, t := IssuingActs(), IssuedToken(env);
            && Proper(env, acts) && Forwards(env, acts, HomeUse(now), [], t, now)
            && HomeUse(now).proof.Some?
            && Authenticate(env.thumb, SysRun(env, acts).tokens, true, t, HomeUse(now).proof.value, Py("POST"), SITE, now)
               == if now < 300 then Some(t.sub) else None
  {
    Issuing(env);
    var s := SysRun(env, IssuingActs()).proxy;
    hide SysRun, Proper, Dpop.ValidateDpop, ProofAt, KeyPrint;
    UsePasses(env, s, HOME, [2], None, now, []);
    ForwardedIff(env, s, Uses(HOME, [2], None, now, []), TOKEN, false);
    hide Next, Passes, Risky;
    ProofHolds(env, [2], now, None, now);
  }
}
