/**
 * The proxy as a state machine (proxy/addon.py): what each hook does to the stores, the audit log and
 * the dashboard, and how it answers.  One clock reading serves a whole hook.
 */
module Protocol {
  import opened PyText
  import opened Json
  import opened Policy
  import opened Engine
  import Dpop
  import RateLimiter

  const TOKEN_TTL: int := 300
  const CHALLENGE_TTL: int := 30
  const RATE_LIMIT_MAX_ATTEMPTS: int := 5
  const RATE_LIMIT_WINDOW: int := 30
  const MAX_ROWS: nat := 15

  type ConnId = nat
  type FlowId = nat

  // ----- what goes in -----

  datatype Env = Env(policy: Policy, thumb: Dpop.ThumbHash)

  /** The request path, compared with the two the proxy treats specially. */
  datatype Route = TokenRoute | RevokeRoute | ResourceRoute

  /** The body of a revocation; `jti` is absent when it is missing or not text. */
  datatype RevokeBody = Unparsable | NotAnObject | Members(jti: Option<PyStr>)

  /**
   * One request: whether decoding its token raises something the hook does not catch, the token's
   * unverified `jti`, the presented proof, the header-shape fingerprint, and for a revocation its body and
   * the fractional clock reading its log entry is stamped with.
   */
  datatype Request = Request(
    flow: FlowId,
    conn: ConnId,
    route: Route,
    httpMethod: PyStr,
    url: Dpop.Url,
    sourceIp: PyStr,
    tokenRaises: bool,
    tokenJti: Option<PyStr>,
    proof: Option<Dpop.Proof>,
    ja4h: Option<PyStr>,
    revokeBody: RevokeBody,
    revokedAt: Json)

  /** A hook call; a request carries the nonce `secrets` would yield if one is issued. */
  datatype Hook =
    | Hello(conn: ConnId, ja4: Option<PyStr>)
    | Req(r: Request, nonce: PyStr)
    | Resp(flow: FlowId, route: Route, status: int, jti: Option<PyStr>)

  datatype Step = Step(now: int, hook: Hook)

  // ----- what comes out -----

  /** What makes the request hook end in an exception. */
  datatype Fault = TokenUnreadable | BodyNotAnObject | NonceNotAscii(jti: PyStr)

  /** How a hook ends; a hook that raises leaves its flow without an answer. */
  datatype Outcome =
    | Quiet
    | RevokeRefused
    | RevokeUnknown
    | Revoked(jti: PyStr)
    | RateLimited
    | Blocked(reason: Reason)
    | IssuanceForwarded
    | Challenged(jti: PyStr, nonce: PyStr)
    | Forwarded(jti: PyStr, steppedUp: bool)
    | Bound(jti: PyStr)
    | Raised(fault: Fault)

  // ----- state -----

  datatype Challenge = Challenge(nonce: PyStr, issuedAt: int)

  /** What a token request leaves for its response. */
  datatype Stash = Stash(jkt: PyStr, ja4: Option<PyStr>, ja4h: Option<PyStr>, sourceIp: PyStr)

  datatype Event =
    | RateLimitedEvent(key: PyStr, attempts: int)
    | BlockEvent(sourceIp: PyStr, ja4: Option<PyStr>, reason: Reason, story: Option<PyStr>)
    | ChallengePassedEvent(storyId: PyStr)
    | ChallengeIssuedEvent(storyId: PyStr, risk: int)
    | DecisionEvent(decision: Decision, storyId: PyStr)
    | RevocationEvent(jti: PyStr, at: Json)
    | IssuanceEvent(jti: PyStr, jkt: PyStr, boundJa4: PyStr, sourceIp: PyStr)

  datatype Logged = Logged(ts: int, event: Event)

  datatype Row = Row(ts: int, sourceIp: PyStr, presentedJa4: Option<PyStr>, decision: Option<Decision>,
                     outcome: Verdict, reason: Reason, storyId: Option<PyStr>)

  datatype Issued = Issued(ts: int, jti: PyStr, jkt: PyStr, ja4: PyStr, sourceIp: PyStr)

  datatype Dash = Dash(
    total: int,
    passed: int,
    blocked: int,
    rateLimited: int,
    challengesIssued: int,
    rows: seq<Row>,
    issuances: seq<Issued>)

  datatype State = State(
    ja4ByConn: map<ConnId, Option<PyStr>>,
    bindings: map<PyStr, BindingRec>,
    seen: set<PyStr>,
    windows: RateLimiter.Windows,
    challenges: map<PyStr, Challenge>,
    stash: map<FlowId, Stash>,
    log: seq<Logged>,
    dash: Dash)

  const INIT: State :=
    State(map[], map[], {}, map[], map[], map[], [], Dash(0, 0, 0, 0, 0, [], []))

  // ----- stores -----

  /** A deque with a maximum length, after an append. */
  function Push<T>(xs: seq<T>, x: T): (r: seq<T>)
    ensures |r| <= MAX_ROWS || |r| <= |xs|
  {
    var all := xs + [x];
    if |all| > MAX_ROWS then all[1..] else all
  }

  /** The binding of a token if it is not past its lifetime. */
  function Live(bindings: map<PyStr, BindingRec>, jti: PyStr, now: int): Option<BindingRec> {
    if jti in bindings && now - bindings[jti].issuedAt <= TOKEN_TTL then Some(bindings[jti]) else None
  }

  /** The bindings after a lookup: a binding past its lifetime is evicted. */
  function AfterGet(bindings: map<PyStr, BindingRec>, jti: PyStr, now: int): map<PyStr, BindingRec> {
    if Live(bindings, jti, now).Some? then bindings else bindings - {jti}
  }

  /** The characters `compare_digest` accepts in a `str`. */
  predicate AsciiText(s: PyStr) {
    forall i | 0 <= i < |s| :: s[i] < 128
  }

  /** The token's outstanding challenge, while it is in time. */
  function Open(challenges: map<PyStr, Challenge>, jti: PyStr, now: int): Option<Challenge> {
    if jti in challenges && now - challenges[jti].issuedAt <= CHALLENGE_TTL then Some(challenges[jti]) else None
  }

  /** Whether comparing the nonce raises: it meets an open challenge, and one of the two is not ASCII. */
  predicate NonceRaises(challenges: map<PyStr, Challenge>, jti: PyStr, nonce: PyStr, now: int) {
    var c := Open(challenges, jti, now);
    nonce != [] && c.Some? && !(AsciiText(nonce) && AsciiText(c.value.nonce))
  }

  /** Whether the nonce is the token's outstanding one, in time and comparable. */
  predicate NonceOk(challenges: map<PyStr, Challenge>, jti: PyStr, nonce: PyStr, now: int) {
    nonce != [] && AsciiText(nonce) && Open(challenges, jti, now).Some? && challenges[jti].nonce == nonce
  }

  /** The challenges after `verify_and_consume`. */
  function AfterVerify(challenges: map<PyStr, Challenge>, jti: PyStr, nonce: PyStr, now: int): map<PyStr, Challenge> {
    if nonce != [] && jti in challenges
       && (Open(challenges, jti, now).None? || (AsciiText(nonce) && challenges[jti].nonce == nonce))
    then challenges - {jti}
    else challenges
  }

  // ----- the dashboard -----

  function Counted(d: Dash, outcome: Verdict): Dash {
    if outcome.Pass? then d.(total := d.total + 1, passed := d.passed + 1)
    else d.(total := d.total + 1, blocked := d.blocked + 1)
  }

  function WithRow(d: Dash, row: Row): Dash {
    var c := Counted(d, row.outcome);
    c.(rows := Push(c.rows, row))
  }

  function BlockRow(now: int, r: Request, ja4: Option<PyStr>, reason: Reason): Row {
    Row(now, r.sourceIp, ja4, None, Block, reason, r.tokenJti)
  }

  function DecisionRow(d: Decision, storyId: PyStr): Row {
    Row(d.ts, d.sourceIp, d.presentedJa4, Some(d), d.outcome, d.reason, Some(storyId))
  }

  // ----- the request hook -----

  function PresentedJa4(s: State, conn: ConnId): Option<PyStr> {
    if conn in s.ja4ByConn then s.ja4ByConn[conn] else None
  }

  /** `presented_ja4 or "unknown"`. */
  function LimiterKey(ja4: Option<PyStr>): PyStr {
    if ja4.Some? && ja4.value != [] then ja4.value else Py("unknown")
  }

  function Noted(s: State, now: int, e: Event): State { s.(log := s.log + [Logged(now, e)]) }

  function BlockStep(s: State, now: int, r: Request, reason: Reason): (State, Outcome) {
    var ja4 := PresentedJa4(s, r.conn);
    (Noted(s.(dash := WithRow(s.dash, BlockRow(now, r, ja4, reason))), now,
           BlockEvent(r.sourceIp, ja4, reason, r.tokenJti)),
     Blocked(reason))
  }

  function RevokeStep(s: State, now: int, body: RevokeBody, at: Json): (State, Outcome) {
    match body
    case NotAnObject => (s, Raised(BodyNotAnObject))
    case Unparsable => (s, RevokeRefused)
    case Members(jti) =>
      if jti.None? || jti.value == [] then (s, RevokeRefused)
      else if jti.value in s.bindings then
        (Noted(s.(bindings := s.bindings[jti.value := s.bindings[jti.value].(revoked := true)]), now,
               RevocationEvent(jti.value, at)),
         Revoked(jti.value))
      else (s, RevokeUnknown)
  }

  function DecidedStep(s: State, now: int, d: Decision, jti: PyStr, steppedUp: bool): (State, Outcome) {
    (Noted(s.(dash := WithRow(s.dash, DecisionRow(d, jti))), now, DecisionEvent(d, jti)),
     if d.outcome.Pass? then Forwarded(jti, steppedUp) else Blocked(d.reason))
  }

  function ChallengeStep(s: State, now: int, d: Decision, jti: PyStr, nonce: PyStr): (State, Outcome) {
    (Noted(s.(challenges := s.challenges[jti := Challenge(nonce, now)],
              dash := s.dash.(challengesIssued := s.dash.challengesIssued + 1)),
           now, ChallengeIssuedEvent(jti, d.riskScore)),
     Challenged(jti, nonce))
  }

  /** From the engine's decision on: step-up for a PASS in the challenge band, else the decision itself. */
  function JudgedStep(env: Env, s: State, now: int, d: Decision, jti: PyStr, presented: Option<PyStr>,
                      nonce: PyStr): (State, Outcome)
  {
    if TierOf(env.policy, d).StepUp? then
      var shown := if presented.Some? then presented.value else [];
      var s' := s.(challenges := AfterVerify(s.challenges, jti, shown, now));
      if NonceRaises(s.challenges, jti, shown, now) then (s', Raised(NonceNotAscii(jti)))
      else if NonceOk(s.challenges, jti, shown, now)
      then DecidedStep(Noted(s', now, ChallengePassedEvent(jti)), now, d, jti, true)
      else ChallengeStep(s', now, d, jti, nonce)
    else DecidedStep(s, now, d, jti, false)
  }

  /** From the binding lookup on. */
  function ResourceStep(env: Env, s: State, now: int, r: Request, dpop: Dpop.DpopResult, nonce: PyStr): (State, Outcome)
    requires r.proof.Some?
  {
    if r.tokenJti.None? || r.tokenJti.value == [] then BlockStep(s, now, r, NoBinding)
    else
      var jti := r.tokenJti.value;
      var binding := Live(s.bindings, jti, now);
      var s' := s.(bindings := AfterGet(s.bindings, jti, now));
      if binding.None? then BlockStep(s', now, r, NoBinding)
      else
        var d := Evaluate(env.policy, binding.value, PresentedJa4(s, r.conn), dpop, r.sourceIp, r.ja4h, now);
        JudgedStep(env, s', now, d, jti, r.proof.value.claims.nonce, nonce)
  }

  /** From the proof on. */
  function ProvenStep(env: Env, s: State, now: int, r: Request, nonce: PyStr): (State, Outcome) {
    if r.proof.None? then BlockStep(s, now, r, MissingProof)
    else
      var dpop := Dpop.ValidateDpop(env.thumb, r.proof.value, r.httpMethod, r.url, now);
      if !dpop.valid then BlockStep(s, now, r, ProofInvalid(dpop.reason))
      else if dpop.jti.value in s.seen then BlockStep(s, now, r, ProofReplayed)
      else
        var s' := s.(seen := s.seen + {dpop.jti.value});
        if r.route.TokenRoute? then
          (s'.(stash := s'.stash[r.flow := Stash(dpop.jkt.value, PresentedJa4(s, r.conn), r.ja4h, r.sourceIp)]),
           IssuanceForwarded)
        else ResourceStep(env, s', now, r, dpop, nonce)
  }

  function RequestStep(env: Env, s: State, now: int, r: Request, nonce: PyStr): (State, Outcome) {
    match r.route
    case RevokeRoute => RevokeStep(s, now, r.revokeBody, r.revokedAt)
    case ResourceRoute =>
      if r.tokenRaises then (s, Raised(TokenUnreadable)) else ProvenStep(env, s, now, r, nonce)
    case TokenRoute =>
      if r.tokenRaises then (s, Raised(TokenUnreadable)) else
      var key := LimiterKey(PresentedJa4(s, r.conn));
      var rate := RateLimiter.Verdict(s.windows, RATE_LIMIT_MAX_ATTEMPTS, RATE_LIMIT_WINDOW, key, now);
      var s' := s.(windows := RateLimiter.Recorded(s.windows, RATE_LIMIT_WINDOW, key, now));
      if rate.allowed then ProvenStep(env, s', now, r, nonce)
      else
        (Noted(s'.(dash := s'.dash.(rateLimited := s'.dash.rateLimited + 1)), now,
               RateLimitedEvent(key, rate.attemptsInWindow)),
         RateLimited)
  }

  // ----- the response hook -----

  /** What a stash binds a token to, if every part is there. */
  predicate Bindable(st: Stash) {
    st.jkt != [] && st.ja4.Some? && st.ja4.value != [] && st.sourceIp != []
  }

  function ResponseStep(s: State, now: int, flow: FlowId, route: Route, status: int, jti: Option<PyStr>): (State, Outcome)
  {
    if !route.TokenRoute? || status != 200 || jti.None? || flow !in s.stash || !Bindable(s.stash[flow]) then (s, Quiet)
    else
      var st, j := s.stash[flow], jti.value;
      (Noted(s.(bindings := s.bindings[j := BindingRec(j, st.jkt, st.ja4.value, st.sourceIp, now, st.ja4h, false)],
                dash := s.dash.(issuances :=
                  Push(s.dash.issuances, Issued(now, j, st.jkt, st.ja4.value, st.sourceIp)))),
             now, IssuanceEvent(j, st.jkt, st.ja4.value, st.sourceIp)),
       Bound(j))
  }

  function Next(env: Env, s: State, step: Step): (State, Outcome) {
    match step.hook
    case Hello(conn, ja4) => (s.(ja4ByConn := s.ja4ByConn[conn := ja4]), Quiet)
    case Req(r, nonce) => RequestStep(env, s, step.now, r, nonce)
    case Resp(flow, route, status, jti) => ResponseStep(s, step.now, flow, route, status, jti)
  }

  // ----- runs -----

  /** A run from the empty state: where it ends, and how each hook answered. */
  datatype Trace = Trace(state: State, outcomes: seq<Outcome>)

  function Run(env: Env, steps: seq<Step>): (t: Trace)
    ensures |t.outcomes| == |steps|
  {
    if steps == [] then Trace(INIT, [])
    else
      var t := Run(env, steps[..|steps| - 1]);
      var (s, o) := Next(env, t.state, steps[|steps| - 1]);
      Trace(s, t.outcomes + [o])
  }

  /** The state before step i. */
  function Before(env: Env, steps: seq<Step>, i: nat): State
    requires i <= |steps|
  {
    Run(env, steps[..i]).state
  }

  predicate Clocked(steps: seq<Step>) {
    forall i, j | 0 <= i < j < |steps| :: steps[i].now <= steps[j].now
  }

  /** A run's outcomes are those of its single steps. */
  lemma {:induction false} OutcomeAt(env: Env, steps: seq<Step>, i: nat)
    requires i < |steps|
    ensures Run(env, steps).outcomes[i] == Next(env, Before(env, steps, i), steps[i]).1
    ensures Before(env, steps, i + 1) == Next(env, Before(env, steps, i), steps[i]).0
  {
    hide Next;
    assert steps[..i + 1][..i] == steps[..i];
    if i == |steps| - 1 {
      assert steps[..i + 1] == steps;
    } else {
      var init := steps[..|steps| - 1];
      OutcomeAt(env, init, i);
      assert init[..i] == steps[..i] && init[..i + 1] == steps[..i + 1];
    }
  }
}
