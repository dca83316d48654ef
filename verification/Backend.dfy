/**
 * The backend behind the proxy (backend/auth.py, backend/main.py): it issues the tokens, and checks every
 * request again on its own.
 */
module Backend {
  import opened PyText
  import opened Json
  import opened Policy
  import opened Engine
  import opened Protocol
  import opened ProtocolSteps
  import Dpop

  datatype Token = Token(sub: PyStr, jti: PyStr, jkt: PyStr, iat: int, exp: int)

  function IssueToken(thumb: Dpop.ThumbHash, clientId: PyStr, proof: Dpop.Proof, url: Dpop.Url, now: int, jti: PyStr): Option<Token>
  {
    var dpop := Dpop.ValidateDpop(thumb, proof, Py("POST"), url, now);
    if dpop.valid then Some(Token(clientId, jti, dpop.jkt.value, now, now + TOKEN_TTL)) else None
  }

  /** A token verifies when this backend signed it, it has not expired, and it is not from the future. */
  predicate Verifies(tokens: map<PyStr, Token>, t: Token, now: int) {
    t.jti in tokens && tokens[t.jti] == t && now < t.exp && t.iat <= now
  }

  /** The subject of an authenticated request. */
  function Authenticate(thumb: Dpop.ThumbHash, tokens: map<PyStr, Token>, dpopScheme: bool, t: Token,
                        proof: Dpop.Proof, httpMethod: PyStr, url: Dpop.Url, now: int): Option<PyStr>
  {
    if !dpopScheme || !Verifies(tokens, t, now) then None
    else
      var dpop := Dpop.ValidateDpop(thumb, proof, httpMethod, url, now);
      if !dpop.valid || dpop.jkt != Some(t.jkt) then None else Some(t.sub)
  }

  /** Exactly which proofs get a token, and what it holds. */
  lemma {:induction false} IssueIff(thumb: Dpop.ThumbHash, clientId: PyStr, proof: Dpop.Proof, url: Dpop.Url, now: int,
                                    jti: PyStr, t: Token)
    ensures IssueToken(thumb, clientId, proof, url, now, jti) == Some(t) <==>
            && Dpop.Genuine(proof, Py("POST"), url) && Dpop.FreshAt(proof, now)
            && t.sub == clientId && t.jti == jti && t.jkt == Dpop.Thumbprint(thumb, proof.jwk.value)
            && t.iat == now && t.exp == now + 300
  {
    hide Dpop.ValidateDpop, Dpop.Thumbprint, Dpop.SameTarget, Dpop.FreshAt;
    Dpop.ValidIff(thumb, proof, Py("POST"), url, now);
  }

  /** Exactly which requests are authenticated, and as whom. */
  lemma {:induction false} AuthenticateIff(thumb: Dpop.ThumbHash, tokens: map<PyStr, Token>, dpopScheme: bool, t: Token,
                                           proof: Dpop.Proof, httpMethod: PyStr, url: Dpop.Url, now: int, sub: PyStr)
    ensures Authenticate(thumb, tokens, dpopScheme, t, proof, httpMethod, url, now) == Some(sub) <==>
            && dpopScheme && sub == t.sub
            && t.jti in tokens && t == tokens[t.jti] && t.iat <= now < t.exp
            && Dpop.Genuine(proof, httpMethod, url) && Dpop.FreshAt(proof, now)
            && Dpop.Thumbprint(thumb, proof.jwk.value) == t.jkt
  {
    hide Dpop.ValidateDpop, Dpop.Thumbprint, Dpop.SameTarget, Dpop.FreshAt;
    Dpop.ValidIff(thumb, proof, httpMethod, url, now);
  }

  // ----- proxy and backend together -----

  /**
   * The proxy's state, the token requests on their way to the backend, its replies on their way back, the
   * flows used so far, every token issued, and the latest clock reading.
   */
  datatype System = System(
    proxy: State,
    pending: map<FlowId, Dpop.Proof>,
    replies: map<FlowId, Option<PyStr>>,
    flows: set<FlowId>,
    tokens: map<PyStr, Token>,
    clock: int)

  datatype Action =
    | Hello(conn: ConnId, ja4: Option<PyStr>)
    | Send(r: Request, nonce: PyStr)
    | Issue(flow: FlowId, clientId: PyStr, url: Dpop.Url, jti: PyStr)
    | Answer(flow: FlowId)

  datatype Act = Act(now: int, action: Action)

  const EMPTY: System := System(INIT, map[], map[], {}, map[], 0)

  /** A flow carries one request, a new token gets a new `jti`, and the clock does not run backwards. */
  predicate Allowed(sys: System, a: Act) {
    a.now >= sys.clock
    && (a.action.Send? ==> a.action.r.flow !in sys.flows)
    && (a.action.Issue? ==> a.action.jti !in sys.tokens)
  }

  function Reply(sys: System, flow: FlowId): Hook
    requires flow in sys.replies
  {
    Hook.Resp(flow, TokenRoute, if sys.replies[flow].Some? then 200 else 401, sys.replies[flow])
  }

  /** A token request the proxy lets through: with its own check, or because its hook raised. */
  predicate GoesOn(r: Request, o: Outcome) {
    r.route.TokenRoute? && r.proof.Some? && (o.IssuanceForwarded? || o.Raised?)
  }

  function SysNext(env: Env, sys: System, a: Act): System {
    match a.action
    case Hello(conn, ja4) =>
      sys.(clock := a.now, proxy := Next(env, sys.proxy, Step(a.now, Hook.Hello(conn, ja4))).0)
    case Send(r, nonce) =>
      var (p, o) := Next(env, sys.proxy, Step(a.now, Req(r, nonce)));
      sys.(clock := a.now, proxy := p, flows := sys.flows + {r.flow},
           pending := if GoesOn(r, o) then sys.pending[r.flow := r.proof.value] else sys.pending)
    case Issue(flow, clientId, url, jti) =>
      if flow !in sys.pending then sys.(clock := a.now)
      else
        var t := IssueToken(env.thumb, clientId, sys.pending[flow], url, a.now, jti);
        sys.(clock := a.now, pending := sys.pending - {flow},
             replies := sys.replies[flow := if t.Some? then Some(jti) else None],
             tokens := if t.Some? then sys.tokens[jti := t.value] else sys.tokens)
    case Answer(flow) =>
      if flow !in sys.replies then sys.(clock := a.now)
      else
        sys.(clock := a.now, replies := sys.replies - {flow},
             proxy := Next(env, sys.proxy, Step(a.now, Reply(sys, flow))).0)
  }

  function SysRun(env: Env, acts: seq<Act>): System {
    if acts == [] then EMPTY else SysNext(env, SysRun(env, acts[..|acts| - 1]), acts[|acts| - 1])
  }

  predicate Proper(env: Env, acts: seq<Act>) {
    acts == [] || (Proper(env, acts[..|acts| - 1]) && Allowed(SysRun(env, acts[..|acts| - 1]), acts[|acts| - 1]))
  }

  // ----- the key is the same on both sides -----

  /** If the flow has anything stashed, it is under the given key. */
  predicate StashCarries(sys: System, flow: FlowId, jkt: PyStr) {
    flow in sys.flows && (flow in sys.proxy.stash ==> sys.proxy.stash[flow].jkt == jkt)
  }

  predicate PendingAgrees(env: Env, sys: System) {
    && (forall f <- sys.proxy.stash :: f in sys.flows)
    && forall f <- sys.pending ::
         f in sys.flows
         && (sys.pending[f].jwk.Some? ==> StashCarries(sys, f, Dpop.Thumbprint(env.thumb, sys.pending[f].jwk.value)))
  }

  predicate RepliesAgree(sys: System) {
    forall f <- sys.replies | sys.replies[f].Some? ::
      sys.replies[f].value in sys.tokens && StashCarries(sys, f, sys.tokens[sys.replies[f].value].jkt)
  }

  /** The binding of a token carries the key in the token, and is no older than the token. */
  predicate BindingsAgree(sys: System) {
    forall j <- sys.proxy.bindings ::
      j in sys.tokens && sys.proxy.bindings[j].jkt == sys.tokens[j].jkt && sys.tokens[j].iat <= sys.proxy.bindings[j].issuedAt
  }

  predicate TokensSane(sys: System) {
    forall j <- sys.tokens :: sys.tokens[j].jti == j && sys.tokens[j].iat <= sys.clock
                              && sys.tokens[j].exp == sys.tokens[j].iat + 300
  }

  predicate Agree(env: Env, sys: System) {
    PendingAgrees(env, sys) && RepliesAgree(sys) && BindingsAgree(sys) && TokensSane(sys)
  }

  lemma {:induction false} SendAgrees(env: Env, sys: System, a: Act)
    requires Agree(env, sys) && Allowed(sys, a) && a.action.Send?
    ensures Agree(env, SysNext(env, sys, a))
  {
    hide Next, Dpop.Thumbprint, BindsAs;
    var step := Step(a.now, Req(a.action.r, a.action.nonce));
    StashEffect(env, sys.proxy, step);
    var sys' := SysNext(env, sys, a);
    forall j | j in sys'.proxy.bindings
      ensures j in sys.proxy.bindings && sys'.proxy.bindings[j] == sys.proxy.bindings[j].(revoked := sys'.proxy.bindings[j].revoked)
    {
      StoredEffect(env, sys.proxy, step, j);
      BindsIff(env, sys.proxy, step, j);
      RequestNeverBinds(sys.proxy, step, j);
    }
  }

  lemma {:induction false} RequestNeverBinds(s: State, step: Step, j: PyStr)
    requires step.hook.Req?
    ensures !BindsAs(s, step, j)
  {}

  lemma {:induction false} IssueAgrees(env: Env, sys: System, a: Act)
    requires Agree(env, sys) && Allowed(sys, a) && a.action.Issue?
    ensures Agree(env, SysNext(env, sys, a))
  {
    hide Next, Dpop.Thumbprint, Dpop.ValidateDpop;
    if a.action.flow in sys.pending {
      Dpop.ValidIff(env.thumb, sys.pending[a.action.flow], Py("POST"), a.action.url, a.now);
    }
  }

  lemma {:induction false} AnswerAgrees(env: Env, sys: System, a: Act)
    requires Agree(env, sys) && Allowed(sys, a) && a.action.Answer?
    ensures Agree(env, SysNext(env, sys, a))
  {
    hide Next, Dpop.Thumbprint;
    if a.action.flow in sys.replies {
      var step := Step(a.now, Reply(sys, a.action.flow));
      StashEffect(env, sys.proxy, step);
      var sys' := SysNext(env, sys, a);
      forall j | j in sys'.proxy.bindings
        ensures j in sys.tokens && sys'.proxy.bindings[j].jkt == sys.tokens[j].jkt
                && sys.tokens[j].iat <= sys'.proxy.bindings[j].issuedAt
      {
        StoredEffect(env, sys.proxy, step, j);
      }
    }
  }

  lemma {:induction false} HelloAgrees(env: Env, sys: System, a: Act)
    requires Agree(env, sys) && Allowed(sys, a) && a.action.Hello?
    ensures Agree(env, SysNext(env, sys, a))
  {
    hide Dpop.Thumbprint;
  }

  /** In every reachable state each binding carries exactly the key its token was issued to. */
  lemma {:induction false} KeysAgree(env: Env, acts: seq<Act>)
    requires Proper(env, acts)
    ensures Agree(env, SysRun(env, acts))
  {
    hide SysNext, Allowed;
    if acts == [] {
      assert Agree(env, EMPTY);
    } else {
      var init, a := acts[..|acts| - 1], acts[|acts| - 1];
      KeysAgree(env, init);
      hide Agree;
      match a.action
      case Hello(_, _) => HelloAgrees(env, SysRun(env, init), a);
      case Send(_, _) => SendAgrees(env, SysRun(env, init), a);
      case Issue(_, _, _, _) => IssueAgrees(env, SysRun(env, init), a);
      case Answer(_) => AnswerAgrees(env, SysRun(env, init), a);
    }
  }

  /**
   * From the state the run leads to, the proxy lets this resource request under token t go on: it forwards
   * it, or raises on its nonce.
   */
  predicate Forwards(env: Env, acts: seq<Act>, r: Request, nonce: PyStr, t: Token, now: int) {
    now >= SysRun(env, acts).clock && r.tokenJti == Some(t.jti)
    && var o := Next(env, SysRun(env, acts).proxy, Step(now, Req(r, nonce))).1;
       o.Forwarded? || o == Raised(NonceNotAscii(t.jti))
  }

  /**
   * A forwarded request under a token of this backend never fails the key comparison: it is authenticated
   * exactly when the token has not expired and the proof still validates at the backend.
   */
  lemma {:induction false} BackendAccepts(env: Env, acts: seq<Act>, r: Request, nonce: PyStr, t: Token, now: int,
                                          url: Dpop.Url, later: int)
    requires Proper(env, acts) && Forwards(env, acts, r, nonce, t, now) && now <= later
    requires t.jti in SysRun(env, acts).tokens && SysRun(env, acts).tokens[t.jti] == t
    ensures r.proof.Some?
    ensures Authenticate(env.thumb, SysRun(env, acts).tokens, true, t, r.proof.value, r.httpMethod, url, later)
            == if later < t.exp && Dpop.Genuine(r.proof.value, r.httpMethod, url) && Dpop.FreshAt(r.proof.value, later)
               then Some(t.sub) else None
  {
    hide SysRun, Next, Dpop.Thumbprint, Dpop.ValidateDpop, Dpop.SameTarget, Risky, ShowsNonce, NonceClashes;
    var sys := SysRun(env, acts);
    var step := Step(now, Req(r, nonce));
    var o := Next(env, sys.proxy, step).1;
    KeysAgree(env, acts);
    if o.Forwarded? {
      ForwardedIff(env, sys.proxy, step, o.jti, o.steppedUp);
    } else {
      NonceRaisesIff(env, sys.proxy, step, t.jti);
    }
    Dpop.ValidIff(env.thumb, r.proof.value, r.httpMethod, url, later);
  }

  /** At the last instant of a binding's life the proxy still forwards what the backend already refuses. */
  lemma {:induction false} LastInstantDisagrees(env: Env, acts: seq<Act>, r: Request, nonce: PyStr, t: Token, now: int,
                                                url: Dpop.Url, later: int)
    requires Proper(env, acts) && Forwards(env, acts, r, nonce, t, now) && now <= later
    ensures var sys := SysRun(env, acts);
            && r.proof.Some? && t.jti in sys.proxy.bindings
            && (now == sys.proxy.bindings[t.jti].issuedAt + 300 ==>
                  Authenticate(env.thumb, sys.tokens, true, t, r.proof.value, r.httpMethod, url, later).None?)
  {
    hide SysRun, Next, Dpop.Thumbprint, Dpop.ValidateDpop, Dpop.SameTarget, Risky, ShowsNonce, NonceClashes;
    var sys := SysRun(env, acts);
    var step := Step(now, Req(r, nonce));
    var o := Next(env, sys.proxy, step).1;
    KeysAgree(env, acts);
    if o.Forwarded? {
      ForwardedIff(env, sys.proxy, step, o.jti, o.steppedUp);
    } else {
      NonceRaisesIff(env, sys.proxy, step, t.jti);
    }
  }
}
