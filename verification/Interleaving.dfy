/**
 * Any number of requests in flight at once (proxy/binding.py, proxy/challenge_store.py,
 * proxy/rate_limiter.py): every method a store runs under its lock is one atomic step, and so is the
 * engine's read of a binding it was handed.  Binding objects live in a heap, shared between the store and
 * the requests that fetched them.
 */
module Interleaving {
  import opened PyText
  import opened Json
  import opened Policy
  import opened Engine
  import opened Protocol
  import opened ProtocolSteps
  import Dpop
  import RL = RateLimiter

  type ObjId = nat
  type ThreadId = nat

  /** The stores: binding objects, the store's references to them, seen proofs, challenges, limiter windows. */
  datatype Shared = Shared(
    objs: seq<BindingRec>,
    bindings: map<PyStr, ObjId>,
    seen: set<PyStr>,
    challenges: map<PyStr, Challenge>,
    windows: RL.Windows)

  /** Where a request is; `d` is the decision the engine made of it. */
  datatype Pc =
    | AtLimit
    | AtReplayCheck
    | AtGet
    | AtEvaluate(obj: ObjId)
    | AtVerify(d: Decision)
    | AtIssue(d: Decision)
    | Done(outcome: Outcome)

  /**
   * A token or resource request: whether reading its token raises, why its proof is refused if it is, what
   * the proof validated to, and what its connection presented.
   */
  datatype Thread = Thread(
    route: Route,
    tokenRaises: bool,
    refusal: Option<Reason>,
    tokenJti: PyStr,
    proofJti: PyStr,
    nonce: PyStr,
    ja4: Option<PyStr>,
    dpop: Dpop.DpopResult,
    sourceIp: PyStr,
    ja4h: Option<PyStr>,
    pc: Pc)

  /** What the checks before the replay check leave. */
  predicate Sound(th: Thread) {
    && !th.route.RevokeRoute? && (th.refusal.None? ==> th.dpop.valid)
    && (th.refusal.Some? ==> th.refusal.value.MissingProof? || th.refusal.value.ProofInvalid?)
  }

  datatype Config = Config(shared: Shared, threads: map<ThreadId, Thread>)

  /** One atomic step; a running thread reads the clock and may draw a nonce. */
  datatype Atom =
    | Spawn(t: ThreadId, thread: Thread)
    | Go(t: ThreadId, now: int, nonce: PyStr)
    | BindToken(rec: BindingRec)
    | RevokeToken(jti: PyStr)

  const START: Config := Config(Shared([], map[], {}, map[], map[]), map[])

  // ----- the locked methods -----

  ghost predicate WellFormed(sh: Shared) {
    forall j <- sh.bindings :: sh.bindings[j] < |sh.objs| && sh.objs[sh.bindings[j]].jti == j
  }

  function Fetch(sh: Shared, jti: PyStr, now: int): (Shared, Option<ObjId>) {
    if jti in sh.bindings && sh.bindings[jti] < |sh.objs| then
      if now - sh.objs[sh.bindings[jti]].issuedAt > TOKEN_TTL
      then (sh.(bindings := sh.bindings - {jti}), None)
      else (sh, Some(sh.bindings[jti]))
    else (sh, None)
  }

  function BindObject(sh: Shared, rec: BindingRec): Shared {
    sh.(objs := sh.objs + [rec.(revoked := false)], bindings := sh.bindings[rec.jti := |sh.objs|])
  }

  function RevokeObject(sh: Shared, jti: PyStr): Shared {
    if jti in sh.bindings && sh.bindings[jti] < |sh.objs| then
      var o := sh.bindings[jti];
      sh.(objs := sh.objs[o := sh.objs[o].(revoked := true)])
    else sh
  }

  // ----- one step of one request -----

  function GoThread(env: Env, sh: Shared, th: Thread, now: int, nonce: PyStr): (Shared, Thread) {
    match th.pc
    case AtLimit =>
      if th.tokenRaises then (sh, th.(pc := Done(Raised(TokenUnreadable))))
      else if !th.route.TokenRoute? then (sh, th.(pc := AtReplayCheck))
      else
        var key := LimiterKey(th.ja4);
        (sh.(windows := RL.Recorded(sh.windows, RATE_LIMIT_WINDOW, key, now)),
         th.(pc := if RL.Verdict(sh.windows, RATE_LIMIT_MAX_ATTEMPTS, RATE_LIMIT_WINDOW, key, now).allowed
                   then AtReplayCheck else Done(RateLimited)))
    case AtReplayCheck =>
      if th.refusal.Some? then (sh, th.(pc := Done(Blocked(th.refusal.value))))
      else if th.proofJti in sh.seen then (sh, th.(pc := Done(Blocked(ProofReplayed))))
      else
        (sh.(seen := sh.seen + {th.proofJti}),
         th.(pc := if th.route.TokenRoute? then Done(IssuanceForwarded) else AtGet))
    case AtGet =>
      if th.tokenJti == [] then (sh, th.(pc := Done(Blocked(NoBinding))))
      else
        var (sh', o) := Fetch(sh, th.tokenJti, now);
        (sh', th.(pc := if o.Some? then AtEvaluate(o.value) else Done(Blocked(NoBinding))))
    case AtEvaluate(o) =>
      if o >= |sh.objs| then (sh, th)
      else
        var d := Evaluate(env.policy, sh.objs[o], th.ja4, th.dpop, th.sourceIp, th.ja4h, now);
        (sh, th.(pc :=
          match TierOf(env.policy, d)
          case Refuse => Done(Blocked(d.reason))
          case StepUp => AtVerify(d)
          case Forward => Done(Forwarded(th.tokenJti, false))))
    case AtVerify(d) =>
      (sh.(challenges := AfterVerify(sh.challenges, th.tokenJti, th.nonce, now)),
       th.(pc :=
         if NonceRaises(sh.challenges, th.tokenJti, th.nonce, now) then Done(Raised(NonceNotAscii(th.tokenJti)))
         else if NonceOk(sh.challenges, th.tokenJti, th.nonce, now) then Done(Forwarded(th.tokenJti, true))
         else AtIssue(d)))
    case AtIssue(d) =>
      (sh.(challenges := sh.challenges[th.tokenJti := Challenge(nonce, now)]), th.(pc := Done(Challenged(th.tokenJti, nonce))))
    case Done(_) => (sh, th)
  }

  function StepAtom(env: Env, c: Config, a: Atom): Config {
    match a
    case Spawn(t, thread) =>
      if t in c.threads || !Sound(thread) then c else c.(threads := c.threads[t := thread.(pc := AtLimit)])
    case Go(t, now, nonce) =>
      if t !in c.threads then c
      else
        var (sh, th) := GoThread(env, c.shared, c.threads[t], now, nonce);
        Config(sh, c.threads[t := th])
    case BindToken(rec) => c.(shared := BindObject(c.shared, rec))
    case RevokeToken(jti) => c.(shared := RevokeObject(c.shared, jti))
  }

  function Reach(env: Env, atoms: seq<Atom>): Config {
    if atoms == [] then START else StepAtom(env, Reach(env, atoms[..|atoms| - 1]), atoms[|atoms| - 1])
  }

  // ----- no proof passes twice -----

  predicate PastReplay(th: Thread) {
    match th.pc
    case AtLimit => false
    case AtReplayCheck => false
    case Done(o) => Accepted(o)
    case _ => true
  }

  /** A request behind the replay check is a resource request with a valid proof. */
  predicate InOrder(th: Thread) {
    && Sound(th)
    && (!th.pc.AtLimit? && !th.pc.AtReplayCheck? && !th.pc.Done? ==> th.refusal.None? && th.route.ResourceRoute?)
  }

  ghost predicate ProofsApart(c: Config) {
    (forall t <- c.threads :: InOrder(c.threads[t])) &&
    (forall t <- c.threads | PastReplay(c.threads[t]) :: c.threads[t].proofJti in c.shared.seen)
    && (forall t, u | t in c.threads && u in c.threads && t != u && PastReplay(c.threads[t]) && PastReplay(c.threads[u]) ::
          c.threads[t].proofJti != c.threads[u].proofJti)
  }

  /** What a step does to the replay set and to who has passed. */
  lemma {:induction false} ReplayStep(env: Env, sh: Shared, th: Thread, now: int, nonce: PyStr)
    requires InOrder(th)
    ensures var (sh', th') := GoThread(env, sh, th, now, nonce);
            && th'.proofJti == th.proofJti && InOrder(th')
            && (if th.pc.AtReplayCheck? && th.refusal.None? && th.proofJti !in sh.seen
                then sh'.seen == sh.seen + {th.proofJti}
                else sh'.seen == sh.seen && (PastReplay(th') ==> PastReplay(th)))
  {
    if th.pc.AtEvaluate? && th.pc.obj < |sh.objs| {
      EngineReasons(env.policy, sh.objs[th.pc.obj], th.ja4, th.dpop, th.sourceIp, th.ja4h, now);
    }
    hide Evaluate, AfterVerify, NonceOk, NonceRaises, Fetch, RL.Recorded, RL.Verdict, LimiterKey;
  }

  /** Under every interleaving, no two requests get past the replay check with the same proof. */
  lemma {:induction false} ReplayAtMostOnce(env: Env, atoms: seq<Atom>)
    ensures ProofsApart(Reach(env, atoms))
  {
    hide GoThread;
    if atoms != [] {
      var init, a := atoms[..|atoms| - 1], atoms[|atoms| - 1];
      ReplayAtMostOnce(env, init);
      var c := Reach(env, init);
      if a.Go? && a.t in c.threads {
        ReplayStep(env, c.shared, c.threads[a.t], a.now, a.nonce);
      }
    }
  }

  // ----- nonces are used no more often than issued -----

  /** Whether a nonce is the one asked about; no answer asks about all of them. */
  predicate About(n: Option<PyStr>, nonce: PyStr) { n.None? || n.value == nonce }

  predicate Issues(c: Config, a: Atom, jti: PyStr, n: Option<PyStr>) {
    a.Go? && a.t in c.threads && c.threads[a.t].pc.AtIssue? && c.threads[a.t].tokenJti == jti && About(n, a.nonce)
  }

  predicate Uses(c: Config, a: Atom, jti: PyStr, n: Option<PyStr>) {
    a.Go? && a.t in c.threads && c.threads[a.t].pc.AtVerify? && c.threads[a.t].tokenJti == jti
    && About(n, c.threads[a.t].nonce) && NonceOk(c.shared.challenges, jti, c.threads[a.t].nonce, a.now)
  }

  function IssueCount(env: Env, atoms: seq<Atom>, jti: PyStr, n: Option<PyStr>): nat {
    if atoms == [] then 0
    else
      var init := atoms[..|atoms| - 1];
      IssueCount(env, init, jti, n) + if Issues(Reach(env, init), atoms[|atoms| - 1], jti, n) then 1 else 0
  }

  function UseCount(env: Env, atoms: seq<Atom>, jti: PyStr, n: Option<PyStr>): nat {
    if atoms == [] then 0
    else
      var init := atoms[..|atoms| - 1];
      UseCount(env, init, jti, n) + if Uses(Reach(env, init), atoms[|atoms| - 1], jti, n) then 1 else 0
  }

  function Outstanding(c: Config, jti: PyStr, n: Option<PyStr>): nat {
    if jti in c.shared.challenges && About(n, c.shared.challenges[jti].nonce) then 1 else 0
  }

  /** What a step can do to an outstanding challenge. */
  lemma {:induction false} ChallengeAtom(env: Env, c: Config, a: Atom, jti: PyStr, n: Option<PyStr>)
    ensures Outstanding(StepAtom(env, c, a), jti, n) + (if Uses(c, a, jti, n) then 1 else 0)
            <= Outstanding(c, jti, n) + (if Issues(c, a, jti, n) then 1 else 0)
  {
    hide Evaluate, TierOf, RL.Recorded, RL.Verdict, LimiterKey;
  }

  /** Under every interleaving, a token's nonce (or all of them together) is used no more often than issued. */
  lemma {:induction false} UsesAtMostIssues(env: Env, atoms: seq<Atom>, jti: PyStr, n: Option<PyStr>)
    ensures UseCount(env, atoms, jti, n) + Outstanding(Reach(env, atoms), jti, n) <= IssueCount(env, atoms, jti, n)
  {
    hide StepAtom, Issues, Uses;
    if atoms != [] {
      var init := atoms[..|atoms| - 1];
      UsesAtMostIssues(env, init, jti, n);
      ChallengeAtom(env, Reach(env, init), atoms[|atoms| - 1], jti, n);
    }
  }

  // ----- revocation through the shared object -----

  ghost predicate Consistent(c: Config) {
    WellFormed(c.shared)
    && forall t <- c.threads | c.threads[t].pc.AtEvaluate? ::
         c.threads[t].pc.obj < |c.shared.objs| && c.shared.objs[c.threads[t].pc.obj].jti == c.threads[t].tokenJti
  }

  /** A step only appends objects and flags them. */
  predicate Grows(sh: Shared, sh': Shared) {
    |sh.objs| <= |sh'.objs|
    && forall o | 0 <= o < |sh.objs| :: sh'.objs[o] == sh.objs[o].(revoked := sh'.objs[o].revoked)
  }

  lemma {:induction false} ThreadObjects(env: Env, sh: Shared, th: Thread, now: int, nonce: PyStr)
    requires WellFormed(sh)
    ensures var (sh', th') := GoThread(env, sh, th, now, nonce);
            && sh'.objs == sh.objs && WellFormed(sh') && th'.tokenJti == th.tokenJti
            && (th'.pc.AtEvaluate? && !th.pc.AtEvaluate? ==>
                  th'.pc.obj < |sh.objs| && sh.objs[th'.pc.obj].jti == th.tokenJti)
            && (th'.pc.AtEvaluate? && th.pc.AtEvaluate? ==> th'.pc == th.pc)
  {
    hide Evaluate, TierOf, AfterVerify, NonceOk, NonceRaises, RL.Recorded, RL.Verdict, LimiterKey;
  }

  lemma {:induction false} RevokeGrows(sh: Shared, jti: PyStr)
    requires WellFormed(sh)
    ensures Grows(sh, RevokeObject(sh, jti)) && WellFormed(RevokeObject(sh, jti))
  {}

  lemma {:induction false} BindGrows(sh: Shared, rec: BindingRec)
    requires WellFormed(sh)
    ensures Grows(sh, BindObject(sh, rec)) && WellFormed(BindObject(sh, rec))
  {}

  lemma {:induction false} ObjectsAtom(env: Env, c: Config, a: Atom)
    requires Consistent(c)
    ensures Grows(c.shared, StepAtom(env, c, a).shared) && Consistent(StepAtom(env, c, a))
  {
    hide GoThread, RevokeObject, BindObject, WellFormed;
    match a
    case Spawn(_, _) =>
    case Go(t, now, nonce) => if t in c.threads { ThreadObjects(env, c.shared, c.threads[t], now, nonce); }
    case BindToken(rec) => BindGrows(c.shared, rec);
    case RevokeToken(jti) => RevokeGrows(c.shared, jti);
  }

  lemma {:induction false} AlwaysConsistent(env: Env, atoms: seq<Atom>)
    ensures Consistent(Reach(env, atoms))
  {
    hide StepAtom;
    if atoms != [] {
      AlwaysConsistent(env, atoms[..|atoms| - 1]);
      ObjectsAtom(env, Reach(env, atoms[..|atoms| - 1]), atoms[|atoms| - 1]);
    }
  }

  /** The configuration before atom i. */
  function At(env: Env, atoms: seq<Atom>, i: nat): Config
    requires i <= |atoms|
  {
    Reach(env, atoms[..i])
  }

  lemma {:induction false} AtNext(env: Env, atoms: seq<Atom>, i: nat)
    requires i < |atoms|
    ensures At(env, atoms, i + 1) == StepAtom(env, At(env, atoms, i), atoms[i])
    ensures Consistent(At(env, atoms, i))
  {
    hide StepAtom;
    assert atoms[..i + 1][..i] == atoms[..i];
    AlwaysConsistent(env, atoms[..i]);
  }

  /** Atom k revoked the object o: the store's current one for the token named. */
  predicate Flags(env: Env, atoms: seq<Atom>, k: nat, o: ObjId)
    requires k < |atoms|
  {
    atoms[k].RevokeToken? && atoms[k].jti in At(env, atoms, k).shared.bindings
    && At(env, atoms, k).shared.bindings[atoms[k].jti] == o
  }

  lemma {:induction false} FlagAtom(env: Env, c: Config, a: Atom, o: ObjId)
    requires Consistent(c) && o < |StepAtom(env, c, a).shared.objs|
    ensures StepAtom(env, c, a).shared.objs[o].revoked <==>
            (o < |c.shared.objs| && c.shared.objs[o].revoked)
            || (a.RevokeToken? && a.jti in c.shared.bindings && c.shared.bindings[a.jti] == o)
  {
    hide Evaluate, TierOf, AfterVerify, NonceOk, NonceRaises, RL.Recorded, RL.Verdict, LimiterKey;
  }

  lemma {:induction false} FlaggedSplit(env: Env, atoms: seq<Atom>, i: nat, o: ObjId)
    requires i < |atoms|
    ensures (exists k | 0 <= k < i + 1 :: Flags(env, atoms, k, o))
            <==> (exists k | 0 <= k < i :: Flags(env, atoms, k, o)) || Flags(env, atoms, i, o)
  {
    hide Flags;
  }

  /** A binding object is revoked exactly when some revocation met it as the store's current one. */
  lemma {:induction false} RevokedIff(env: Env, atoms: seq<Atom>, i: nat, o: ObjId)
    requires i <= |atoms| && o < |At(env, atoms, i).shared.objs|
    ensures At(env, atoms, i).shared.objs[o].revoked <==> exists k | 0 <= k < i :: Flags(env, atoms, k, o)
  {
    hide Reach, StepAtom;
    if i == 0 {
      AtStart(env, atoms);
    } else {
      var c := At(env, atoms, i - 1);
      AtNext(env, atoms, i - 1);
      FlaggedSplit(env, atoms, i - 1, o);
      FlagAtom(env, c, atoms[i - 1], o);
      if o < |c.shared.objs| {
        RevokedIff(env, atoms, i - 1, o);
      } else {
        NotYet(env, atoms, i - 1, o);
      }
      hide At;
    }
  }

  lemma {:induction false} AtStart(env: Env, atoms: seq<Atom>)
    ensures At(env, atoms, 0) == START
  {}

  /** An object cannot be revoked before it exists. */
  lemma {:induction false} NotYet(env: Env, atoms: seq<Atom>, i: nat, o: ObjId)
    requires i <= |atoms| && o >= |At(env, atoms, i).shared.objs|
    ensures forall k | 0 <= k < i :: !Flags(env, atoms, k, o)
  {
    hide Reach, StepAtom;
    if i > 0 {
      AtNext(env, atoms, i - 1);
      ObjectsAtom(env, At(env, atoms, i - 1), atoms[i - 1]);
      NotYet(env, atoms, i - 1, o);
      FlaggedSplit(env, atoms, i - 1, o);
      assert !Flags(env, atoms, i - 1, o);
      hide At, Flags;
    }
  }

  /** What the engine makes of a binding at atom i is Block, and for the revocation. */
  predicate RefusedAsRevoked(env: Env, atoms: seq<Atom>, i: nat)
    requires i < |atoms| && atoms[i].Go? && atoms[i].t in At(env, atoms, i + 1).threads
  {
    At(env, atoms, i + 1).threads[atoms[i].t].pc == Done(Blocked(TokenRevoked))
  }

  /**
   * A request that holds a binding object is refused as revoked exactly when a revocation met that very
   * object before the engine read it, no matter whether the request had already fetched it.
   */
  lemma {:induction false} RevocationReaches(env: Env, atoms: seq<Atom>, i: nat)
    requires i < |atoms| && atoms[i].Go? && atoms[i].t in At(env, atoms, i).threads
    requires At(env, atoms, i).threads[atoms[i].t].pc.AtEvaluate?
    ensures atoms[i].t in At(env, atoms, i + 1).threads
    ensures var o := At(env, atoms, i).threads[atoms[i].t].pc.obj;
            RefusedAsRevoked(env, atoms, i) <==> exists k | 0 <= k < i :: Flags(env, atoms, k, o)
  {
    hide Reach, At, Flags, Risk;
    AtNext(env, atoms, i);
    RevokedIff(env, atoms, i, At(env, atoms, i).threads[atoms[i].t].pc.obj);
  }

  /** No token is bound twice. */
  predicate BoundOnce(atoms: seq<Atom>) {
    forall a, b | 0 <= a < b < |atoms| && atoms[a].BindToken? && atoms[b].BindToken? :: atoms[a].rec.jti != atoms[b].rec.jti
  }

  /** Each object comes from its own bind. */
  lemma {:induction false} ObjectOrigin(env: Env, atoms: seq<Atom>, i: nat, o: ObjId) returns (b: nat)
    requires i <= |atoms| && o < |At(env, atoms, i).shared.objs|
    ensures b < i && atoms[b].BindToken? && atoms[b].rec.jti == At(env, atoms, i).shared.objs[o].jti
    ensures |At(env, atoms, b).shared.objs| == o
  {
    hide Reach;
    if i == 0 {
      AtStart(env, atoms);
    } else {
      AtNext(env, atoms, i - 1);
      ObjectsAtom(env, At(env, atoms, i - 1), atoms[i - 1]);
      if o < |At(env, atoms, i - 1).shared.objs| {
        b := ObjectOrigin(env, atoms, i - 1, o);
      } else {
        b := i - 1;
        OnlyBindsAllocate(env, At(env, atoms, i - 1), atoms[i - 1]);
      }
    }
    hide StepAtom, At;
  }

  lemma {:induction false} OnlyBindsAllocate(env: Env, c: Config, a: Atom)
    ensures if a.BindToken? then StepAtom(env, c, a).shared.objs == c.shared.objs + [a.rec.(revoked := false)]
            else |StepAtom(env, c, a).shared.objs| == |c.shared.objs|
  {
    hide Evaluate, TierOf, AfterVerify, NonceOk, NonceRaises, RL.Recorded, RL.Verdict, LimiterKey;
  }

  /** When tokens are bound once, every request evaluated after the revocation of its token is refused. */
  lemma {:induction false} RevokedTokensStop(env: Env, atoms: seq<Atom>, k: nat, i: nat)
    requires BoundOnce(atoms) && k < i < |atoms| && atoms[k].RevokeToken?
    requires atoms[k].jti in At(env, atoms, k).shared.bindings
    requires atoms[i].Go? && atoms[i].t in At(env, atoms, i).threads
    requires At(env, atoms, i).threads[atoms[i].t].pc.AtEvaluate?
    requires At(env, atoms, i).threads[atoms[i].t].tokenJti == atoms[k].jti
    ensures atoms[i].t in At(env, atoms, i + 1).threads && RefusedAsRevoked(env, atoms, i)
  {
    hide Reach, At, StepAtom;
    AtNext(env, atoms, k);
    AtNext(env, atoms, i);
    var held, current := At(env, atoms, i).threads[atoms[i].t].pc.obj, At(env, atoms, k).shared.bindings[atoms[k].jti];
    var a := ObjectOrigin(env, atoms, i, held);
    var b := ObjectOrigin(env, atoms, k, current);
    assert a == b;
    assert Flags(env, atoms, k, held);
    RevocationReaches(env, atoms, i);
  }

  /** A request that fetched its binding, overtaken by a re-bind and a revocation of the new object. */
  function Overtaken(rec: BindingRec, th: Thread): (atoms: seq<Atom>)
    ensures |atoms| == 8
  {
    var go := Go(0, rec.issuedAt, []);
    [BindToken(rec), Spawn(0, th), go, go, go, BindToken(rec), RevokeToken(rec.jti), go]
  }

  lemma {:induction false} ReachMore(env: Env, atoms: seq<Atom>, a: Atom)
    ensures Reach(env, atoms + [a]) == StepAtom(env, Reach(env, atoms), a)
  {
    hide StepAtom;
    assert (atoms + [a])[..|atoms|] == atoms;
  }

  /** A resource request that matches the binding in everything. */
  predicate Matches(rec: BindingRec, th: Thread) {
    && Sound(th) && th.route.ResourceRoute? && !th.tokenRaises && th.refusal.None?
    && th.tokenJti == rec.jti != [] && th.ja4 == Some(rec.ja4) && th.dpop.jkt == Some(rec.jkt)
    && th.sourceIp == rec.sourceIp && th.ja4h == rec.ja4h
  }

  /**
   * Binding once is needed: when the token is bound again in between, a request may be forwarded on the
   * old object although the store's current binding of its token is revoked.
   */
  lemma {:induction false} ReboundTokenForwarded(env: Env, rec: BindingRec, th: Thread)
    requires 0 < env.policy.challengeThreshold && 0 < env.policy.riskThreshold && Matches(rec, th)
    ensures var c := Reach(env, Overtaken(rec, th));
            && 0 in c.threads && c.threads[0].pc == Done(Forwarded(rec.jti, false))
            && rec.jti in c.shared.bindings && c.shared.bindings[rec.jti] < |c.shared.objs|
            && c.shared.objs[c.shared.bindings[rec.jti]].revoked
  {
    hide Overtaken, Reach, StepAtom, Matches;
    var all := Overtaken(rec, th);
    OvertakenParts(env, rec, th);
    Fetched(env, rec, th);
    ReboundRevoked(env, Reach(env, all[..5]), rec);
    MatchForwarded(env, Reach(env, all[..7]), rec, th);
  }

  lemma {:induction false} ReboundRevoked(env: Env, c: Config, rec: BindingRec)
    requires c.shared.objs == [rec.(revoked := false)] && c.shared.bindings == map[rec.jti := 0]
    ensures var c' := StepAtom(env, StepAtom(env, c, BindToken(rec)), RevokeToken(rec.jti));
            && c'.threads == c.threads && c'.shared.bindings == map[rec.jti := 1]
            && c'.shared.objs == [rec.(revoked := false), rec.(revoked := true)]
  {
    hide GoThread;
  }

  lemma {:induction false} MatchForwarded(env: Env, c: Config, rec: BindingRec, th: Thread)
    requires 0 < env.policy.challengeThreshold && 0 < env.policy.riskThreshold && Matches(rec, th)
    requires c.threads == map[0 := th.(pc := AtEvaluate(0))]
    requires |c.shared.objs| == 2 && c.shared.objs[0] == rec.(revoked := false)
    ensures var c' := StepAtom(env, c, Go(0, rec.issuedAt, []));
            c'.shared == c.shared && c'.threads == map[0 := th.(pc := Done(Forwarded(rec.jti, false)))]
  {
    var d := Evaluate(env.policy, c.shared.objs[0], th.ja4, th.dpop, th.sourceIp, th.ja4h, rec.issuedAt);
    assert TierOf(env.policy, d) == Forward;
  }

  lemma {:induction false} Fetched(env: Env, rec: BindingRec, th: Thread)
    requires Matches(rec, th)
    ensures Reach(env, Overtaken(rec, th)[..5])
            == Config(Shared([rec.(revoked := false)], map[rec.jti := 0], {th.proofJti}, map[], map[]),
                      map[0 := th.(pc := AtEvaluate(0))])
  {
    hide Overtaken, Reach, Evaluate;
    OvertakenParts(env, rec, th);
    var bound, all := rec.(revoked := false), Overtaken(rec, th);
    assert Reach(env, all[..2])
        == Config(Shared([bound], map[rec.jti := 0], {}, map[], map[]), map[0 := th.(pc := AtLimit)]);
    assert Reach(env, all[..3])
        == Config(Shared([bound], map[rec.jti := 0], {}, map[], map[]), map[0 := th.(pc := AtReplayCheck)]);
    assert Reach(env, all[..4])
        == Config(Shared([bound], map[rec.jti := 0], {th.proofJti}, map[], map[]), map[0 := th.(pc := AtGet)]);
  }

  lemma {:induction false} OvertakenStep(env: Env, rec: BindingRec, th: Thread, i: nat)
    requires i < 8
    ensures var all := Overtaken(rec, th); Reach(env, all[..i + 1]) == StepAtom(env, Reach(env, all[..i]), all[i])
  {
    hide StepAtom;
    var all := Overtaken(rec, th);
    assert all[..i + 1] == all[..i] + [all[i]];
    ReachMore(env, all[..i], all[i]);
  }

  lemma {:induction false} OvertakenParts(env: Env, rec: BindingRec, th: Thread)
    ensures var all, go := Overtaken(rec, th), Go(0, rec.issuedAt, []);
            && Reach(env, all[..1]) == StepAtom(env, START, BindToken(rec))
            && Reach(env, all[..2]) == StepAtom(env, Reach(env, all[..1]), Spawn(0, th))
            && Reach(env, all[..3]) == StepAtom(env, Reach(env, all[..2]), go)
            && Reach(env, all[..4]) == StepAtom(env, Reach(env, all[..3]), go)
            && Reach(env, all[..5]) == StepAtom(env, Reach(env, all[..4]), go)
            && Reach(env, all[..6]) == StepAtom(env, Reach(env, all[..5]), BindToken(rec))
            && Reach(env, all[..7]) == StepAtom(env, Reach(env, all[..6]), RevokeToken(rec.jti))
            && Reach(env, all) == StepAtom(env, Reach(env, all[..7]), go)
  {
    hide StepAtom;
    var all := Overtaken(rec, th);
    assert all[..0] == [] && all[..8] == all && Reach(env, []) == START;
    hide Reach;
    OvertakenStep(env, rec, th, 0);
    OvertakenStep(env, rec, th, 1);
    OvertakenStep(env, rec, th, 2);
    OvertakenStep(env, rec, th, 3);
    OvertakenStep(env, rec, th, 4);
    OvertakenStep(env, rec, th, 5);
    OvertakenStep(env, rec, th, 6);
    OvertakenStep(env, rec, th, 7);
  }

  // ----- the whole hook as one of the interleavings -----

  /** The store's bindings by value. */
  function View(sh: Shared): map<PyStr, BindingRec> {
    map j | j in sh.bindings && sh.bindings[j] < |sh.objs| :: sh.objs[sh.bindings[j]]
  }

  ghost predicate Represents(sh: Shared, s: State) {
    WellFormed(sh) && View(sh) == s.bindings && sh.seen == s.seen && sh.challenges == s.challenges
    && sh.windows == s.windows
  }

  lemma {:induction false} FetchView(sh: Shared, jti: PyStr, now: int)
    requires WellFormed(sh)
    ensures var (sh', o) := Fetch(sh, jti, now);
            && WellFormed(sh') && View(sh') == AfterGet(View(sh), jti, now)
            && sh'.objs == sh.objs && sh'.seen == sh.seen && sh'.challenges == sh.challenges
            && sh'.windows == sh.windows
            && (o.Some? <==> Live(View(sh), jti, now).Some?)
            && (o.Some? ==> o.value < |sh.objs| && Live(View(sh), jti, now) == Some(sh.objs[o.value]))
  {}

  /** Flagging the shared object is flagging the token's binding, and no other token's. */
  lemma {:induction false} RevokeView(sh: Shared, jti: PyStr)
    requires WellFormed(sh)
    ensures View(RevokeObject(sh, jti))
            == if jti in View(sh) then View(sh)[jti := View(sh)[jti].(revoked := true)] else View(sh)
  {
    var v := View(RevokeObject(sh, jti));
    forall j | j in v && j != jti ensures v[j] == View(sh)[j] {
      assert sh.objs[sh.bindings[j]].jti == j;
    }
  }

  lemma {:induction false} BindView(sh: Shared, rec: BindingRec)
    requires WellFormed(sh)
    ensures View(BindObject(sh, rec)) == View(sh)[rec.jti := rec.(revoked := false)]
  {}

  /** Why the proof is refused before the replay check. */
  function Refusal(env: Env, r: Request, now: int): Option<Reason> {
    if r.proof.None? then Some(MissingProof)
    else
      var dpop := Dpop.ValidateDpop(env.thumb, r.proof.value, r.httpMethod, r.url, now);
      if dpop.valid then None else Some(ProofInvalid(dpop.reason))
  }

  /** The request as a thread. */
  function ThreadOf(env: Env, s: State, r: Request, now: int): Thread {
    Thread(r.route, r.tokenRaises, Refusal(env, r, now),
           if r.tokenJti.Some? then r.tokenJti.value else [],
           if r.proof.Some? then r.proof.value.claims.jti else [],
           if r.proof.Some? then ShownNonce(r) else [],
           PresentedJa4(s, r.conn),
           if r.proof.Some? then Dpop.ValidateDpop(env.thumb, r.proof.value, r.httpMethod, r.url, now)
           else Dpop.Invalid(Dpop.MalformedHeader),
           r.sourceIp, r.ja4h, AtLimit)
  }

  /** A thread that runs on its own for n steps. */
  function Alone(env: Env, sh: Shared, th: Thread, now: int, nonce: PyStr, n: nat): (Shared, Thread)
    decreases n
  {
    if n == 0 then (sh, th)
    else
      var (sh', th') := GoThread(env, sh, th, now, nonce);
      Alone(env, sh', th', now, nonce, n - 1)
  }

  /** What the step-up part of the hook does to the challenges, and answers. */
  function Judged(p: Policy, challenges: map<PyStr, Challenge>, now: int, d: Decision, jti: PyStr, shown: PyStr,
                  nonce: PyStr): (map<PyStr, Challenge>, Outcome)
  {
    match TierOf(p, d)
    case Refuse => (challenges, Blocked(d.reason))
    case Forward => (challenges, Forwarded(jti, false))
    case StepUp =>
      if NonceRaises(challenges, jti, shown, now)
      then (AfterVerify(challenges, jti, shown, now), Raised(NonceNotAscii(jti)))
      else if NonceOk(challenges, jti, shown, now) then (AfterVerify(challenges, jti, shown, now), Forwarded(jti, true))
      else (AfterVerify(challenges, jti, shown, now)[jti := Challenge(nonce, now)], Challenged(jti, nonce))
  }

  lemma {:induction false} JudgedStores(env: Env, s: State, now: int, d: Decision, jti: PyStr, r: Request, nonce: PyStr)
    requires r.proof.Some?
    ensures var (s', o) := JudgedStep(env, s, now, d, jti, r.proof.value.claims.nonce, nonce);
            s'.bindings == s.bindings && s'.seen == s.seen && s'.windows == s.windows
            && (s'.challenges, o) == Judged(env.policy, s.challenges, now, d, jti, ShownNonce(r), nonce)
  {
    hide AfterVerify, NonceOk, NonceRaises, WithRow, DecisionRow;
  }

  /** From the engine's decision on, at most three steps. */
  lemma {:induction false} JudgedAlone(env: Env, sh: Shared, th: Thread, s: State, r: Request, now: int, nonce: PyStr)
    requires Represents(sh, s) && r.proof.Some? && th.nonce == ShownNonce(r)
    requires th.pc.AtEvaluate? && th.pc.obj < |sh.objs|
    ensures var d := Evaluate(env.policy, sh.objs[th.pc.obj], th.ja4, th.dpop, th.sourceIp, th.ja4h, now);
            var (s', o) := JudgedStep(env, s, now, d, th.tokenJti, r.proof.value.claims.nonce, nonce);
            var (sh', th') := Alone(env, sh, th, now, nonce, 3);
            th'.pc == Done(o) && Represents(sh', s')
  {
    hide Evaluate, AfterVerify, NonceOk, NonceRaises, TierOf, JudgedStep, View, WellFormed;
    var d := Evaluate(env.policy, sh.objs[th.pc.obj], th.ja4, th.dpop, th.sourceIp, th.ja4h, now);
    JudgedStores(env, s, now, d, th.tokenJti, r, nonce);
    var (sh1, th1) := GoThread(env, sh, th, now, nonce);
    var (sh2, th2) := GoThread(env, sh1, th1, now, nonce);
    var (sh3, th3) := GoThread(env, sh2, th2, now, nonce);
    assert Alone(env, sh3, th3, now, nonce, 0) == (sh3, th3);
    assert Alone(env, sh2, th2, now, nonce, 1) == (sh3, th3);
    assert Alone(env, sh1, th1, now, nonce, 2) == (sh3, th3);
    assert sh3.objs == sh.objs && sh3.bindings == sh.bindings && sh3.seen == sh.seen && sh3.windows == sh.windows;
    ViewOnly(sh, sh3);
  }

  /** From the binding lookup on. */
  lemma {:induction false} ResourceAlone(env: Env, sh: Shared, th: Thread, s: State, r: Request, now: int, nonce: PyStr)
    requires Represents(sh, s) && r.proof.Some? && th.pc.AtGet? && th == ThreadOf(env, s, r, now).(pc := AtGet)
    ensures var (s', o) := ResourceStep(env, s, now, r, th.dpop, nonce);
            var (sh', th') := Alone(env, sh, th, now, nonce, 4);
            th'.pc == Done(o) && Represents(sh', s')
  {
    hide JudgedStep, Evaluate, View, WellFormed, AfterGet, Live, Dpop.ValidateDpop, Fetch, WithRow, Alone;
    var (sh1, th1) := GoThread(env, sh, th, now, nonce);
    AloneStep(env, sh, th, now, nonce, 4);
    FetchView(sh, th.tokenJti, now);
    if th1.pc.Done? {
      StaysDone(env, sh1, th1, now, nonce, 3);
    } else {
      JudgedAlone(env, sh1, th1, s.(bindings := AfterGet(s.bindings, th.tokenJti, now)), r, now, nonce);
    }
  }

  lemma {:induction false} AloneStep(env: Env, sh: Shared, th: Thread, now: int, nonce: PyStr, n: nat)
    requires n > 0
    ensures var (sh', th') := GoThread(env, sh, th, now, nonce);
            Alone(env, sh, th, now, nonce, n) == Alone(env, sh', th', now, nonce, n - 1)
  {
    hide GoThread;
  }

  /** From the proof on. */
  lemma {:induction false} ProvenAlone(env: Env, sh: Shared, th: Thread, s: State, r: Request, now: int, nonce: PyStr)
    requires Represents(sh, s) && !r.route.RevokeRoute? && th == ThreadOf(env, s, r, now).(pc := AtReplayCheck)
    ensures var (s', o) := ProvenStep(env, s, now, r, nonce);
            var (sh', th') := Alone(env, sh, th, now, nonce, 5);
            th'.pc == Done(o) && Represents(sh', s')
  {
    hide ProvenStep, GoThread, ThreadOf, ResourceStep, Represents, Alone;
    var (sh1, th1) := GoThread(env, sh, th, now, nonce);
    AloneStep(env, sh, th, now, nonce, 5);
    if th1.pc.Done? {
      ReplayEnds(env, sh, th, s, r, now, nonce);
      StaysDone(env, sh1, th1, now, nonce, 4);
    } else {
      ReplayPasses(env, sh, th, s, r, now, nonce);
      ResourceAlone(env, sh1, th1, s.(seen := s.seen + {th.proofJti}), r, now, nonce);
    }
  }

  /** The replay check ends the request as the hook does. */
  lemma {:induction false} ReplayEnds(env: Env, sh: Shared, th: Thread, s: State, r: Request, now: int, nonce: PyStr)
    requires Represents(sh, s) && !r.route.RevokeRoute? && th == ThreadOf(env, s, r, now).(pc := AtReplayCheck)
    requires GoThread(env, sh, th, now, nonce).1.pc.Done?
    ensures var (s', o) := ProvenStep(env, s, now, r, nonce);
            var (sh1, th1) := GoThread(env, sh, th, now, nonce);
            th1.pc == Done(o) && Represents(sh1, s')
  {
    hide ResourceStep, View, WellFormed, Dpop.ValidateDpop, WithRow, Dpop.Genuine, Dpop.FreshAt, Dpop.Thumbprint;
    if r.proof.Some? { Dpop.ValidIff(env.thumb, r.proof.value, r.httpMethod, r.url, now); }
    var (sh1, th1) := GoThread(env, sh, th, now, nonce);
    ViewOnly(sh, sh1);
  }

  /** Or it hands the request on to the binding lookup. */
  lemma {:induction false} ReplayPasses(env: Env, sh: Shared, th: Thread, s: State, r: Request, now: int, nonce: PyStr)
    requires Represents(sh, s) && !r.route.RevokeRoute? && th == ThreadOf(env, s, r, now).(pc := AtReplayCheck)
    requires !GoThread(env, sh, th, now, nonce).1.pc.Done?
    ensures var (sh1, th1) := GoThread(env, sh, th, now, nonce);
            var s1 := s.(seen := s.seen + {th.proofJti});
            && r.proof.Some? && th1.pc.AtGet? && th1 == ThreadOf(env, s1, r, now).(pc := AtGet) && Represents(sh1, s1)
            && th1.dpop == th.dpop && ProvenStep(env, s, now, r, nonce) == ResourceStep(env, s1, now, r, th.dpop, nonce)
  {
    hide ResourceStep, View, WellFormed, Dpop.ValidateDpop, BlockStep, Dpop.Genuine, Dpop.FreshAt, Dpop.Thumbprint;
    if r.proof.Some? { Dpop.ValidIff(env.thumb, r.proof.value, r.httpMethod, r.url, now); }
    var (sh1, th1) := GoThread(env, sh, th, now, nonce);
    ViewOnly(sh, sh1);
  }

  /** A token or resource request left alone does exactly what the whole hook does to the stores, and ends the same. */
  lemma {:induction false} HookIsAnInterleaving(env: Env, sh: Shared, s: State, r: Request, now: int, nonce: PyStr)
    requires Represents(sh, s) && !r.route.RevokeRoute?
    ensures var (s', o) := Next(env, s, Step(now, Req(r, nonce)));
            var (sh', th') := Alone(env, sh, ThreadOf(env, s, r, now), now, nonce, 6);
            Sound(ThreadOf(env, s, r, now)) && th'.pc == Done(o) && Represents(sh', s')
  {
    hide ProvenStep, View, WellFormed, Dpop.ValidateDpop, RL.Recorded, RL.Verdict, LimiterKey, Dpop.Genuine, Dpop.FreshAt, Alone;
    var th := ThreadOf(env, s, r, now);
    var (sh1, th1) := GoThread(env, sh, th, now, nonce);
    AloneStep(env, sh, th, now, nonce, 6);
    ViewOnly(sh, sh1);
    if th1.pc.Done? {
      StaysDone(env, sh1, th1, now, nonce, 5);
    } else {
      var key := LimiterKey(PresentedJa4(s, r.conn));
      var s1 := if r.route.TokenRoute? then s.(windows := RL.Recorded(s.windows, RATE_LIMIT_WINDOW, key, now)) else s;
      ProvenAlone(env, sh1, th1, s1, r, now, nonce);
    }
  }

  lemma {:induction false} ViewOnly(sh: Shared, sh': Shared)
    requires sh'.objs == sh.objs && sh'.bindings == sh.bindings
    ensures View(sh') == View(sh) && (WellFormed(sh') <==> WellFormed(sh))
  {}

  lemma {:induction false} StaysDone(env: Env, sh: Shared, th: Thread, now: int, nonce: PyStr, n: nat)
    ensures th.pc.Done? ==> Alone(env, sh, th, now, nonce, n) == (sh, th)
  {
    if n > 0 && th.pc.Done? { StaysDone(env, sh, th, now, nonce, n - 1); }
  }

  /** The response hook is the atom that binds, or leaves the stores alone. */
  lemma {:induction false} ResponseIsAnAtom(env: Env, c: Config, s: State, step: Step)
    requires Represents(c.shared, s) && step.hook.Resp?
    ensures var (s', o) := Next(env, s, step);
            if o.Bound?
            then BindsAs(s, step, o.jti)
                 && Represents(StepAtom(env, c, BindToken(BoundRec(s.stash[step.hook.flow], o.jti, step.now))).shared, s')
            else Represents(c.shared, s')
  {
    hide View, Push, WellFormed;
    var o := Next(env, s, step).1;
    if o.Bound? {
      BindsIff(env, s, step, o.jti);
      var rec := BoundRec(s.stash[step.hook.flow], o.jti, step.now);
      BindView(c.shared, rec);
      BindGrows(c.shared, rec);
    }
  }

  /** A revocation is the atom that flags, or leaves the stores alone. */
  lemma {:induction false} RevocationIsAnAtom(env: Env, c: Config, s: State, step: Step)
    requires Represents(c.shared, s) && step.hook.Req? && step.hook.r.route.RevokeRoute?
    ensures var (s', o) := Next(env, s, step);
            if o.Revoked? then Represents(StepAtom(env, c, RevokeToken(o.jti)).shared, s') else Represents(c.shared, s')
  {
    hide WellFormed, View;
    var o := Next(env, s, step).1;
    if o.Revoked? {
      RevokeView(c.shared, o.jti);
      RevokeGrows(c.shared, o.jti);
    }
  }
}
