/** Why a request was forwarded, and how far the limiter holds, under every interleaving. */
module InterleavingHistory {
  import opened PyText
  import opened Json
  import opened Policy
  import opened Engine
  import opened Protocol
  import opened Interleaving
  import opened ProtocolLimits
  import RL = RateLimiter

  // ----- how a request came to be where it is -----

  lemma {:induction false} PcAlone(env: Env, sh: Shared, th: Thread, now: int, nonce: PyStr)
    ensures var th' := GoThread(env, sh, th, now, nonce).1; th' == th.(pc := th'.pc)
  {
    hide Evaluate, TierOf, AfterVerify, NonceOk, NonceRaises, Fetch, RL.Recorded, RL.Verdict, LimiterKey;
  }

  /** What an atom does to the threads: its own moves, a new one starts, the others stay. */
  lemma {:induction false} ThreadAtom(env: Env, c: Config, a: Atom, t: ThreadId)
    requires t in StepAtom(env, c, a).threads
    ensures var th' := StepAtom(env, c, a).threads[t];
            if t !in c.threads then th'.pc.AtLimit?
            else if a.Go? && a.t == t then th' == GoThread(env, c.shared, c.threads[t], a.now, a.nonce).1
            else th' == c.threads[t]
  {
    hide GoThread;
  }

  /** The atom that moved a request to where it is. */
  lemma {:induction false} MovedBy(env: Env, atoms: seq<Atom>, i: nat, t: ThreadId) returns (k: nat)
    requires i <= |atoms| && t in At(env, atoms, i).threads && !At(env, atoms, i).threads[t].pc.AtLimit?
    ensures k < i && atoms[k].Go? && atoms[k].t == t && t in At(env, atoms, k).threads
    ensures var th, th' := At(env, atoms, k).threads[t], At(env, atoms, i).threads[t];
            && th == th'.(pc := th.pc) && th.pc != th'.pc
            && th' == GoThread(env, At(env, atoms, k).shared, th, atoms[k].now, atoms[k].nonce).1
  {
    hide Reach, At, StepAtom, GoThread;
    if i == 0 {
      AtStart(env, atoms);
    } else {
      var c, a := At(env, atoms, i - 1), atoms[i - 1];
      AtNext(env, atoms, i - 1);
      ThreadAtom(env, c, a, t);
      if t in c.threads && a.Go? { PcAlone(env, c.shared, c.threads[t], a.now, a.nonce); }
      if a.Go? && a.t == t && c.threads[t].pc != At(env, atoms, i).threads[t].pc {
        k := i - 1;
      } else {
        k := MovedBy(env, atoms, i - 1, t);
      }
    }
  }

  // ----- the binding behind a forwarded request -----

  /** Each object is what one bind stored, flags apart. */
  lemma {:induction false} ObjectBound(env: Env, atoms: seq<Atom>, i: nat, o: ObjId) returns (b: nat)
    requires i <= |atoms| && o < |At(env, atoms, i).shared.objs|
    ensures b < i && atoms[b].BindToken? && |At(env, atoms, b).shared.objs| == o
    ensures var x := At(env, atoms, i).shared.objs[o]; x == atoms[b].rec.(revoked := x.revoked)
  {
    hide Reach, At, StepAtom;
    if i == 0 {
      AtStart(env, atoms);
    } else {
      var c := At(env, atoms, i - 1);
      AtNext(env, atoms, i - 1);
      ObjectsAtom(env, c, atoms[i - 1]);
      OnlyBindsAllocate(env, c, atoms[i - 1]);
      if o < |c.shared.objs| {
        b := ObjectBound(env, atoms, i - 1, o);
      } else {
        b := i - 1;
      }
    }
  }

  /** Atom f handed the request the store's object of its token, within its lifetime. */
  predicate Fetches(env: Env, atoms: seq<Atom>, f: nat, t: ThreadId, j: PyStr, o: ObjId)
    requires f < |atoms|
  {
    && atoms[f].Go? && atoms[f].t == t
    && var sh := At(env, atoms, f).shared;
    && j in sh.bindings && sh.bindings[j] == o < |sh.objs|
    && atoms[f].now - sh.objs[o].issuedAt <= 300
  }

  lemma {:induction false} FetchInverse(env: Env, sh: Shared, th: Thread, now: int, nonce: PyStr)
    requires !th.pc.AtEvaluate?
    ensures var th' := GoThread(env, sh, th, now, nonce).1;
            th'.pc.AtEvaluate? ==>
              && th.tokenJti in sh.bindings && sh.bindings[th.tokenJti] == th'.pc.obj < |sh.objs|
              && now - sh.objs[th'.pc.obj].issuedAt <= 300
  {
    hide Evaluate, TierOf, AfterVerify, NonceOk, NonceRaises, RL.Recorded, RL.Verdict, LimiterKey;
  }

  lemma {:induction false} FetchedBy(env: Env, atoms: seq<Atom>, i: nat, t: ThreadId) returns (f: nat)
    requires i <= |atoms| && t in At(env, atoms, i).threads && At(env, atoms, i).threads[t].pc.AtEvaluate?
    ensures f < i
    ensures var th := At(env, atoms, i).threads[t]; Fetches(env, atoms, f, t, th.tokenJti, th.pc.obj)
  {
    hide Reach, At, GoThread;
    f := MovedBy(env, atoms, i, t);
    var c := At(env, atoms, f);
    EvaluateMovesOn(env, c.shared, c.threads[t], atoms[f].now, atoms[f].nonce);
    if !c.threads[t].pc.AtEvaluate? {
      FetchInverse(env, c.shared, c.threads[t], atoms[f].now, atoms[f].nonce);
    }
  }

  /** The engine's step never leads to another binding. */
  lemma {:induction false} EvaluateMovesOn(env: Env, sh: Shared, th: Thread, now: int, nonce: PyStr)
    ensures var th' := GoThread(env, sh, th, now, nonce).1;
            th.pc.AtEvaluate? && th'.pc.AtEvaluate? ==> th' == th
  {
    hide Evaluate, TierOf, AfterVerify, NonceOk, NonceRaises, RL.Recorded, RL.Verdict, LimiterKey;
  }

  /** The engine passed the request on the object it held, with the risk in the given band. */
  ghost predicate Passed(env: Env, x: BindingRec, th: Thread, up: bool) {
    && !x.revoked && th.dpop.valid && th.ja4 == Some(x.ja4) && th.dpop.jkt == Some(x.jkt)
    && var risk := Risk(env.policy, x, th.sourceIp, th.ja4h);
       risk < env.policy.riskThreshold && (up <==> env.policy.challengeThreshold <= risk)
  }

  lemma {:induction false} EvaluateInverse(env: Env, sh: Shared, th: Thread, now: int, nonce: PyStr)
    ensures var th' := GoThread(env, sh, th, now, nonce).1;
            && (th'.pc.AtVerify? && !th.pc.AtVerify? ==>
                  th.pc.AtEvaluate? && th.pc.obj < |sh.objs| && Passed(env, sh.objs[th.pc.obj], th, true))
            && (forall j :: th'.pc == Done(Forwarded(j, false)) && !th.pc.Done? ==>
                  j == th.tokenJti && th.pc.AtEvaluate? && th.pc.obj < |sh.objs|
                  && Passed(env, sh.objs[th.pc.obj], th, false))
  {
    hide AfterVerify, NonceOk, NonceRaises, Fetch, RL.Recorded, RL.Verdict, LimiterKey, Risk;
  }

  lemma {:induction false} VerifyInverse(env: Env, sh: Shared, th: Thread, now: int, nonce: PyStr)
    ensures var th' := GoThread(env, sh, th, now, nonce).1;
            && (th.pc.Done? ==> th' == th)
            && (th.pc.AtVerify? ==> !th'.pc.AtVerify?)
            && forall j :: th'.pc == Done(Forwarded(j, true)) && !th.pc.Done? ==>
                 j == th.tokenJti && th.pc.AtVerify? && NonceOk(sh.challenges, j, th.nonce, now)
  {
    hide AfterVerify, NonceOk, NonceRaises, Fetch, Evaluate, TierOf, RL.Recorded, RL.Verdict, LimiterKey;
  }

  /** The atom at which the engine passed a request that is past it. */
  lemma {:induction false} EvaluatedBy(env: Env, atoms: seq<Atom>, i: nat, t: ThreadId, up: bool) returns (e: nat)
    requires i <= |atoms| && t in At(env, atoms, i).threads
    requires var th := At(env, atoms, i).threads[t];
             if up then th.pc.AtVerify? else th.pc == Done(Forwarded(th.tokenJti, false))
    ensures e < i && atoms[e].Go? && atoms[e].t == t && t in At(env, atoms, e).threads
    ensures var c, th' := At(env, atoms, e), At(env, atoms, i).threads[t];
            var th := c.threads[t];
            && th == th'.(pc := th.pc) && th.pc.AtEvaluate? && th.pc.obj < |c.shared.objs|
            && Passed(env, c.shared.objs[th.pc.obj], th, up)
  {
    hide Reach, At, GoThread, Passed;
    e := MovedBy(env, atoms, i, t);
    var c := At(env, atoms, e);
    EvaluateInverse(env, c.shared, c.threads[t], atoms[e].now, atoms[e].nonce);
    VerifyInverse(env, c.shared, c.threads[t], atoms[e].now, atoms[e].nonce);
  }

  /** The request of thread t is forwarded in the end. */
  predicate EndsForwarded(env: Env, atoms: seq<Atom>, t: ThreadId, j: PyStr, up: bool) {
    t in Reach(env, atoms).threads && Reach(env, atoms).threads[t].pc == Done(Forwarded(j, up))
  }

  /** The atom at which a stepped-up request had its nonce accepted. */
  lemma {:induction false} VerifiedBy(env: Env, atoms: seq<Atom>, t: ThreadId, j: PyStr) returns (v: nat)
    requires EndsForwarded(env, atoms, t, j, true)
    ensures v < |atoms| && t in At(env, atoms, v).threads && atoms[v].Go? && atoms[v].t == t
    ensures var c, th' := At(env, atoms, v), Reach(env, atoms).threads[t];
            var th := c.threads[t];
            && th == th'.(pc := th.pc) && th.pc.AtVerify? && th.tokenJti == j
            && NonceOk(c.shared.challenges, j, th.nonce, atoms[v].now)
  {
    assert atoms[..|atoms|] == atoms;
    hide Reach, GoThread, NonceOk;
    v := MovedBy(env, atoms, |atoms|, t);
    var c := At(env, atoms, v);
    VerifyInverse(env, c.shared, c.threads[t], atoms[v].now, atoms[v].nonce);
  }

  /**
   * Why a request was forwarded, however the requests interleave: bind b stored the object that atom f
   * handed it within the token's lifetime, the engine passed it on that object at atom e, no revocation
   * had met the object by then, and key, JA4 and risk match what was bound.
   */
  lemma {:induction false} ForwardedBecause(env: Env, atoms: seq<Atom>, t: ThreadId, j: PyStr, up: bool)
    returns (b: nat, f: nat, e: nat)
    requires EndsForwarded(env, atoms, t, j, up)
    ensures b < f < e < |atoms| && atoms[b].BindToken? && atoms[b].rec.jti == j && atoms[e].Go? && atoms[e].t == t
    ensures var o := |At(env, atoms, b).shared.objs|;
            && Fetches(env, atoms, f, t, j, o) && atoms[f].now - atoms[b].rec.issuedAt <= 300
            && forall k | 0 <= k < e :: !Flags(env, atoms, k, o)
    ensures Passed(env, atoms[b].rec.(revoked := false), Reach(env, atoms).threads[t], up)
  {
    assert At(env, atoms, |atoms|) == Reach(env, atoms) by { assert atoms[..|atoms|] == atoms; }
    var i := |atoms|;
    if up {
      i := VerifiedBy(env, atoms, t, j);
    } else {
      ForwardedOwn(env, atoms, t, j);
    }
    hide Reach, At, GoThread, Flags;
    e := EvaluatedBy(env, atoms, i, t, up);
    var o := At(env, atoms, e).threads[t].pc.obj;
    f := FetchedBy(env, atoms, e, t);
    b := ObjectBound(env, atoms, f, o);
    var b2 := ObjectBound(env, atoms, e, o);
    AllocatedOnce(env, atoms, b, b2);
    RevokedIff(env, atoms, e, o);
    AtNext(env, atoms, f);
  }

  /** A forwarded request is forwarded for its own token. */
  lemma {:induction false} ForwardedOwn(env: Env, atoms: seq<Atom>, t: ThreadId, j: PyStr)
    requires EndsForwarded(env, atoms, t, j, false)
    ensures Reach(env, atoms).threads[t].tokenJti == j
  {
    assert atoms[..|atoms|] == atoms;
    hide Reach, GoThread, Passed;
    var k := MovedBy(env, atoms, |atoms|, t);
    var c := At(env, atoms, k);
    EvaluateInverse(env, c.shared, c.threads[t], atoms[k].now, atoms[k].nonce);
    VerifyInverse(env, c.shared, c.threads[t], atoms[k].now, atoms[k].nonce);
  }

  lemma {:induction false} ObjectsOnlyGrow(env: Env, atoms: seq<Atom>, i: nat, k: nat)
    requires i <= k <= |atoms|
    ensures |At(env, atoms, i).shared.objs| <= |At(env, atoms, k).shared.objs|
  {
    hide Reach, At, StepAtom;
    if i < k {
      ObjectsOnlyGrow(env, atoms, i, k - 1);
      AtNext(env, atoms, k - 1);
      ObjectsAtom(env, At(env, atoms, k - 1), atoms[k - 1]);
    }
  }

  /** Two binds never store the same object. */
  lemma {:induction false} AllocatedOnce(env: Env, atoms: seq<Atom>, a: nat, b: nat)
    requires a < |atoms| && b < |atoms| && atoms[a].BindToken? && atoms[b].BindToken?
    requires |At(env, atoms, a).shared.objs| == |At(env, atoms, b).shared.objs|
    ensures a == b
  {
    hide Reach, At, StepAtom;
    AtNext(env, atoms, a);
    AtNext(env, atoms, b);
    OnlyBindsAllocate(env, At(env, atoms, a), atoms[a]);
    OnlyBindsAllocate(env, At(env, atoms, b), atoms[b]);
    if a < b { ObjectsOnlyGrow(env, atoms, a + 1, b); }
    if b < a { ObjectsOnlyGrow(env, atoms, b + 1, a); }
  }

  // ----- the challenge behind a stepped-up request -----

  /** A challenge after an atom was issued by it, or was there before and not used by it. */
  lemma {:induction false} ChallengeSource(env: Env, c: Config, a: Atom, j: PyStr)
    requires j in StepAtom(env, c, a).shared.challenges
    ensures var after := StepAtom(env, c, a).shared.challenges[j];
            if Issues(c, a, j, None) then after == Challenge(a.nonce, a.now)
            else !Uses(c, a, j, None) && j in c.shared.challenges && after == c.shared.challenges[j]
  {
    hide GoThread;
    if a.Go? && a.t in c.threads { ThreadChallenge(env, c.shared, c.threads[a.t], a.now, a.nonce, j); }
  }

  lemma {:induction false} ThreadChallenge(env: Env, sh: Shared, th: Thread, now: int, nonce: PyStr, j: PyStr)
    ensures var after := GoThread(env, sh, th, now, nonce).0.challenges;
            if th.pc.AtIssue? && th.tokenJti == j then j in after && after[j] == Challenge(nonce, now)
            else j in after ==>
              && j in sh.challenges && after[j] == sh.challenges[j]
              && !(th.pc.AtVerify? && th.tokenJti == j && NonceOk(sh.challenges, j, th.nonce, now))
  {
    hide Evaluate, TierOf, RL.Recorded, RL.Verdict, LimiterKey, AsciiText;
  }

  /** Between the two atoms no challenge of the token is issued or used. */
  predicate Untouched(env: Env, atoms: seq<Atom>, c: nat, v: nat, j: PyStr)
    requires c < v <= |atoms|
  {
    forall k | c < k < v :: !Issues(At(env, atoms, k), atoms[k], j, None) && !Uses(At(env, atoms, k), atoms[k], j, None)
  }

  /** Every stored challenge was issued by some atom and left alone since. */
  lemma {:induction false} ChallengeIssued(env: Env, atoms: seq<Atom>, i: nat, j: PyStr) returns (c: nat)
    requires i <= |atoms| && j in At(env, atoms, i).shared.challenges
    ensures c < i && Issues(At(env, atoms, c), atoms[c], j, None) && atoms[c].Go? && Untouched(env, atoms, c, i, j)
    ensures At(env, atoms, i).shared.challenges[j] == Challenge(atoms[c].nonce, atoms[c].now)
  {
    hide Reach, At, StepAtom;
    if i == 0 {
      AtStart(env, atoms);
    } else {
      AtNext(env, atoms, i - 1);
      ChallengeSource(env, At(env, atoms, i - 1), atoms[i - 1], j);
      if Issues(At(env, atoms, i - 1), atoms[i - 1], j, None) {
        c := i - 1;
      } else {
        c := ChallengeIssued(env, atoms, i - 1, j);
      }
    }
  }

  /**
   * Why a stepped-up request was: atom c issued exactly the nonce it shows for its token, atom v used it in
   * time, and in between no challenge of the token was issued or used.
   */
  lemma {:induction false} SteppedUpBecause(env: Env, atoms: seq<Atom>, t: ThreadId, j: PyStr) returns (c: nat, v: nat)
    requires EndsForwarded(env, atoms, t, j, true)
    ensures c < v < |atoms| && atoms[c].Go? && atoms[v].Go? && atoms[v].t == t
    ensures var nonce := Reach(env, atoms).threads[t].nonce;
            && nonce != [] && AsciiText(nonce)
            && Issues(At(env, atoms, c), atoms[c], j, Some(nonce)) && Uses(At(env, atoms, v), atoms[v], j, Some(nonce))
            && atoms[v].now - atoms[c].now <= 30 && Untouched(env, atoms, c, v, j)
  {
    v := VerifiedBy(env, atoms, t, j);
    hide Reach, At, AsciiText;
    c := ChallengeIssued(env, atoms, v, j);
  }

  // ----- the limiter -----

  /** The atom at which a token request meets the limiter. */
  predicate Meters(c: Config, a: Atom) {
    a.Go? && a.t in c.threads && c.threads[a.t].pc.AtLimit? && c.threads[a.t].route.TokenRoute?
    && !c.threads[a.t].tokenRaises
  }

  /** The attempts the limiter saw, in the order of its lock. */
  function Attempts(env: Env, atoms: seq<Atom>): seq<RL.Attempt> {
    if atoms == [] then []
    else
      var init, a := atoms[..|atoms| - 1], atoms[|atoms| - 1];
      var c := Reach(env, init);
      if Meters(c, a) then Attempts(env, init) + [RL.Attempt(LimiterKey(c.threads[a.t].ja4), a.now)]
      else Attempts(env, init)
  }

  lemma {:induction false} WindowsAtom(env: Env, c: Config, a: Atom)
    ensures StepAtom(env, c, a).shared.windows
            == if Meters(c, a) then RL.Recorded(c.shared.windows, RATE_LIMIT_WINDOW, LimiterKey(c.threads[a.t].ja4), a.now)
               else c.shared.windows
    ensures Meters(c, a) ==>
              (StepAtom(env, c, a).threads[a.t].pc.AtReplayCheck? <==>
               RL.Verdict(c.shared.windows, RATE_LIMIT_MAX_ATTEMPTS, RATE_LIMIT_WINDOW,
                          LimiterKey(c.threads[a.t].ja4), a.now).allowed)
  {
    hide GoThread, RL.Recorded, RL.Verdict, LimiterKey;
    if a.Go? && a.t in c.threads { ThreadWindows(env, c.shared, c.threads[a.t], a.now, a.nonce); }
  }

  lemma {:induction false} ThreadWindows(env: Env, sh: Shared, th: Thread, now: int, nonce: PyStr)
    ensures var (sh', th') := GoThread(env, sh, th, now, nonce);
            if th.pc.AtLimit? && th.route.TokenRoute? && !th.tokenRaises then
              && sh'.windows == RL.Recorded(sh.windows, RATE_LIMIT_WINDOW, LimiterKey(th.ja4), now)
              && (th'.pc.AtReplayCheck? <==>
                  RL.Verdict(sh.windows, RATE_LIMIT_MAX_ATTEMPTS, RATE_LIMIT_WINDOW, LimiterKey(th.ja4), now).allowed)
            else sh'.windows == sh.windows
  {
    hide Evaluate, TierOf, AfterVerify, NonceOk, NonceRaises, RL.Recorded, RL.Verdict, LimiterKey;
  }

  /** The limiter's windows are the replay of those attempts. */
  lemma {:induction false} WindowsReplay(env: Env, atoms: seq<Atom>)
    ensures Reach(env, atoms).shared.windows == RL.Replay(RATE_LIMIT_WINDOW, Attempts(env, atoms))
  {
    hide StepAtom, RL.Recorded, LimiterKey, RL.Replay, Meters;
    if atoms == [] {
      RL.ReplayNone(RATE_LIMIT_WINDOW);
    } else {
      var init, a := atoms[..|atoms| - 1], atoms[|atoms| - 1];
      WindowsReplay(env, init);
      WindowsAtom(env, Reach(env, init), a);
      if Meters(Reach(env, init), a) {
        MetersThread(Reach(env, init), a);
        RL.OneMore(RATE_LIMIT_WINDOW, Attempts(env, init),
                   RL.Attempt(LimiterKey(Reach(env, init).threads[a.t].ja4), a.now));
      }
    }
  }

  lemma {:induction false} MetersThread(c: Config, a: Atom)
    ensures Meters(c, a) ==> a.Go? && a.t in c.threads
  {}

  /** Token requests of a client that the limiter let past with a reading in [lo, lo + width]. */
  function LetPast(env: Env, atoms: seq<Atom>, who: Option<PyStr>, lo: int, width: int): nat {
    if atoms == [] then 0
    else
      var init, a := atoms[..|atoms| - 1], atoms[|atoms| - 1];
      var c := Reach(env, init);
      LetPast(env, init, who, lo, width)
      + if Meters(c, a) && SameClient(c.threads[a.t].ja4, who) && lo <= a.now <= lo + width
           && a.t in StepAtom(env, c, a).threads && StepAtom(env, c, a).threads[a.t].pc.AtReplayCheck?
        then 1 else 0
  }

  lemma {:induction false} LetPastIsAllowed(env: Env, atoms: seq<Atom>, who: Option<PyStr>, lo: int, width: int)
    ensures LetPast(env, atoms, who, lo, width)
            == RL.AllowedWithin(5, 30, Attempts(env, atoms), LimiterKey(who), lo, width)
  {
    hide StepAtom, RL.Recorded, RL.Replay, RL.Verdict, LimiterKey, SameClient, Meters, Reach, RL.AllowedWithin;
    if atoms == [] {
      RL.AllowedNone(5, 30, LimiterKey(who), lo, width);
    } else {
      var init, a := atoms[..|atoms| - 1], atoms[|atoms| - 1];
      var c := Reach(env, init);
      LetPastIsAllowed(env, init, who, lo, width);
      if Meters(c, a) {
        MetersThread(c, a);
        KeysIff(c.threads[a.t].ja4, who);
        WindowsReplay(env, init);
        WindowsAtom(env, c, a);
        MetersStays(env, c, a);
        RL.AllowedMore(5, 30, Attempts(env, init), RL.Attempt(LimiterKey(c.threads[a.t].ja4), a.now),
                       LimiterKey(who), lo, width);
      }
    }
  }

  lemma {:induction false} MetersStays(env: Env, c: Config, a: Atom)
    ensures Meters(c, a) ==> a.t in StepAtom(env, c, a).threads
  {
    hide GoThread;
  }

  /** The clock reading an atom carries. */
  function Reading(a: Atom): int { if a.Go? then a.now else 0 }

  /** Atom i is a token request of the client meeting the limiter. */
  predicate MetersFor(env: Env, atoms: seq<Atom>, i: nat, who: Option<PyStr>)
    requires i < |atoms|
  {
    var c := At(env, atoms, i);
    Meters(c, atoms[i]) && SameClient(c.threads[atoms[i].t].ja4, who)
  }

  /** The client's readings reach the limiter out of order by at most `skew`. */
  predicate ReadingsSkewed(env: Env, atoms: seq<Atom>, who: Option<PyStr>, skew: int) {
    forall i, k | 0 <= i < k < |atoms| && MetersFor(env, atoms, i, who) && MetersFor(env, atoms, k, who) ::
      Reading(atoms[i]) - skew <= Reading(atoms[k])
  }

  lemma {:induction false} MetersForInit(env: Env, atoms: seq<Atom>, i: nat, who: Option<PyStr>)
    requires i < |atoms| - 1
    ensures MetersFor(env, atoms[..|atoms| - 1], i, who) <==> MetersFor(env, atoms, i, who)
  {
    hide Reach, Meters, SameClient;
    assert atoms[..|atoms| - 1][..i] == atoms[..i];
  }

  /** Readings bounded over the atoms are bounded over the attempts. */
  lemma {:induction false} AttemptsBounded(env: Env, atoms: seq<Atom>, who: Option<PyStr>, t: int)
    requires forall i | 0 <= i < |atoms| && MetersFor(env, atoms, i, who) :: Reading(atoms[i]) <= t
    ensures RL.NoneAfter(Attempts(env, atoms), LimiterKey(who), t)
  {
    hide Reach, LimiterKey, SameClient, Meters, MetersFor;
    if atoms != [] {
      var init, m := atoms[..|atoms| - 1], |atoms| - 1;
      forall i | 0 <= i < |init| && MetersFor(env, init, i, who) ensures Reading(init[i]) <= t {
        MetersForInit(env, atoms, i, who);
      }
      AttemptsBounded(env, init, who, t);
      LastMeters(env, atoms, who);
    }
  }

  /** The last atom's attempt, if it is one. */
  lemma {:induction false} LastMeters(env: Env, atoms: seq<Atom>, who: Option<PyStr>)
    requires atoms != []
    ensures var init, m := atoms[..|atoms| - 1], |atoms| - 1;
            var c := Reach(env, init);
            if Meters(c, atoms[m])
            then atoms[m].Go? && atoms[m].t in c.threads
                 && (MetersFor(env, atoms, m, who) <==> LimiterKey(c.threads[atoms[m].t].ja4) == LimiterKey(who))
            else !MetersFor(env, atoms, m, who)
  {
    hide Reach, LimiterKey, SameClient;
    var m := |atoms| - 1;
    var c := Reach(env, atoms[..m]);
    if Meters(c, atoms[m]) { KeysIff(c.threads[atoms[m].t].ja4, who); }
  }

  lemma {:induction false} AttemptsSkewed(env: Env, atoms: seq<Atom>, who: Option<PyStr>, skew: int)
    requires ReadingsSkewed(env, atoms, who, skew)
    ensures RL.Skewed(Attempts(env, atoms), LimiterKey(who), skew)
  {
    hide Reach, LimiterKey, SameClient, Meters, MetersFor;
    if atoms != [] {
      var init, m := atoms[..|atoms| - 1], |atoms| - 1;
      forall i, k | 0 <= i < k < |init| && MetersFor(env, init, i, who) && MetersFor(env, init, k, who)
        ensures Reading(init[i]) - skew <= Reading(init[k])
      {
        MetersForInit(env, atoms, i, who);
        MetersForInit(env, atoms, k, who);
      }
      AttemptsSkewed(env, init, who, skew);
      LastMeters(env, atoms, who);
      if MetersFor(env, atoms, m, who) {
        forall i | 0 <= i < |init| && MetersFor(env, init, i, who) ensures Reading(init[i]) <= Reading(atoms[m]) + skew {
          MetersForInit(env, atoms, i, who);
        }
        AttemptsBounded(env, init, who, Reading(atoms[m]) + skew);
      }
    }
  }

  /**
   * Under every interleaving: if the readings of a client's token requests reach the limiter out of order by
   * at most `skew`, it lets at most five past in any interval shorter than thirty seconds by that much.
   */
  lemma {:induction false} ThrottledUnderSkew(env: Env, atoms: seq<Atom>, who: Option<PyStr>, skew: nat, lo: int, width: int)
    requires ReadingsSkewed(env, atoms, who, skew) && width <= 30 - skew
    ensures LetPast(env, atoms, who, lo, width) <= 5
  {
    hide LetPast, Attempts, RL.AllowedWithin, RL.Skewed, ReadingsSkewed;
    LetPastIsAllowed(env, atoms, who, lo, width);
    AttemptsSkewed(env, atoms, who, skew);
    RL.SkewedBound(5, 30, Attempts(env, atoms), LimiterKey(who), skew, lo, width);
  }
}
