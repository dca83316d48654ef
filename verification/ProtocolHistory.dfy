/** Every store of the proxy read back from the run so far: what happened decides what is forwarded. */
module ProtocolHistory {
  import opened PyText
  import opened Json
  import opened Policy
  import opened Engine
  import opened Protocol
  import opened ProtocolSteps
  import Dpop

  // ----- what the run so far says -----

  /** The last moment before n at which p held, or -1. */
  function Last(n: nat, p: nat -> bool): (k: int)
    ensures -1 <= k < n && (k >= 0 ==> p(k)) && forall m | k < m < n :: !p(m)
  {
    if n == 0 then -1 else if p(n - 1) then n - 1 else Last(n - 1, p)
  }

  function IsHello(steps: seq<Step>, conn: ConnId): nat -> bool {
    (k: nat) => k < |steps| && steps[k].hook.Hello? && steps[k].hook.conn == conn
  }

  function IsIssuance(steps: seq<Step>, os: seq<Outcome>, flow: FlowId): nat -> bool {
    (k: nat) => k < |os| == |steps| && os[k].IssuanceForwarded? && HasProof(steps[k]) && ProofOf(steps[k]).jwk.Some?
         && steps[k].hook.r.flow == flow
  }

  function IsBind(os: seq<Outcome>, jti: PyStr): nat -> bool {
    (k: nat) => k < |os| && os[k] == Bound(jti)
  }

  /** A challenge issued for the token, or used up. */
  function IsChallenge(os: seq<Outcome>, jti: PyStr): nat -> bool {
    (k: nat) => k < |os| && ((os[k].Challenged? && os[k].jti == jti) || os[k] == Forwarded(jti, true))
  }

  /** The JA4 a connection presents: that of its latest ClientHello. */
  function Presents(steps: seq<Step>, i: nat, conn: ConnId): Option<PyStr>
    requires i <= |steps|
  {
    var h := Last(i, IsHello(steps, conn));
    if h >= 0 then steps[h].hook.ja4 else None
  }

  /** What the token request at step q leaves for its response. */
  function StashFrom(env: Env, steps: seq<Step>, q: nat): Stash
    requires q < |steps| && HasProof(steps[q]) && ProofOf(steps[q]).jwk.Some?
  {
    var r := steps[q].hook.r;
    Stash(Dpop.Thumbprint(env.thumb, ProofOf(steps[q]).jwk.value), Presents(steps, q, r.conn), r.ja4h, r.sourceIp)
  }

  predicate RevokedIn(os: seq<Outcome>, from: int, i: nat, jti: PyStr) {
    exists k | from < k < i && 0 <= k < |os| :: os[k] == Revoked(jti)
  }

  /** Step b answered the token request at step q by binding the token. */
  predicate IssuedBy(steps: seq<Step>, os: seq<Outcome>, q: int, b: int, jti: PyStr) {
    && 0 <= q < b < |os| == |steps|
    && os[b] == Bound(jti) && steps[b].hook.Resp?
    && steps[b].hook.route.TokenRoute? && steps[b].hook.status == 200 && steps[b].hook.jti == Some(jti)
    && q == Last(b, IsIssuance(steps, os, steps[b].hook.flow))
    && HasProof(steps[q]) && ProofOf(steps[q]).jwk.Some? && steps[q].hook.r.route.TokenRoute?
  }

  /** The binding the history gives a token at time now, revocations included. */
  ghost function BindingFrom(env: Env, steps: seq<Step>, os: seq<Outcome>, i: nat, jti: PyStr, now: int): Option<BindingRec>
    requires i <= |steps| == |os|
  {
    var b := Last(i, IsBind(os, jti));
    if b < 0 || now - steps[b].now > 300 || !steps[b].hook.Resp? then None
    else
      var q := Last(b, IsIssuance(steps, os, steps[b].hook.flow));
      if q < 0 || !Bindable(StashFrom(env, steps, q)) then None
      else Some(BoundRec(StashFrom(env, steps, q), jti, steps[b].now).(revoked := RevokedIn(os, b, i, jti)))
  }

  /** The token's outstanding challenge by the history. */
  function OpenFrom(steps: seq<Step>, os: seq<Outcome>, i: nat, jti: PyStr, now: int): Option<Challenge>
    requires i <= |steps| == |os|
  {
    var c := Last(i, IsChallenge(os, jti));
    if c >= 0 && os[c].Challenged? && now - steps[c].now <= 30
    then Some(Challenge(os[c].nonce, steps[c].now)) else None
  }

  /** A request before step i already had this proof accepted. */
  predicate UsedBefore(steps: seq<Step>, os: seq<Outcome>, i: nat, proofJti: PyStr)
    requires i <= |steps| == |os|
  {
    exists k | 0 <= k < i :: Accepted(os[k]) && HasProof(steps[k]) && ProofOf(steps[k]).claims.jti == proofJti
  }

  predicate NotBefore(steps: seq<Step>, i: nat, now: int)
    requires i <= |steps|
  {
    forall k | 0 <= k < i :: steps[k].now <= now
  }

  // ----- the state is that history -----

  lemma {:induction false} BeforeAny(env: Env, steps: seq<Step>)
    ensures Before(env, steps, 0) == INIT
  {
    hide Next;
  }

  lemma {:induction false} Ja4History(env: Env, steps: seq<Step>, i: nat, conn: ConnId)
    requires i <= |steps|
    ensures PresentedJa4(Before(env, steps, i), conn) == Presents(steps, i, conn)
  {
    hide Run, Before, Next;
    if i == 0 {
      BeforeAny(env, steps);
    } else {
      Ja4History(env, steps, i - 1, conn);
      OutcomeAt(env, steps, i - 1);
      HelloEffect(env, Before(env, steps, i - 1), steps[i - 1]);
    }
  }

  lemma {:induction false} StashHistory(env: Env, steps: seq<Step>, i: nat, flow: FlowId)
    requires i <= |steps|
    ensures var s, q := Before(env, steps, i), Last(i, IsIssuance(steps, Run(env, steps).outcomes, flow));
            && (flow in s.stash <==> q >= 0)
            && (q >= 0 ==> steps[q].hook.r.route.TokenRoute? && s.stash[flow] == StashFrom(env, steps, q))
  {
    hide Run, Before, Next, Dpop.Thumbprint, Presents, PresentedJa4;
    if i == 0 {
      BeforeAny(env, steps);
    } else {
      var s := Before(env, steps, i - 1);
      StashHistory(env, steps, i - 1, flow);
      OutcomeAt(env, steps, i - 1);
      StashEffect(env, s, steps[i - 1]);
      if HasProof(steps[i - 1]) { Ja4History(env, steps, i - 1, steps[i - 1].hook.r.conn); }
    }
  }

  lemma {:induction false} UsedStep(steps: seq<Step>, os: seq<Outcome>, i: nat, proofJti: PyStr)
    requires i < |steps| == |os|
    ensures UsedBefore(steps, os, i + 1, proofJti) <==>
            UsedBefore(steps, os, i, proofJti)
            || (Accepted(os[i]) && HasProof(steps[i]) && ProofOf(steps[i]).claims.jti == proofJti)
  {}

  lemma {:induction false} SeenHistory(env: Env, steps: seq<Step>, i: nat, proofJti: PyStr)
    requires i <= |steps|
    ensures proofJti in Before(env, steps, i).seen <==> UsedBefore(steps, Run(env, steps).outcomes, i, proofJti)
  {
    hide Run, Before, Next, ProofValid, Accepted;
    if i == 0 {
      BeforeAny(env, steps);
    } else {
      SeenHistory(env, steps, i - 1, proofJti);
      OutcomeAt(env, steps, i - 1);
      SeenEffect(env, Before(env, steps, i - 1), steps[i - 1]);
      UsedStep(steps, Run(env, steps).outcomes, i - 1, proofJti);
    }
  }

  lemma {:induction false} ChallengeHistory(env: Env, steps: seq<Step>, i: nat, jti: PyStr, now: int)
    requires i <= |steps| && NotBefore(steps, i, now)
    ensures Open(Before(env, steps, i).challenges, jti, now) == OpenFrom(steps, Run(env, steps).outcomes, i, jti, now)
  {
    hide Run, Before, Next;
    if i == 0 {
      BeforeAny(env, steps);
    } else {
      ChallengeHistory(env, steps, i - 1, jti, now);
      OutcomeAt(env, steps, i - 1);
      ChallengeEffect(env, Before(env, steps, i - 1), steps[i - 1], jti);
    }
  }

  /** How one more outcome changes what the history says a token is bound to. */
  lemma {:induction false} BindingFromStep(env: Env, steps: seq<Step>, os: seq<Outcome>, i: nat, jti: PyStr, now: int)
    requires i < |steps| == |os|
    ensures var was, after := BindingFrom(env, steps, os, i, jti, now), BindingFrom(env, steps, os, i + 1, jti, now);
            if os[i] == Revoked(jti) then after == if was.Some? then Some(was.value.(revoked := true)) else None
            else os[i] != Bound(jti) ==> after == was
  {
    hide StashFrom, IsIssuance, Bindable;
    var b := Last(i, IsBind(os, jti));
    if os[i] == Revoked(jti) {
      assert RevokedIn(os, b, i + 1, jti);
    } else if os[i] != Bound(jti) {
      assert RevokedIn(os, b, i + 1, jti) == RevokedIn(os, b, i, jti);
    }
  }

  lemma {:induction false} BindingFromBind(env: Env, steps: seq<Step>, i: nat, jti: PyStr, now: int)
    requires i < |steps| && Run(env, steps).outcomes[i] == Bound(jti) && steps[i].now <= now
    ensures var s := Before(env, steps, i);
            BindsAs(s, steps[i], jti)
            && BindingFrom(env, steps, Run(env, steps).outcomes, i + 1, jti, now)
               == Live(map[jti := BoundRec(s.stash[steps[i].hook.flow], jti, steps[i].now)], jti, now)
  {
    var s, os := Before(env, steps, i), Run(env, steps).outcomes;
    OutcomeAt(env, steps, i);
    BindsIff(env, s, steps[i], jti);
    StashHistory(env, steps, i, steps[i].hook.flow);
    hide Run, Next, Before, StashFrom, IsIssuance;
    assert !RevokedIn(os, i, i + 1, jti);
  }

  lemma {:induction false} NothingBound(env: Env, steps: seq<Step>, os: seq<Outcome>, jti: PyStr, now: int)
    requires |steps| == |os|
    ensures BindingFrom(env, steps, os, 0, jti, now).None?
  {}

  lemma {:induction false} BindingHistory(env: Env, steps: seq<Step>, i: nat, jti: PyStr, now: int)
    requires i <= |steps| && NotBefore(steps, i, now)
    ensures Live(Before(env, steps, i).bindings, jti, now)
            == BindingFrom(env, steps, Run(env, steps).outcomes, i, jti, now)
  {
    hide Run, Before, Next, BindingFrom, BindsAs, BoundRec, StashFrom;
    if i == 0 {
      BeforeAny(env, steps);
      NothingBound(env, steps, Run(env, steps).outcomes, jti, now);
    } else {
      var s, os := Before(env, steps, i - 1), Run(env, steps).outcomes;
      BindingHistory(env, steps, i - 1, jti, now);
      OutcomeAt(env, steps, i - 1);
      BindingEffect(env, s, steps[i - 1], jti);
      BindingFromStep(env, steps, os, i - 1, jti, now);
      if os[i - 1] == Bound(jti) { BindingFromBind(env, steps, i - 1, jti, now); }
    }
  }
}
