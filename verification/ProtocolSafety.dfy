/** What every run of the proxy keeps. */
module ProtocolSafety {
  import opened PyText
  import opened Json
  import opened Policy
  import opened Engine
  import opened Protocol
  import opened ProtocolSteps
  import opened ProtocolHistory
  import Dpop

  lemma {:induction false} ClockedNotBefore(steps: seq<Step>, i: nat)
    requires Clocked(steps) && i < |steps|
    ensures NotBefore(steps, i, steps[i].now)
  {}

  // ----- forwarding -----

  /** The history before step i justifies passing its request on, all but the step-up. */
  ghost predicate Justified(env: Env, steps: seq<Step>, os: seq<Outcome>, i: nat, j: PyStr)
    requires i < |steps| == |os|
  {
    && HasProof(steps[i]) && steps[i].hook.r.route.ResourceRoute? && !steps[i].hook.r.tokenRaises
    && steps[i].hook.r.tokenJti == Some(j) && j != []
    && ProofValid(env, steps[i]) && !UsedBefore(steps, os, i, ProofOf(steps[i]).claims.jti)
    && var b := BindingFrom(env, steps, os, i, j, steps[i].now);
    && b.Some? && !b.value.revoked
    && Presents(steps, i, steps[i].hook.r.conn) == Some(b.value.ja4)
    && ProofOf(steps[i]).jwk.Some? && Dpop.Thumbprint(env.thumb, ProofOf(steps[i]).jwk.value) == b.value.jkt
    && RiskOf(env, b.value, steps[i].hook.r) < env.policy.riskThreshold
  }

  ghost predicate NeedsStepUp(env: Env, steps: seq<Step>, os: seq<Outcome>, i: nat, j: PyStr)
    requires i < |steps| == |os| && Justified(env, steps, os, i, j)
  {
    env.policy.challengeThreshold <= RiskOf(env, BindingFrom(env, steps, os, i, j, steps[i].now).value, steps[i].hook.r)
  }

  /** The proof carries the nonce of the token's outstanding challenge. */
  ghost predicate SteppedUp(env: Env, steps: seq<Step>, os: seq<Outcome>, i: nat, j: PyStr)
    requires i < |steps| == |os| && Justified(env, steps, os, i, j)
  {
    var c, n := OpenFrom(steps, os, i, j, steps[i].now), ShownNonce(steps[i].hook.r);
    n != [] && AsciiText(n) && c.Some? && c.value.nonce == n
  }

  /** The proof carries a nonce that cannot be compared with the token's outstanding challenge. */
  ghost predicate NonceIncomparable(env: Env, steps: seq<Step>, os: seq<Outcome>, i: nat, j: PyStr)
    requires i < |steps| == |os| && Justified(env, steps, os, i, j)
  {
    var c, n := OpenFrom(steps, os, i, j, steps[i].now), ShownNonce(steps[i].hook.r);
    n != [] && c.Some? && !(AsciiText(n) && AsciiText(c.value.nonce))
  }

  /** The stores agree with the history on every ingredient of the decision. */
  lemma {:induction false} JustifiedIsPasses(env: Env, steps: seq<Step>, i: nat, j: PyStr)
    requires Clocked(steps) && i < |steps|
    ensures var s, os := Before(env, steps, i), Run(env, steps).outcomes;
            && (Justified(env, steps, os, i, j) <==> Passes(env, s, steps[i], j))
            && (Justified(env, steps, os, i, j) ==>
                  (NeedsStepUp(env, steps, os, i, j) <==> Risky(env, s, steps[i], j))
                  && (SteppedUp(env, steps, os, i, j) <==> ShowsNonce(env, s, steps[i], j))
                  && (NonceIncomparable(env, steps, os, i, j) <==> NonceClashes(env, s, steps[i], j)))
  {
    hide Run, Before, Next, BindingFrom, OpenFrom, Live, Presents, PresentedJa4, UsedBefore, ProofValid, Dpop.Thumbprint,
      Risk, AsciiText;
    ClockedNotBefore(steps, i);
    BindingHistory(env, steps, i, j, steps[i].now);
    ChallengeHistory(env, steps, i, j, steps[i].now);
    if HasProof(steps[i]) {
      SeenHistory(env, steps, i, ProofOf(steps[i]).claims.jti);
      Ja4History(env, steps, i, steps[i].hook.r.conn);
    }
  }

  /** A resource request is forwarded exactly when the history justifies it. */
  lemma {:induction false} ForwardedIffJustified(env: Env, steps: seq<Step>, i: nat, j: PyStr, steppedUp: bool)
    requires Clocked(steps) && i < |steps|
    ensures var os := Run(env, steps).outcomes;
            os[i] == Forwarded(j, steppedUp) <==>
            Justified(env, steps, os, i, j) && steppedUp == NeedsStepUp(env, steps, os, i, j)
            && (steppedUp ==> SteppedUp(env, steps, os, i, j))
  {
    hide Run, Before, Next, Justified, NeedsStepUp, SteppedUp, Passes, Risky, ShowsNonce;
    OutcomeAt(env, steps, i);
    JustifiedIsPasses(env, steps, i, j);
    ForwardedIff(env, Before(env, steps, i), steps[i], j, steppedUp);
  }

  /** And it is challenged exactly when only the nonce is missing. */
  lemma {:induction false} ChallengedIffJustified(env: Env, steps: seq<Step>, i: nat, j: PyStr, nonce: PyStr)
    requires Clocked(steps) && i < |steps|
    ensures var os := Run(env, steps).outcomes;
            os[i] == Challenged(j, nonce) <==>
            Justified(env, steps, os, i, j) && NeedsStepUp(env, steps, os, i, j)
            && !SteppedUp(env, steps, os, i, j) && !NonceIncomparable(env, steps, os, i, j)
            && steps[i].hook.nonce == nonce
  {
    hide Run, Before, Next, Justified, NeedsStepUp, SteppedUp, NonceIncomparable, Passes, Risky, ShowsNonce, NonceClashes;
    OutcomeAt(env, steps, i);
    JustifiedIsPasses(env, steps, i, j);
    ChallengedIff(env, Before(env, steps, i), steps[i], j, nonce);
  }

  /** And comparing its nonce raises exactly when step-up is needed and the nonce cannot be compared. */
  lemma {:induction false} RaisedIffIncomparable(env: Env, steps: seq<Step>, i: nat, j: PyStr)
    requires Clocked(steps) && i < |steps|
    ensures var os := Run(env, steps).outcomes;
            os[i] == Raised(NonceNotAscii(j)) <==>
            Justified(env, steps, os, i, j) && NeedsStepUp(env, steps, os, i, j) && NonceIncomparable(env, steps, os, i, j)
  {
    hide Run, Before, Next, Justified, NeedsStepUp, SteppedUp, NonceIncomparable, Passes, Risky, ShowsNonce, NonceClashes;
    OutcomeAt(env, steps, i);
    JustifiedIsPasses(env, steps, i, j);
    NonceRaisesIff(env, Before(env, steps, i), steps[i], j);
  }

  // ----- what goes on to the backend -----

  /** The hook leaves the flow without an answer of the proxy's own, so that it goes on to the backend. */
  predicate Unanswered(o: Outcome) { o.Forwarded? || o.IssuanceForwarded? || o.Raised? }

  /**
   * A resource request goes on to the backend exactly when its token cannot be read, or the history
   * justifies it and its risk needs no step-up, or it has stepped up, or its nonce cannot be compared.
   */
  lemma {:induction false} UnansweredIff(env: Env, steps: seq<Step>, i: nat)
    requires Clocked(steps) && i < |steps| && steps[i].hook.Req? && steps[i].hook.r.route.ResourceRoute?
    ensures var os := Run(env, steps).outcomes;
            var token := steps[i].hook.r.tokenJti;
            Unanswered(os[i]) <==>
            steps[i].hook.r.tokenRaises
            || (token.Some? && Justified(env, steps, os, i, token.value)
                && (NeedsStepUp(env, steps, os, i, token.value) ==>
                      SteppedUp(env, steps, os, i, token.value) || NonceIncomparable(env, steps, os, i, token.value)))
  {
    hide Run, Before, Next, Justified, NeedsStepUp, SteppedUp, NonceIncomparable;
    var os, token := Run(env, steps).outcomes, steps[i].hook.r.tokenJti;
    OutcomeAt(env, steps, i);
    OtherRaisesIff(env, Before(env, steps, i), steps[i]);
    ResourceOutcomes(env, Before(env, steps, i), steps[i]);
    if token.Some? {
      ForwardedIffJustified(env, steps, i, token.value, true);
      ForwardedIffJustified(env, steps, i, token.value, false);
      RaisedIffIncomparable(env, steps, i, token.value);
    }
  }

  lemma {:induction false} ResourceOutcomes(env: Env, s: State, step: Step)
    requires step.hook.Req? && step.hook.r.route.ResourceRoute?
    ensures var o := Next(env, s, step).1;
            Unanswered(o) ==>
              || o == Raised(TokenUnreadable)
              || (step.hook.r.tokenJti.Some?
                  && o in {Forwarded(step.hook.r.tokenJti.value, true), Forwarded(step.hook.r.tokenJti.value, false),
                           Raised(NonceNotAscii(step.hook.r.tokenJti.value))})
  {
    var o := Next(env, s, step).1;
    if o.Forwarded? { ForwardedIff(env, s, step, o.jti, o.steppedUp); }
    if o.Raised? && o.fault.NonceNotAscii? { NonceRaisesIff(env, s, step, o.fault.jti); }
    OtherRaisesIff(env, s, step);
    hide ProvenStep, Passes;
    if !step.hook.r.tokenRaises {
      ProvenEffect(env, s, step.now, step.hook.r, step.hook.nonce, []);
    }
  }

  /** Every token can be read, and every nonce drawn or shown is ASCII. */
  predicate AllAscii(steps: seq<Step>) {
    forall i | 0 <= i < |steps| && steps[i].hook.Req? ::
      !steps[i].hook.r.tokenRaises && AsciiText(steps[i].hook.nonce)
      && (HasProof(steps[i]) ==> AsciiText(ShownNonce(steps[i].hook.r)))
  }

  /** Then no request makes the hook raise, but for a revocation whose body is no object. */
  lemma {:induction false} AsciiNeverRaises(env: Env, steps: seq<Step>, i: nat)
    requires Clocked(steps) && AllAscii(steps) && i < |steps| && Run(env, steps).outcomes[i].Raised?
    ensures Run(env, steps).outcomes[i].fault.BodyNotAnObject?
  {
    hide Run, Before, Next, BindingFrom, Presents, UsedBefore, ProofValid, AsciiText;
    var os := Run(env, steps).outcomes;
    var fault := os[i].fault;
    OutcomeAt(env, steps, i);
    OtherRaisesIff(env, Before(env, steps, i), steps[i]);
    if fault.NonceNotAscii? {
      RaisedIffIncomparable(env, steps, i, fault.jti);
      var c := Last(i, IsChallenge(os, fault.jti));
      ChallengedIffJustified(env, steps, c, fault.jti, os[c].nonce);
    }
  }

  /** And a resource request goes on to the backend exactly when it is forwarded. */
  lemma {:induction false} AsciiUnansweredIff(env: Env, steps: seq<Step>, i: nat)
    requires Clocked(steps) && AllAscii(steps) && i < |steps|
    requires steps[i].hook.Req? && steps[i].hook.r.route.ResourceRoute?
    ensures var o := Run(env, steps).outcomes[i]; Unanswered(o) <==> o.Forwarded?
  {
    hide Run, Before, Next;
    OutcomeAt(env, steps, i);
    ResourceOutcomes(env, Before(env, steps, i), steps[i]);
    if Run(env, steps).outcomes[i].Raised? { AsciiNeverRaises(env, steps, i); }
  }

  // ----- why a request was forwarded -----

  /** What a request adds up to against the one that got the token: a moved address, a changed header shape. */
  function RiskSince(p: Policy, r0: Request, r: Request): int {
    (if r.sourceIp != r0.sourceIp then p.ipDelta else 0)
    + if r.ja4h.Some? && r0.ja4h.Some? && r.ja4h.value != [] && r0.ja4h.value != [] && r.ja4h != r0.ja4h then p.ja4hDelta else 0
  }

  /**
   * Why a request was forwarded: step q asked for the token, step b issued it at most a lifetime ago to
   * the same key and JA4, nothing revoked or re-bound it since, the proof was never accepted before, and
   * the risk stays under the threshold.
   */
  lemma {:induction false} ForwardSafety(env: Env, steps: seq<Step>, i: nat, j: PyStr, steppedUp: bool)
    returns (q: nat, b: nat)
    requires Clocked(steps) && i < |steps| && Run(env, steps).outcomes[i] == Forwarded(j, steppedUp)
    ensures var os := Run(env, steps).outcomes;
            && b < i && IssuedBy(steps, os, q, b, j)
            && steps[i].now - steps[b].now <= 300
            && (forall k | b < k < i :: os[k] != Bound(j) && os[k] != Revoked(j))
    ensures HasProof(steps[i]) && ProofOf(steps[i]).jwk.Some? && steps[i].hook.r.tokenJti == Some(j)
    ensures var r, r0 := steps[i].hook.r, steps[q].hook.r;
            && Dpop.Thumbprint(env.thumb, ProofOf(steps[i]).jwk.value)
               == Dpop.Thumbprint(env.thumb, ProofOf(steps[q]).jwk.value) != []
            && Presents(steps, i, r.conn) == Presents(steps, q, r0.conn)
            && Presents(steps, i, r.conn).Some? && Presents(steps, i, r.conn).value != []
            && var risk := RiskSince(env.policy, r0, r);
               risk < env.policy.riskThreshold && (steppedUp <==> env.policy.challengeThreshold <= risk)
    ensures ProofValid(env, steps[i])
            && !UsedBefore(steps, Run(env, steps).outcomes, i, ProofOf(steps[i]).claims.jti)
  {
    hide Run, Next, UsedBefore, ProofValid, Dpop.Thumbprint, Presents;
    var os := Run(env, steps).outcomes;
    ForwardedIffJustified(env, steps, i, j, steppedUp);
    b := Last(i, IsBind(os, j));
    q := Last(b, IsIssuance(steps, os, steps[b].hook.flow));
    BoundByIssuance(env, steps, b, j);
    forall k | b < k < i ensures os[k] != Bound(j) && os[k] != Revoked(j) {
      assert !IsBind(os, j)(k) && !RevokedIn(os, b, i, j);
    }
  }

  /** A bind answers the last token request of its flow. */
  lemma {:induction false} BoundByIssuance(env: Env, steps: seq<Step>, b: nat, j: PyStr)
    requires b < |steps| && Run(env, steps).outcomes[b] == Bound(j)
    ensures steps[b].hook.Resp?
    ensures var os := Run(env, steps).outcomes;
            var q := Last(b, IsIssuance(steps, os, steps[b].hook.flow));
            IssuedBy(steps, os, q, b, j) && Bindable(StashFrom(env, steps, q))
  {
    hide Run, Before, Next, StashFrom;
    OutcomeAt(env, steps, b);
    BindsIff(env, Before(env, steps, b), steps[b], j);
    StashHistory(env, steps, b, steps[b].hook.flow);
  }

  /** A stepped-up request used the latest challenge of its token, in time, and was the first to do so. */
  lemma {:induction false} StepUpSafety(env: Env, steps: seq<Step>, i: nat, j: PyStr) returns (c: nat)
    requires Clocked(steps) && i < |steps| && Run(env, steps).outcomes[i] == Forwarded(j, true)
    ensures var os := Run(env, steps).outcomes;
            && c < i && HasProof(steps[i]) && os[c] == Challenged(j, ShownNonce(steps[i].hook.r))
            && ShownNonce(steps[i].hook.r) != [] && AsciiText(ShownNonce(steps[i].hook.r))
            && steps[i].now - steps[c].now <= 30
            && (forall k | c < k < i :: os[k] != Forwarded(j, true) && !(os[k].Challenged? && os[k].jti == j))
  {
    hide Run, Next, NeedsStepUp, BindingFrom, UsedBefore, ProofValid, Dpop.Thumbprint, Presents, Risk;
    ForwardedIffJustified(env, steps, i, j, true);
    var os := Run(env, steps).outcomes;
    c := Last(i, IsChallenge(os, j));
    forall k | c < k < i ensures os[k] != Forwarded(j, true) && !(os[k].Challenged? && os[k].jti == j) {
      assert !IsChallenge(os, j)(k);
    }
  }

  // ----- at most once -----

  /** No two accepted requests ever carried the same proof. */
  lemma {:induction false} ProofOnce(env: Env, steps: seq<Step>, i: nat, k: nat)
    requires i < k < |steps|
    requires Accepted(Run(env, steps).outcomes[i]) && Accepted(Run(env, steps).outcomes[k])
    ensures HasProof(steps[i]) && HasProof(steps[k])
    ensures ProofOf(steps[i]).claims.jti != ProofOf(steps[k]).claims.jti
  {
    hide Run, Before, Next, ProofValid, Accepted;
    OutcomeAt(env, steps, i);
    SeenEffect(env, Before(env, steps, i), steps[i]);
    OutcomeAt(env, steps, k);
    SeenEffect(env, Before(env, steps, k), steps[k]);
    SeenHistory(env, steps, k, ProofOf(steps[k]).claims.jti);
  }

  /** Two stepped-up requests never live off the same challenge. */
  lemma {:induction false} ChallengeOnce(env: Env, steps: seq<Step>, i: nat, k: nat, j1: PyStr, j2: PyStr)
    returns (c1: nat, c2: nat)
    requires Clocked(steps) && i < k < |steps|
    requires Run(env, steps).outcomes[i] == Forwarded(j1, true) && Run(env, steps).outcomes[k] == Forwarded(j2, true)
    ensures HasProof(steps[i]) && HasProof(steps[k]) && c1 != c2 && c1 < i && c2 < k
    ensures Run(env, steps).outcomes[c1] == Challenged(j1, ShownNonce(steps[i].hook.r))
    ensures Run(env, steps).outcomes[c2] == Challenged(j2, ShownNonce(steps[k].hook.r))
  {
    hide Run, Next;
    c1 := StepUpSafety(env, steps, i, j1);
    c2 := StepUpSafety(env, steps, k, j2);
    assert c2 < i ==> j1 != j2;
  }

  predicate NoncesDistinct(os: seq<Outcome>) {
    forall a, b | 0 <= a < b < |os| && os[a].Challenged? && os[b].Challenged? :: os[a].nonce != os[b].nonce
  }

  /** With distinct nonces, no nonce ever succeeds twice. */
  lemma {:induction false} NonceOnce(env: Env, steps: seq<Step>, i: nat, k: nat, j1: PyStr, j2: PyStr)
    requires Clocked(steps) && i < k < |steps| && NoncesDistinct(Run(env, steps).outcomes)
    requires Run(env, steps).outcomes[i] == Forwarded(j1, true) && Run(env, steps).outcomes[k] == Forwarded(j2, true)
    ensures HasProof(steps[i]) && HasProof(steps[k])
    ensures ShownNonce(steps[i].hook.r) != ShownNonce(steps[k].hook.r)
  {
    hide Run, Next;
    var c1, c2 := ChallengeOnce(env, steps, i, k, j1, j2);
  }

  // ----- step-up -----

  /** The request at step i repeats the challenged one at step c with a fresh proof that carries the nonce. */
  ghost predicate Retries(env: Env, steps: seq<Step>, os: seq<Outcome>, c: nat, i: nat, nonce: PyStr)
    requires c < i < |steps| == |os|
  {
    && HasProof(steps[c]) && HasProof(steps[i])
    && ProofOf(steps[c]).jwk.Some? && ProofOf(steps[i]).jwk.Some?
    && var r0, r := steps[c].hook.r, steps[i].hook.r;
    && r.route.ResourceRoute? && r.tokenJti == r0.tokenJti && !r.tokenRaises
    && r.sourceIp == r0.sourceIp && r.ja4h == r0.ja4h
    && Presents(steps, i, r.conn) == Presents(steps, c, r0.conn)
    && Dpop.Thumbprint(env.thumb, r.proof.value.jwk.value) == Dpop.Thumbprint(env.thumb, r0.proof.value.jwk.value)
    && ProofValid(env, steps[i]) && !UsedBefore(steps, os, i, r.proof.value.claims.jti)
    && r.proof.value.claims.nonce == Some(nonce)
  }

  /** Between the two steps the token saw no new challenge, no step-up, no revocation and no re-bind. */
  predicate LeftAlone(os: seq<Outcome>, c: nat, i: nat, j: PyStr)
    requires c < i <= |os|
  {
    forall k | c < k < i ::
      !(os[k].Challenged? && os[k].jti == j) && os[k] != Forwarded(j, true) && os[k] != Revoked(j) && os[k] != Bound(j)
  }

  lemma {:induction false} LastStays(n: nat, m: nat, p: nat -> bool)
    requires n <= m && forall k | n <= k < m :: !p(k)
    ensures Last(m, p) == Last(n, p)
  {
    if n < m { LastStays(n, m - 1, p); }
  }

  /** A token left alone keeps its binding until it expires. */
  lemma {:induction false} BindingStays(env: Env, steps: seq<Step>, os: seq<Outcome>, c: nat, i: nat, j: PyStr, now0: int, now: int)
    requires c < i <= |steps| == |os| && LeftAlone(os, c, i, j) && os[c] != Bound(j) && os[c] != Revoked(j)
    requires BindingFrom(env, steps, os, c, j, now0).Some?
    requires now - BindingFrom(env, steps, os, c, j, now0).value.issuedAt <= 300
    ensures BindingFrom(env, steps, os, i, j, now) == BindingFrom(env, steps, os, c, j, now0)
  {
    hide StashFrom, IsIssuance, Bindable;
    LastStays(c, i, IsBind(os, j));
    var b := Last(c, IsBind(os, j));
    if RevokedIn(os, b, i, j) {
      var k :| b < k < i && 0 <= k < |os| && os[k] == Revoked(j);
      assert k < c;
      assert RevokedIn(os, b, c, j);
    } else {
      assert !RevokedIn(os, b, c, j);
    }
  }

  /**
   * A challenge can be met: as long as the token is left alone and neither it nor the challenge has
   * expired, repeating the request with a fresh proof over the nonce is forwarded, unless the nonce is one
   * that cannot be compared.
   */
  lemma {:induction false} StepUpCompletes(env: Env, steps: seq<Step>, c: nat, i: nat, j: PyStr, nonce: PyStr)
    requires Clocked(steps) && c < i < |steps| && nonce != []
    requires var os := Run(env, steps).outcomes;
             && os[c] == Challenged(j, nonce) && LeftAlone(os, c, i, j) && Retries(env, steps, os, c, i, nonce)
    requires steps[i].now - steps[c].now <= 30
    requires var b := Last(c, IsBind(Run(env, steps).outcomes, j)); b >= 0 ==> steps[i].now - steps[b].now <= 300
    ensures Run(env, steps).outcomes[i] == if AsciiText(nonce) then Forwarded(j, true) else Raised(NonceNotAscii(j))
  {
    hide Run, Before, Next, UsedBefore, ProofValid, Dpop.Thumbprint, Presents, StashFrom, IsIssuance, Risk;
    var os := Run(env, steps).outcomes;
    ChallengedIffJustified(env, steps, c, j, nonce);
    BindingStays(env, steps, os, c, i, j, steps[c].now, steps[i].now);
    forall k | c < k < i ensures !IsChallenge(os, j)(k) {}
    LastStays(c + 1, i, IsChallenge(os, j));
    assert IsChallenge(os, j)(c);
    hide BindingFrom, AsciiText;
    ForwardedIffJustified(env, steps, i, j, true);
    RaisedIffIncomparable(env, steps, i, j);
  }

  // ----- revocation and missing fingerprints -----

  /** The request got as far as being forwarded, challenged or compared for the token. */
  predicate Served(o: Outcome, j: PyStr) {
    (o.Forwarded? && o.jti == j) || (o.Challenged? && o.jti == j) || o == Raised(NonceNotAscii(j))
  }

  /** After a revocation, no request is served for the token until it is bound again. */
  lemma {:induction false} RevocationCloses(env: Env, steps: seq<Step>, r: nat, i: nat, j: PyStr)
    requires Clocked(steps) && r < i < |steps| && Run(env, steps).outcomes[r] == Revoked(j)
    requires forall k | r < k < i :: Run(env, steps).outcomes[k] != Bound(j)
    ensures !Served(Run(env, steps).outcomes[i], j)
  {
    hide Run, Before, Next, UsedBefore, ProofValid, Dpop.Thumbprint, Presents, StashFrom, IsIssuance, Risk, Bindable;
    var os := Run(env, steps).outcomes;
    var o := os[i];
    if o.Forwarded? && o.jti == j {
      ForwardedIffJustified(env, steps, i, j, o.steppedUp);
    } else if o.Challenged? && o.jti == j {
      ChallengedIffJustified(env, steps, i, j, o.nonce);
    } else if o == Raised(NonceNotAscii(j)) {
      RaisedIffIncomparable(env, steps, i, j);
    }
    RevokedStays(env, steps, os, r, i, j, steps[i].now);
  }

  lemma {:induction false} RevokedStays(env: Env, steps: seq<Step>, os: seq<Outcome>, r: nat, i: nat, j: PyStr, now: int)
    requires r < i <= |steps| == |os| && os[r] == Revoked(j) && forall k | r < k < i :: os[k] != Bound(j)
    ensures var b := BindingFrom(env, steps, os, i, j, now); b.Some? ==> b.value.revoked
  {
    hide StashFrom, IsIssuance, Bindable;
    assert RevokedIn(os, Last(i, IsBind(os, j)), i, j);
  }

  /** When the backend never repeats a jti, revocation is for good. */
  lemma {:induction false} RevocationIsFinal(env: Env, steps: seq<Step>, r: nat, i: nat, j: PyStr)
    requires Clocked(steps) && r < i < |steps| && Run(env, steps).outcomes[r] == Revoked(j)
    requires var os := Run(env, steps).outcomes; forall a, b | 0 <= a < b < |os| && os[a] == Bound(j) :: os[b] != Bound(j)
    ensures !Served(Run(env, steps).outcomes[i], j)
  {
    hide Run, Before, Next;
    var b := RevokedWasBound(env, steps, r, j);
    RevocationCloses(env, steps, r, i, j);
  }

  lemma {:induction false} RevokedWasBound(env: Env, steps: seq<Step>, r: nat, j: PyStr) returns (b: nat)
    requires r < |steps| && (Run(env, steps).outcomes[r] == Revoked(j))
    ensures b < r && Run(env, steps).outcomes[b] == Bound(j)
  {
    hide Run, Before, Next;
    OutcomeAt(env, steps, r);
    RevokesIff(env, Before(env, steps, r), steps[r], j);
    b := StoredWasBound(env, steps, r, j);
  }

  /** What a stored binding looks like. */
  predicate Complete(b: BindingRec) { b.jkt != [] && b.ja4 != [] && b.sourceIp != [] }

  /** Every stored binding came from a bind and carries a key, a JA4 and a source address. */
  lemma {:induction false} StoredWasBound(env: Env, steps: seq<Step>, i: nat, j: PyStr) returns (b: nat)
    requires i <= |steps| && j in Before(env, steps, i).bindings
    ensures b < i && Run(env, steps).outcomes[b] == Bound(j)
    ensures Complete(Before(env, steps, i).bindings[j]) && Before(env, steps, i).bindings[j].jti == j
  {
    hide Run, Before, Next;
    BeforeAny(env, steps);
    OutcomeAt(env, steps, i - 1);
    StoredEffect(env, Before(env, steps, i - 1), steps[i - 1], j);
    if Run(env, steps).outcomes[i - 1] == Bound(j) {
      b := i - 1;
    } else {
      b := StoredWasBound(env, steps, i - 1, j);
    }
  }

  /** A connection without a JA4 never gets a resource request served. */
  lemma {:induction false} NoFingerprintNoForward(env: Env, steps: seq<Step>, i: nat)
    requires Clocked(steps) && i < |steps| && steps[i].hook.Req?
    requires var p := Presents(steps, i, steps[i].hook.r.conn); p.None? || p.value == []
    ensures var o := Run(env, steps).outcomes[i];
            !o.Forwarded? && !o.Challenged? && (o.Raised? ==> !o.fault.NonceNotAscii?)
  {
    hide Run, Before, Next, UsedBefore, ProofValid, Dpop.Thumbprint, Presents, StashFrom, IsIssuance, Risk;
    var o := Run(env, steps).outcomes[i];
    if o.Forwarded? {
      ForwardedIffJustified(env, steps, i, o.jti, o.steppedUp);
    } else if o.Challenged? {
      ChallengedIffJustified(env, steps, i, o.jti, o.nonce);
    } else if o.Raised? && o.fault.NonceNotAscii? {
      RaisedIffIncomparable(env, steps, i, o.fault.jti);
    }
  }
}
