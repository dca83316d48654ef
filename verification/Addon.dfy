/**
 * The addon object (proxy/addon.py): its hooks over its own stores, each doing to them exactly what the
 * state machine of Protocol says.
 */
module Addon {
  import opened PyText
  import opened Json
  import opened Hashing
  import opened Policy
  import opened Engine
  import opened Protocol
  import opened Stores
  import opened AuditTrail
  import Dpop
  import RateLimiter
  import Ja4
  import Ja4Diff
  import Ja4Registry
  import AuditLog

  class SentinelAddon {
    const env: Env
    const ja4Hash: StrHash
    var ja4ByConnection: map<ConnId, Option<PyStr>>
    var metadata: map<FlowId, Stash>
    const bindings: InMemoryBindingStore
    const dashboard: Dashboard
    const ja4Registry: Ja4Registry.Ja4Registry
    const issuanceRateLimiter: RateLimiter.SlidingWindowRateLimiter
    const challenges: ChallengeStore
    const auditLog: AuditLog.AuditLog
    ghost var logged: seq<Logged>

    /** The stores are sound, and the audit log holds exactly the events noted so far. */
    ghost predicate Valid()
      reads this, bindings, ja4Registry, auditLog
    {
      && bindings.Valid() && ja4Registry.Valid() && auditLog.Valid()
      && (forall c <- ja4Registry.records :: Ja4Diff.OwnString(ja4Hash, c))
      && auditLog.records == RecordsFor(logged)
      && issuanceRateLimiter.maxAttempts == RATE_LIMIT_MAX_ATTEMPTS
      && issuanceRateLimiter.windowSeconds == RATE_LIMIT_WINDOW
      && challenges.ttlSeconds == CHALLENGE_TTL
    }

    /** The stores by value. */
    ghost function View(): State
      reads this, bindings, bindings.bindings.Values, dashboard, issuanceRateLimiter, challenges
    {
      State(ja4ByConnection, bindings.Contents(), bindings.dpopJtiSeen, issuanceRateLimiter.attempts,
            challenges.challenges, metadata, logged, dashboard.Value())
    }

    constructor (env: Env, ja4Hash: StrHash, auditHash: HashFn)
      ensures Valid() && View() == INIT
      ensures this.env == env && this.ja4Hash == ja4Hash && auditLog.hash == auditHash
    {
      this.env, this.ja4Hash := env, ja4Hash;
      ja4ByConnection, metadata, logged := map[], map[], [];
      bindings := new InMemoryBindingStore();
      dashboard := new Dashboard();
      ja4Registry := new Ja4Registry.Ja4Registry();
      issuanceRateLimiter := new RateLimiter.SlidingWindowRateLimiter(RATE_LIMIT_MAX_ATTEMPTS, RATE_LIMIT_WINDOW);
      challenges := new ChallengeStore(CHALLENGE_TTL);
      auditLog := new AuditLog.AuditLog(auditHash, true);
    }

    /** Appends one event to the audit log. */
    method Note(now: int, e: Event)
      requires Valid()
      modifies this`logged, auditLog
      ensures Valid() && View() == Noted(old(View()), now, e)
    {
      hide RecordFor, RecordsFor, Payload, Ja4Diff.OwnString;
      RecordsMore(logged, Logged(now, e));
      assert RecordFor(Logged(now, e)) == AuditLog.Record(Stamp(Logged(now, e)), Str(Py(EventType(e))), Obj(Payload(e))) by { RecordForIs(now, e); }
      var _ := auditLog.Append(Py(EventType(e)), Payload(e), Stamp(Logged(now, e)));
      logged := logged + [Logged(now, e)];
    }

    /** Remembers the fields behind a fingerprint. */
    method Register(hello: Ja4.ClientHello) returns (ja4: PyStr)
      requires Valid()
      modifies ja4Registry
      ensures Valid() && View() == old(View()) && ja4 == Ja4.Components(ja4Hash, hello).ja4
      ensures ja4Registry.records == old(ja4Registry.records) + [Ja4.Components(ja4Hash, hello)]
    {
      hide RecordsFor, Ja4Diff.OwnString, Ja4.Components;
      var components := Ja4.Components(ja4Hash, hello);
      Ja4Diff.ComponentsOwnString(ja4Hash, hello);
      ja4Registry.Record(components);
      ja4 := components.ja4;
    }

    /** `hello` is absent when the ClientHello does not parse: the connection then presents nothing. */
    method TlsClientHello(conn: ConnId, hello: Option<Ja4.ClientHello>, now: int)
      requires Valid()
      modifies this`ja4ByConnection, ja4Registry
      ensures Valid()
      ensures var ja4 := if hello.Some? then Some(Ja4.Components(ja4Hash, hello.value).ja4) else None;
              View() == Next(env, old(View()), Step(now, Hello(conn, ja4))).0
    {
      hide Valid, View, Next, Ja4.Components;
      var ja4 := None;
      if hello.Some? {
        var text := Register(hello.value);
        ja4 := Some(text);
      }
      Present(conn, ja4, now);
    }

    method Present(conn: ConnId, ja4: Option<PyStr>, now: int)
      requires Valid()
      modifies this`ja4ByConnection
      ensures Valid() && View() == Next(env, old(View()), Step(now, Hello(conn, ja4))).0
    {
      hide RecordsFor, Ja4Diff.OwnString, Protocol.RequestStep, ResponseStep;
      ja4ByConnection := ja4ByConnection[conn := ja4];
    }

    method BlockRequest(now: int, r: Request, presentedJa4: Option<PyStr>, reason: Reason) returns (o: Outcome)
      requires Valid() && presentedJa4 == PresentedJa4(View(), r.conn)
      modifies this`logged, dashboard, auditLog
      ensures Valid() && (View(), o) == BlockStep(old(View()), now, r, reason)
    {
      hide RecordsFor, Ja4Diff.OwnString, WithRow;
      dashboard.RecordRawBlock(now, r.sourceIp, presentedJa4, reason, r.tokenJti);
      Note(now, BlockEvent(r.sourceIp, presentedJa4, reason, r.tokenJti));
      o := Blocked(reason);
    }

    method HandleRevoke(body: RevokeBody, at: Json, now: int) returns (o: Outcome)
      requires Valid()
      modifies this`logged, bindings.bindings.Values, auditLog
      ensures Valid() && (View(), o) == RevokeStep(old(View()), now, body, at)
    {
      hide RecordsFor, Ja4Diff.OwnString;
      if body.NotAnObject? {
        return Raised(BodyNotAnObject);
      }
      var jti := if body.Unparsable? then None else body.jti;
      if jti.None? || jti.value == [] {
        return RevokeRefused;
      }
      var found := bindings.Revoke(jti.value);
      if !found {
        return RevokeUnknown;
      }
      Note(now, RevocationEvent(jti.value, at));
      o := Revoked(jti.value);
    }

    // ----- the steps of the request hook, store by store -----

    method Admit(key: PyStr, now: int) returns (rate: RateLimiter.RateLimitResult)
      requires Valid()
      modifies issuanceRateLimiter
      ensures Valid()
      ensures rate == RateLimiter.Verdict(old(View()).windows, RATE_LIMIT_MAX_ATTEMPTS, RATE_LIMIT_WINDOW, key, now)
      ensures View() == old(View()).(windows := RateLimiter.Recorded(old(View()).windows, RATE_LIMIT_WINDOW, key, now))
    {
      hide RecordsFor, Ja4Diff.OwnString, RateLimiter.Verdict, RateLimiter.Recorded;
      rate := issuanceRateLimiter.CheckAndRecord(key, now);
    }

    method Throttle(key: PyStr, attempts: int, now: int)
      requires Valid()
      modifies this`logged, dashboard, auditLog
      ensures Valid()
      ensures var s := old(View());
              View() == Noted(s.(dash := s.dash.(rateLimited := s.dash.rateLimited + 1)), now, RateLimitedEvent(key, attempts))
    {
      hide RecordsFor, Ja4Diff.OwnString;
      dashboard.RecordRateLimited();
      Note(now, RateLimitedEvent(key, attempts));
    }

    method MarkProof(proofJti: PyStr) returns (isFresh: bool)
      requires Valid()
      modifies bindings
      ensures Valid() && isFresh == (proofJti !in old(View()).seen)
      ensures View() == old(View()).(seen := old(View()).seen + {proofJti})
    {
      hide RecordsFor, Ja4Diff.OwnString;
      isFresh := bindings.CheckAndMarkDpopJti(proofJti);
    }

    method Remember(flow: FlowId, st: Stash)
      requires Valid()
      modifies this`metadata
      ensures Valid() && View() == old(View()).(stash := old(View()).stash[flow := st])
    {
      hide RecordsFor, Ja4Diff.OwnString;
      metadata := metadata[flow := st];
    }

    method LookUp(jti: PyStr, now: int) returns (binding: Binding?)
      requires Valid()
      modifies bindings
      ensures Valid() && View() == old(View()).(bindings := AfterGet(old(View()).bindings, jti, now))
      ensures var was := Live(old(View()).bindings, jti, now);
              if binding == null then was.None? else was == Some(binding.Rec())
    {
      hide RecordsFor, Ja4Diff.OwnString;
      binding := bindings.Get(jti, now);
    }

    method VerifyNonce(jti: PyStr, presented: Option<PyStr>, now: int) returns (r: Consumed)
      requires Valid()
      modifies challenges
      ensures var s, shown := old(View()), if presented.Some? then presented.value else [];
              && Valid() && (r.RaisedTypeError? <==> NonceRaises(s.challenges, jti, shown, now))
              && (r == Returned(true) <==> NonceOk(s.challenges, jti, shown, now))
              && View() == s.(challenges := AfterVerify(s.challenges, jti, shown, now))
    {
      hide RecordsFor, Ja4Diff.OwnString, NonceOk, NonceRaises, AfterVerify;
      r := challenges.VerifyAndConsume(jti, presented, now);
    }

    method IssueNonce(jti: PyStr, nonce: PyStr, now: int)
      requires Valid()
      modifies challenges
      ensures Valid()
      ensures View() == old(View()).(challenges := old(View()).challenges[jti := Challenge(nonce, now)])
    {
      hide RecordsFor, Ja4Diff.OwnString;
      challenges.Issue(jti, nonce, now);
    }

    method CountChallenge()
      requires Valid()
      modifies dashboard
      ensures var s := old(View());
              Valid() && View() == s.(dash := s.dash.(challengesIssued := s.dash.challengesIssued + 1))
    {
      hide RecordsFor, Ja4Diff.OwnString;
      dashboard.RecordChallengeIssued();
    }

    method Hold(now: int, d: Decision, jti: PyStr, nonce: PyStr) returns (o: Outcome)
      requires Valid()
      modifies this`logged, dashboard, challenges, auditLog
      ensures Valid() && (View(), o) == ChallengeStep(old(View()), now, d, jti, nonce)
    {
      hide Valid, View;
      IssueNonce(jti, nonce, now);
      CountChallenge();
      Note(now, ChallengeIssuedEvent(jti, d.riskScore));
      o := Challenged(jti, nonce);
    }

    method Conclude(now: int, d: Decision, jti: PyStr, steppedUp: bool) returns (o: Outcome)
      requires Valid()
      modifies this`logged, dashboard, auditLog
      ensures Valid() && (View(), o) == DecidedStep(old(View()), now, d, jti, steppedUp)
    {
      hide RecordsFor, Ja4Diff.OwnString, WithRow;
      dashboard.RecordDecision(d, jti);
      Note(now, DecisionEvent(d, jti));
      o := if d.outcome.Pass? then Forwarded(jti, steppedUp) else Blocked(d.reason);
    }

    // ----- the request hook -----

    method Judge(now: int, d: Decision, jti: PyStr, presentedNonce: Option<PyStr>, nonce: PyStr) returns (o: Outcome)
      requires Valid()
      modifies this`logged, dashboard, challenges, auditLog
      ensures Valid() && (View(), o) == JudgedStep(env, old(View()), now, d, jti, presentedNonce, nonce)
    {
      hide Valid, View, Noted, DecidedStep, ChallengeStep, NonceOk, NonceRaises, AfterVerify;
      if d.outcome.Pass? && env.policy.challengeThreshold <= d.riskScore < env.policy.riskThreshold {
        var r := VerifyNonce(jti, presentedNonce, now);
        if r.RaisedTypeError? {
          o := Raised(NonceNotAscii(jti));
        } else if r.ok {
          Note(now, ChallengePassedEvent(jti));
          o := Conclude(now, d, jti, true);
        } else {
          o := Hold(now, d, jti, nonce);
        }
      } else {
        o := Conclude(now, d, jti, false);
      }
    }

    /** The part of `request` behind the token route; `diff` is what the dashboard shows for a JA4 mismatch. */
    method Resource(now: int, r: Request, presentedJa4: Option<PyStr>, dpop: Dpop.DpopResult, nonce: PyStr)
      returns (o: Outcome, diff: Option<Ja4Diff.Diff>)
      requires Valid() && presentedJa4 == PresentedJa4(View(), r.conn) && r.proof.Some? && dpop.valid
      modifies this`logged, bindings, dashboard, challenges, auditLog
      ensures Valid() && (View(), o) == ResourceStep(env, old(View()), now, r, dpop, nonce)
      ensures diff.Some? ==> o == Blocked(Ja4Mismatch) && diff.value != map[]
    {
      hide View, BlockStep, JudgedStep, AfterGet, Live;
      diff := None;
      if r.tokenJti.None? || r.tokenJti.value == [] {
        o := BlockRequest(now, r, presentedJa4, NoBinding);
        return;
      }
      var jti := r.tokenJti.value;
      var binding := LookUp(jti, now);
      if binding == null {
        o := BlockRequest(now, r, presentedJa4, NoBinding);
        return;
      }
      var d := Evaluate(env.policy, binding.Rec(), presentedJa4, dpop, r.sourceIp, r.ja4h, now);
      if d.outcome.Block? && d.reason.Ja4Mismatch? {
        diff := MismatchDiff(d);
      }
      ghost var s := View();
      o := Judge(now, d, jti, r.proof.value.claims.nonce, nonce);
      BlockAnswers(env, s, now, d, jti, r.proof.value.claims.nonce, nonce);
    }

    /** The field-by-field diff of the bound and the presented fingerprint, while the registry has both. */
    method MismatchDiff(d: Decision) returns (diff: Option<Ja4Diff.Diff>)
      requires Valid() && d.presentedJa4 != Some(d.boundJa4)
      ensures diff.Some? <==> d.presentedJa4.Some? && Ja4Registry.Held(ja4Registry.records, d.presentedJa4.value)
                              && Ja4Registry.Held(ja4Registry.records, d.boundJa4)
      ensures diff.Some? ==> diff.value != map[]
    {
      hide RecordsFor, Ja4Diff.OwnString;
      diff := Ja4Registry.MismatchDiff(ja4Hash, ja4Registry, d.presentedJa4, d.boundJa4);
    }

    /** The part of `request` from the proof on. */
    method Prove(now: int, r: Request, presentedJa4: Option<PyStr>, nonce: PyStr)
      returns (o: Outcome, diff: Option<Ja4Diff.Diff>)
      requires Valid() && presentedJa4 == PresentedJa4(View(), r.conn)
      modifies this`logged, this`metadata, bindings, dashboard, challenges, auditLog
      ensures Valid() && (View(), o) == ProvenStep(env, old(View()), now, r, nonce)
      ensures diff.Some? ==> o == Blocked(Ja4Mismatch) && diff.value != map[]
    {
      hide Valid, View, BlockStep, ResourceStep, Dpop.ValidateDpop, Dpop.Genuine, Dpop.FreshAt, Dpop.Thumbprint;
      diff := None;
      if r.proof.None? {
        o := BlockRequest(now, r, presentedJa4, MissingProof);
        return;
      }
      var dpop := Dpop.ValidateDpop(env.thumb, r.proof.value, r.httpMethod, r.url, now);
      Dpop.ValidIff(env.thumb, r.proof.value, r.httpMethod, r.url, now);
      if !dpop.valid {
        o := BlockRequest(now, r, presentedJa4, ProofInvalid(dpop.reason));
        return;
      }
      ghost var s := View();
      var isFresh := MarkProof(dpop.jti.value);
      if !isFresh {
        assert s.seen + {dpop.jti.value} == s.seen;
        o := BlockRequest(now, r, presentedJa4, ProofReplayed);
        return;
      }
      if r.route.TokenRoute? {
        Remember(r.flow, Stash(dpop.jkt.value, presentedJa4, r.ja4h, r.sourceIp));
        o := IssuanceForwarded;
        return;
      }
      o, diff := Resource(now, r, presentedJa4, dpop, nonce);
    }

    /** The request hook does what the state machine says, and keeps the audit log in step. */
    method Request(r: Protocol.Request, nonce: PyStr, now: int) returns (o: Outcome, diff: Option<Ja4Diff.Diff>)
      requires Valid()
      modifies this, bindings, bindings.bindings.Values, dashboard, issuanceRateLimiter, challenges, auditLog
      ensures Valid() && (View(), o) == Next(env, old(View()), Step(now, Req(r, nonce)))
      ensures diff.Some? ==> o == Blocked(Ja4Mismatch) && diff.value != map[]
    {
      hide Valid, RevokeStep, ProvenStep, RateLimiter.Recorded, RateLimiter.Verdict, Noted, LimiterKey;
      diff := None;
      if r.route.RevokeRoute? {
        o := HandleRevoke(r.revokeBody, r.revokedAt, now);
        return;
      }
      if r.tokenRaises {
        o := Raised(TokenUnreadable);
        return;
      }
      var presentedJa4 := if r.conn in ja4ByConnection then ja4ByConnection[r.conn] else None;
      assert presentedJa4 == PresentedJa4(View(), r.conn);
      hide View;
      if r.route.TokenRoute? {
        var key := LimiterKey(presentedJa4);
        var rate := Admit(key, now);
        if !rate.allowed {
          Throttle(key, rate.attemptsInWindow, now);
          o := RateLimited;
          return;
        }
      }
      o, diff := Prove(now, r, presentedJa4, nonce);
    }

    // ----- the response hook -----

    method BindToken(jti: PyStr, st: Stash, now: int)
      requires Valid() && Bindable(st)
      modifies bindings
      ensures Valid()
      ensures var s, b := old(View()), BindingRec(jti, st.jkt, st.ja4.value, st.sourceIp, now, st.ja4h, false);
              View() == s.(bindings := s.bindings[jti := b])
    {
      hide RecordsFor, Ja4Diff.OwnString;
      bindings.Bind(jti, st.jkt, st.ja4.value, st.sourceIp, now, st.ja4h);
    }

    method ShowIssuance(i: Issued)
      requires Valid()
      modifies dashboard
      ensures Valid()
      ensures var s := old(View()); View() == s.(dash := s.dash.(issuances := Push(s.dash.issuances, i)))
    {
      hide RecordsFor, Ja4Diff.OwnString, Push;
      dashboard.RecordIssuance(i.ts, i.jti, i.jkt, i.ja4, i.sourceIp);
    }

    method Response(flow: FlowId, route: Route, status: int, jti: Option<PyStr>, now: int) returns (o: Outcome)
      requires Valid()
      modifies this`logged, bindings, dashboard, auditLog
      ensures Valid() && (View(), o) == Next(env, old(View()), Step(now, Resp(flow, route, status, jti)))
    {
      hide Valid, Push, Noted;
      if !route.TokenRoute? || status != 200 || jti.None? || flow !in metadata {
        return Quiet;
      }
      var st := metadata[flow];
      if !Bindable(st) {
        return Quiet;
      }
      assert st == View().stash[flow];
      hide View;
      BindToken(jti.value, st, now);
      ShowIssuance(Issued(now, jti.value, st.jkt, st.ja4.value, st.sourceIp));
      Note(now, IssuanceEvent(jti.value, st.jkt, st.ja4.value, st.sourceIp));
      o := Bound(jti.value);
    }
  }

  /** A blocked decision is answered as such. */
  lemma {:induction false} BlockAnswers(env: Env, s: State, now: int, d: Decision, jti: PyStr,
                                        presented: Option<PyStr>, nonce: PyStr)
    ensures d.outcome.Block? ==> JudgedStep(env, s, now, d, jti, presented, nonce).1 == Blocked(d.reason)
  {
    hide NonceOk, AfterVerify;
  }

  lemma {:induction false} RecordForIs(now: int, e: Event)
    ensures RecordFor(Logged(now, e)) == AuditLog.Record(Stamp(Logged(now, e)), Str(Py(EventType(e))), Obj(Payload(e)))
  {}
}
