/** The limiter inside the protocol: which token requests of a run are throttled (proxy/addon.py). */
module ProtocolLimits {
  import opened PyText
  import opened Json
  import opened Protocol
  import opened ProtocolSteps
  import opened ProtocolHistory
  import opened ProtocolBooks
  import Dpop
  import RL = RateLimiter

  // ----- whom the limiter takes for one client -----

  /** A connection without a JA4, or with one that reads like none. */
  predicate Nameless(ja4: Option<PyStr>) { ja4.None? || ja4.value == [] || ja4.value == Py("unknown") }

  predicate SameClient(a: Option<PyStr>, b: Option<PyStr>) { a == b || (Nameless(a) && Nameless(b)) }

  /** The limiter's keys keep exactly those clients apart. */
  lemma {:induction false} KeysIff(a: Option<PyStr>, b: Option<PyStr>)
    ensures LimiterKey(a) == LimiterKey(b) <==> SameClient(a, b)
  {}

  // ----- the limiter's state is the run's token requests -----

  /** A token request that reaches the limiter. */
  predicate Metered(step: Step) { step.hook.Req? && step.hook.r.route.TokenRoute? && !step.hook.r.tokenRaises }

  /** The token requests before step i, as the limiter sees them. */
  function AttemptsOf(steps: seq<Step>, i: nat): seq<RL.Attempt>
    requires i <= |steps|
  {
    if i == 0 then []
    else
      var before, step := AttemptsOf(steps, i - 1), steps[i - 1];
      if Metered(step)
      then before + [RL.Attempt(LimiterKey(Presents(steps, i - 1, step.hook.r.conn)), step.now)]
      else before
  }

  lemma {:induction false} WindowsEffect(env: Env, s: State, step: Step)
    ensures var (s', o) := Next(env, s, step);
            if Metered(step) then
              var key := LimiterKey(PresentedJa4(s, step.hook.r.conn));
              && s'.windows == RL.Recorded(s.windows, RATE_LIMIT_WINDOW, key, step.now)
              && (o.RateLimited? <==>
                  !RL.Verdict(s.windows, RATE_LIMIT_MAX_ATTEMPTS, RATE_LIMIT_WINDOW, key, step.now).allowed)
            else s'.windows == s.windows && !o.RateLimited?
  {
    hide RL.Recorded, RL.Verdict, LimiterKey, ProvenStep, Live, Open, NonceOk, Dpop.ValidateDpop, Dpop.Thumbprint;
    if step.hook.Req? {
      var r := step.hook.r;
      ProvenEffect(env, s, step.now, r, step.hook.nonce, []);
      ProvenTallied(env, s, step.now, r, step.hook.nonce);
      var key := LimiterKey(PresentedJa4(s, r.conn));
      var w := RL.Recorded(s.windows, RATE_LIMIT_WINDOW, key, step.now);
      ProvenEffect(env, s.(windows := w), step.now, r, step.hook.nonce, []);
      ProvenTallied(env, s.(windows := w), step.now, r, step.hook.nonce);
    }
  }

  lemma {:induction false} WindowsHistory(env: Env, steps: seq<Step>, i: nat)
    requires i <= |steps|
    ensures Before(env, steps, i).windows == RL.Replay(RATE_LIMIT_WINDOW, AttemptsOf(steps, i))
  {
    hide Run, Before, Next, RL.Recorded, RL.Replay, LimiterKey, Presents;
    if i == 0 {
      BeforeAny(env, steps);
      RL.ReplayNone(RATE_LIMIT_WINDOW);
    } else {
      WindowsHistory(env, steps, i - 1);
      OutcomeAt(env, steps, i - 1);
      WindowsEffect(env, Before(env, steps, i - 1), steps[i - 1]);
      if steps[i - 1].hook.Req? {
        Ja4History(env, steps, i - 1, steps[i - 1].hook.r.conn);
        RL.OneMore(RATE_LIMIT_WINDOW, AttemptsOf(steps, i - 1),
                   RL.Attempt(LimiterKey(Presents(steps, i - 1, steps[i - 1].hook.r.conn)), steps[i - 1].now));
      }
    }
  }

  lemma {:induction false} AttemptsClocked(steps: seq<Step>, i: nat)
    requires Clocked(steps) && i <= |steps|
    ensures RL.Clocked(AttemptsOf(steps, i))
    ensures forall k | 0 <= k < |AttemptsOf(steps, i)| :: i > 0 && AttemptsOf(steps, i)[k].time <= steps[i - 1].now
  {
    if i > 0 {
      AttemptsClocked(steps, i - 1);
      hide LimiterKey, Presents;
      if i > 1 { assert steps[i - 2].now <= steps[i - 1].now; }
    }
  }

  /** A metered request is rate-limited exactly when the limiter does not allow it after those before it. */
  lemma {:induction false} LimitedIff(env: Env, steps: seq<Step>, i: nat)
    requires i < |steps| && Metered(steps[i])
    ensures var a := RL.Attempt(LimiterKey(Presents(steps, i, steps[i].hook.r.conn)), steps[i].now);
            Run(env, steps).outcomes[i].RateLimited?
            <==> !RL.Allows(RATE_LIMIT_MAX_ATTEMPTS, RATE_LIMIT_WINDOW, AttemptsOf(steps, i), a)
  {
    hide Run, Before, Next, LimiterKey, Presents, PresentedJa4, RL.Replay, RL.Verdict, RL.Recorded, AttemptsOf;
    OutcomeAt(env, steps, i);
    WindowsHistory(env, steps, i);
    WindowsEffect(env, Before(env, steps, i), steps[i]);
    Ja4History(env, steps, i, steps[i].hook.r.conn);
  }

  // ----- what is throttled, by the run alone -----

  /** Whom a request comes from. */
  function Client(steps: seq<Step>, k: nat): Option<PyStr>
    requires k < |steps| && steps[k].hook.Req?
  {
    Presents(steps, k, steps[k].hook.r.conn)
  }

  /** The metered requests of a client before step n that were made at or after the given time. */
  function Recent(steps: seq<Step>, n: nat, who: Option<PyStr>, since: int): nat
    requires n <= |steps|
  {
    if n == 0 then 0
    else
      Recent(steps, n - 1, who, since)
      + if Metered(steps[n - 1]) && SameClient(Client(steps, n - 1), who) && steps[n - 1].now >= since then 1 else 0
  }

  lemma {:induction false} RecentAttempts(steps: seq<Step>, n: nat, who: Option<PyStr>, since: int)
    requires n <= |steps|
    ensures |RL.Since(RL.TimesOf(AttemptsOf(steps, n), LimiterKey(who)), since)| == Recent(steps, n, who, since)
  {
    hide LimiterKey, SameClient, Presents, RL.TimesOf, RL.Since;
    if n == 0 {
      RL.NothingYet(30, LimiterKey(who), since);
    } else {
      RecentAttempts(steps, n - 1, who, since);
      if Metered(steps[n - 1]) {
        var hist, a := AttemptsOf(steps, n - 1), RL.Attempt(LimiterKey(Client(steps, n - 1)), steps[n - 1].now);
        KeysIff(Client(steps, n - 1), who);
        OneMoreTime(hist, a, LimiterKey(who));
        RL.SinceConcat(RL.TimesOf(hist, LimiterKey(who)), a.time, since);
      }
    }
  }

  lemma {:induction false} OneMoreTime(hist: seq<RL.Attempt>, a: RL.Attempt, key: PyStr)
    ensures RL.TimesOf(hist + [a], key) == if a.key == key then RL.TimesOf(hist, key) + [a.time] else RL.TimesOf(hist, key)
  {
    assert (hist + [a])[..|hist|] == hist;
  }

  lemma {:induction false} AttemptsBefore(steps: seq<Step>, i: nat, key: PyStr)
    requires Clocked(steps) && i < |steps|
    ensures RL.Clocked(AttemptsOf(steps, i) + [RL.Attempt(key, steps[i].now)])
  {
    hide AttemptsOf;
    AttemptsClocked(steps, i);
    if i > 0 { assert steps[i - 1].now <= steps[i].now; }
  }

  /**
   * A metered token request is rate-limited exactly when its client made at least five in the thirty
   * seconds before it.
   */
  lemma {:induction false} RateLimitedIff(env: Env, steps: seq<Step>, i: nat)
    requires Clocked(steps) && i < |steps| && Metered(steps[i])
    ensures Run(env, steps).outcomes[i].RateLimited? <==> Recent(steps, i, Client(steps, i), steps[i].now - 30) >= 5
  {
    hide Run, Recent, AttemptsOf, LimiterKey, Presents, RL.Since, RL.TimesOf;
    var a := RL.Attempt(LimiterKey(Client(steps, i)), steps[i].now);
    LimitedIff(env, steps, i);
    AttemptsBefore(steps, i, a.key);
    RL.AllowsIff(5, 30, AttemptsOf(steps, i), a);
    RecentAttempts(steps, i, Client(steps, i), steps[i].now - 30);
  }

  /** No other step is. */
  lemma {:induction false} OthersNeverLimited(env: Env, steps: seq<Step>, i: nat)
    requires i < |steps| && !Metered(steps[i])
    ensures !Run(env, steps).outcomes[i].RateLimited?
  {
    hide Run, Before, Next;
    OutcomeAt(env, steps, i);
    WindowsEffect(env, Before(env, steps, i), steps[i]);
  }

  // ----- other clients do not matter -----

  function Without(steps: seq<Step>, k: nat): seq<Step>
    requires k < |steps|
  {
    steps[..k] + steps[k + 1..]
  }

  lemma {:induction false} PresentsWithout(steps: seq<Step>, k: nat, i: nat, conn: ConnId)
    requires k < |steps| && !steps[k].hook.Hello? && i < |steps|
    ensures Presents(Without(steps, k), i, conn) == Presents(steps, if i < k then i else i + 1, conn)
  {
    HelloWithout(steps, k, i, conn);
  }

  /** The last ClientHello stays the same when another step is left out. */
  lemma {:induction false} HelloWithout(steps: seq<Step>, k: nat, i: nat, conn: ConnId)
    requires k < |steps| && !steps[k].hook.Hello? && i < |steps|
    ensures var rest := Without(steps, k);
            var h, g := Last(i, IsHello(rest, conn)), Last(if i < k then i else i + 1, IsHello(steps, conn));
            (h < 0 <==> g < 0) && (h >= 0 ==> rest[h] == steps[g])
  {
    hide Last, IsHello;
    var rest, p, q := Without(steps, k), IsHello(Without(steps, k), conn), IsHello(steps, conn);
    HelloAt(rest, steps, conn);
    if i == 0 {
      LastNone(p);
      LastNone(q);
      if k == 0 { LastStep(0, q); }
    } else {
      HelloWithout(steps, k, i - 1, conn);
      var m := if i - 1 < k then i - 1 else i;
      assert rest[i - 1] == steps[m];
      LastStep(i - 1, p);
      LastStep(m, q);
      if i == k { LastStep(k, q); }
    }
  }

  lemma {:induction false} HelloAt(rest: seq<Step>, steps: seq<Step>, conn: ConnId)
    ensures forall m: nat | m < |steps| :: IsHello(steps, conn)(m) <==> steps[m].hook.Hello? && steps[m].hook.conn == conn
    ensures forall m: nat | m < |rest| :: IsHello(rest, conn)(m) <==> rest[m].hook.Hello? && rest[m].hook.conn == conn
  {}

  lemma {:induction false} LastNone(p: nat -> bool)
    ensures Last(0, p) == -1
  {}

  lemma {:induction false} LastStep(n: nat, p: nat -> bool)
    ensures Last(n + 1, p) == if p(n) then n else Last(n, p)
  {}

  lemma {:induction false} RecentWithout(steps: seq<Step>, k: nat, n: nat, who: Option<PyStr>, since: int)
    requires k < n <= |steps| && Metered(steps[k]) && !SameClient(Client(steps, k), who)
    ensures Recent(Without(steps, k), n - 1, who, since) == Recent(steps, n, who, since)
  {
    hide SameClient, Presents;
    if n - 1 == k {
      RecentBefore(steps, k, k, who, since);
    } else {
      RecentWithout(steps, k, n - 1, who, since);
      if Metered(steps[n - 1]) { PresentsWithout(steps, k, n - 2, steps[n - 1].hook.r.conn); }
    }
  }

  lemma {:induction false} RecentBefore(steps: seq<Step>, k: nat, n: nat, who: Option<PyStr>, since: int)
    requires n <= k < |steps| && !steps[k].hook.Hello?
    ensures Recent(Without(steps, k), n, who, since) == Recent(steps, n, who, since)
  {
    hide SameClient, Presents;
    if n > 0 {
      RecentBefore(steps, k, n - 1, who, since);
      if Metered(steps[n - 1]) { PresentsWithout(steps, k, n - 1, steps[n - 1].hook.r.conn); }
    }
  }

  /** A token request of one client never changes whether another client's is rate-limited. */
  lemma {:induction false} OtherClientsDoNotMatter(env: Env, steps: seq<Step>, k: nat, i: nat)
    requires Clocked(steps) && k < i < |steps| && Metered(steps[k]) && Metered(steps[i])
    requires !SameClient(Client(steps, k), Client(steps, i))
    ensures Run(env, Without(steps, k)).outcomes[i - 1].RateLimited? <==> Run(env, steps).outcomes[i].RateLimited?
  {
    hide Run, Recent, Presents, SameClient;
    var rest := Without(steps, k);
    assert forall a, b | 0 <= a < b < |rest| :: rest[a].now <= rest[b].now;
    assert rest[i - 1] == steps[i];
    PresentsWithout(steps, k, i - 1, steps[i].hook.r.conn);
    RecentWithout(steps, k, i, Client(steps, i), steps[i].now - 30);
    RateLimitedIff(env, steps, i);
    RateLimitedIff(env, rest, i - 1);
  }

  // ----- the bound -----

  /** Token requests of a client that got past the limiter within [lo, lo + 30]. */
  function Admitted(steps: seq<Step>, os: seq<Outcome>, i: nat, who: Option<PyStr>, lo: int): nat
    requires i <= |steps| == |os|
  {
    if i == 0 then 0
    else
      Admitted(steps, os, i - 1, who, lo)
      + if Metered(steps[i - 1]) && !os[i - 1].RateLimited? && SameClient(Client(steps, i - 1), who)
           && lo <= steps[i - 1].now <= lo + 30
        then 1 else 0
  }

  lemma {:induction false} AdmittedAreAllowed(env: Env, steps: seq<Step>, i: nat, who: Option<PyStr>, lo: int)
    requires i <= |steps|
    ensures Admitted(steps, Run(env, steps).outcomes, i, who, lo)
            == RL.AllowedWithin(5, 30, AttemptsOf(steps, i), LimiterKey(who), lo, 30)
  {
    hide Run, LimiterKey, SameClient, Presents, RL.AllowedWithin, RL.Allows;
    if i == 0 {
      RL.AllowedNone(5, 30, LimiterKey(who), lo, 30);
    } else {
      AdmittedAreAllowed(env, steps, i - 1, who, lo);
      if Metered(steps[i - 1]) {
        var hist := AttemptsOf(steps, i - 1);
        var a := RL.Attempt(LimiterKey(Client(steps, i - 1)), steps[i - 1].now);
        KeysIff(Client(steps, i - 1), who);
        RL.AllowedMore(5, 30, hist, a, LimiterKey(who), lo, 30);
        LimitedIff(env, steps, i - 1);
      }
    }
  }

  /** In any run, no client gets more than five token requests past the limiter in any thirty seconds. */
  lemma {:induction false} IssuanceThrottled(env: Env, steps: seq<Step>, who: Option<PyStr>, lo: int)
    requires Clocked(steps)
    ensures Admitted(steps, Run(env, steps).outcomes, |steps|, who, lo) <= 5
  {
    hide Run, Admitted, AttemptsOf, RL.AllowedWithin;
    AdmittedAreAllowed(env, steps, |steps|, who, lo);
    AttemptsClocked(steps, |steps|);
    RL.IntervalBound(5, 30, AttemptsOf(steps, |steps|), LimiterKey(who), lo);
  }
}
