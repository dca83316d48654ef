/** The dashboard's counters read back from the audit file. */
module AuditReport {
  import opened PyText
  import opened Json
  import opened JsonRoundTrip
  import opened JsonFused
  import opened Hashing
  import opened Engine
  import opened Protocol
  import opened ProtocolBooks
  import opened AuditTrail
  import Ja4
  import A = AuditLog
  import T = AuditTamper
  import F = AuditFile

  predicate Typed(e: A.AuditEntry, t: string) { e.eventType == Text(t) }

  predicate SaysVerdict(e: A.AuditEntry) { Typed(e, "block") || Typed(e, "decision") }

  predicate SaysPass(e: A.AuditEntry) {
    Typed(e, "decision") && e.payload.Obj? && Py("outcome") in e.payload.members
    && e.payload.members[Py("outcome")] == Text("PASS")
  }

  /** An entry as read back from the file, for an event logged. */
  predicate ReadsBack(fl: FloatReader, l: Logged, e: A.AuditEntry) {
    e.eventType == Fused(fl, Text(EventType(l.event))) && e.payload == Fused(fl, Obj(Payload(l.event)))
  }

  /** The last field of a name is the one the dictionary keeps. */
  lemma {:induction false} FieldAt(fields: seq<(string, Json)>, i: nat)
    requires i < |fields| && forall j | i < j < |fields| :: fields[j].0 != fields[i].0
    ensures Py(fields[i].0) in FieldDict(fields) && FieldDict(fields)[Py(fields[i].0)] == fields[i].1
  {
    hide Py;
    var last := |fields| - 1;
    if i < last {
      FieldAt(fields[..last], i);
      if Py(fields[last].0) == Py(fields[i].0) { Ja4.PyInjective(fields[last].0, fields[i].0); }
    }
  }

  lemma {:induction false} OutcomeField(d: Decision, storyId: PyStr)
    ensures var m := Payload(DecisionEvent(d, storyId));
            Py("outcome") in m && m[Py("outcome")] == Text(if d.outcome.Pass? then "PASS" else "BLOCK")
  {
    hide FieldDict, ReasonText, Sophistication, SophisticationLabel, Py, Text;
    FieldAt(Fields(DecisionEvent(d, storyId)), 0);
  }

  lemma {:induction false} EventTypeAscii(e: Event)
    ensures Ascii(EventType(e))
  {}

  lemma {:induction false} PlainText(fl: FloatReader, s: string)
    requires Ascii(s)
    ensures Fused(fl, Text(s)) == Text(s)
  {
    AsciiPairFree(s);
    FusedIdentity(fl, Text(s));
  }

  lemma {:induction false} TypedIff(fl: FloatReader, l: Logged, e: A.AuditEntry, t: string)
    requires ReadsBack(fl, l, e)
    ensures Typed(e, t) <==> EventType(l.event) == t
  {
    hide EventType, Py, Ascii, Fused;
    EventTypeAscii(l.event);
    PlainText(fl, EventType(l.event));
    if Typed(e, t) { Ja4.PyInjective(EventType(l.event), t); }
  }

  lemma {:induction false} VerdictTexts()
    ensures Ascii("PASS") && Ascii("BLOCK") && Text("PASS") != Text("BLOCK")
  {
    assert |Py("PASS")| == 4 && |Py("BLOCK")| == 5;
  }

  /** The payload as read back: the same keys, each value read back. */
  lemma {:induction false} ReadPayload(fl: FloatReader, e: Event)
    ensures Fused(fl, Obj(Payload(e))) == Obj(map k | k in Payload(e) :: Fused(fl, Payload(e)[k]))
  {
    hide Payload, Fused, Dict, PairFree, AsciiText;
    PayloadOk(fl, e);
    forall k | k in Payload(e) ensures PairFree(k) {
      AsciiIsPairFree(k);
    }
    FusedObj(fl, Payload(e));
    PlainKeysFused(fl, Payload(e));
  }

  lemma {:induction false} PassIff(fl: FloatReader, l: Logged, e: A.AuditEntry)
    requires ReadsBack(fl, l, e)
    ensures SaysPass(e) <==> IsPass(l)
  {
    hide Payload, Py, Text, Ascii, Fused, PairFree, EventType;
    TypedIff(fl, l, e, "decision");
    VerdictTypes(l.event);
    if l.event.DecisionEvent? {
      ReadPayload(fl, l.event);
      OutcomeField(l.event.decision, l.event.storyId);
      VerdictTexts();
      PlainText(fl, "PASS");
      PlainText(fl, "BLOCK");
    }
  }

  lemma {:induction false} VerdictTypes(e: Event)
    ensures (EventType(e) == "block" <==> e.BlockEvent?) && (EventType(e) == "decision" <==> e.DecisionEvent?)
  {}

  lemma {:induction false} OtherTypes(e: Event)
    ensures EventType(e) == "rate_limited" <==> e.RateLimitedEvent?
    ensures EventType(e) == "challenge_issued" <==> e.ChallengeIssuedEvent?
  {}

  /** What an entry read back says of its event. */
  lemma {:induction false} EntryTells(fl: FloatReader, l: Logged, e: A.AuditEntry)
    requires ReadsBack(fl, l, e)
    ensures (SaysVerdict(e) <==> IsVerdict(l)) && (SaysPass(e) <==> IsPass(l))
    ensures (Typed(e, "rate_limited") <==> l.event.RateLimitedEvent?)
            && (Typed(e, "challenge_issued") <==> l.event.ChallengeIssuedEvent?)
  {
    hide Typed, ReadsBack, SaysPass, IsPass, EventType;
    PassIff(fl, l, e);
    TypedIff(fl, l, e, "block");
    TypedIff(fl, l, e, "decision");
    TypedIff(fl, l, e, "rate_limited");
    TypedIff(fl, l, e, "challenge_issued");
    VerdictTypes(l.event);
    OtherTypes(l.event);
  }

  lemma {:induction false} CountSame<S, U>(xs: seq<S>, p: S -> bool, ys: seq<U>, q: U -> bool)
    requires |xs| == |ys| && forall i | 0 <= i < |xs| :: p(xs[i]) <==> q(ys[i])
    ensures Count(xs, p) == Count(ys, q)
  {
    if xs != [] { CountSame(xs[..|xs| - 1], p, ys[..|ys| - 1], q); }
  }

  /** Whoever reads the audit file of a run can recount the dashboard. */
  lemma {:induction false} CountersFromFile(fl: FloatReader, env: Env, steps: seq<Step>, h: HashFn)
    ensures var s := Run(env, steps).state;
            var loaded := F.EntriesOf(fl, F.Lines(A.FileText(A.Chain(h, RecordsFor(s.log)))));
            && s.dash.total == Count(loaded, SaysVerdict)
            && s.dash.passed == Count(loaded, SaysPass)
            && s.dash.rateLimited == Count(loaded, (e: A.AuditEntry) => Typed(e, "rate_limited"))
            && s.dash.challengesIssued == Count(loaded, (e: A.AuditEntry) => Typed(e, "challenge_issued"))
  {
    hide Run, A.Chain, A.FileText, F.Lines, F.EntriesOf, RecordsFor, RecordFor;
    var log := Run(env, steps).state.log;
    var loaded := F.EntriesOf(fl, F.Lines(A.FileText(A.Chain(h, RecordsFor(log)))));
    EveryRunAudits(fl, env, steps, h);
    RecordsOk(fl, log);
    A.ChainIntact(h, RecordsFor(log));
    hide A.Intact, F.Readable, T.SameLog, F.FusedEntry;
    forall i | 0 <= i < |log| ensures ReadsBack(fl, log[i], loaded[i]) {
      LoadedReadsBack(fl, log[i], A.Chain(h, RecordsFor(log))[i]);
    }
    Recount(fl, log, loaded);
    DashboardAgrees(env, steps);
  }

  lemma {:induction false} LoadedReadsBack(fl: FloatReader, l: Logged, e: A.AuditEntry)
    requires A.RecordOf(e) == RecordFor(l)
    ensures ReadsBack(fl, l, F.FusedEntry(fl, e))
  {
    hide Payload, Py, EventType, Fused;
  }

  lemma {:induction false} Recount(fl: FloatReader, log: seq<Logged>, loaded: seq<A.AuditEntry>)
    requires |log| == |loaded| && forall i | 0 <= i < |log| :: ReadsBack(fl, log[i], loaded[i])
    ensures var d := DashOf(log);
            && d.total == Count(loaded, SaysVerdict)
            && d.passed == Count(loaded, SaysPass)
            && d.rateLimited == Count(loaded, (e: A.AuditEntry) => Typed(e, "rate_limited"))
            && d.challengesIssued == Count(loaded, (e: A.AuditEntry) => Typed(e, "challenge_issued"))
  {
    hide Count, ReadsBack, SaysVerdict, SaysPass, Typed, IsVerdict, IsPass, LastOf;
    forall i | 0 <= i < |log|
      ensures (SaysVerdict(loaded[i]) <==> IsVerdict(log[i])) && (SaysPass(loaded[i]) <==> IsPass(log[i]))
      ensures (Typed(loaded[i], "rate_limited") <==> log[i].event.RateLimitedEvent?)
              && (Typed(loaded[i], "challenge_issued") <==> log[i].event.ChallengeIssuedEvent?)
    {
      EntryTells(fl, log[i], loaded[i]);
    }
    CountSame(log, IsVerdict, loaded, SaysVerdict);
    CountSame(log, IsPass, loaded, SaysPass);
    CountSame(log, (l: Logged) => l.event.RateLimitedEvent?, loaded, (e: A.AuditEntry) => Typed(e, "rate_limited"));
    CountSame(log, (l: Logged) => l.event.ChallengeIssuedEvent?, loaded, (e: A.AuditEntry) => Typed(e, "challenge_issued"));
  }
}
