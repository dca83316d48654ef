/**
 * The proxy's stores as the objects they are: the binding cache and its shared Binding objects
 * (proxy/binding.py), the step-up challenges (proxy/challenge_store.py), the dashboard's counters and
 * bounded deques (proxy/dashboard.py).
 */
module Stores {
  import opened PyText
  import opened Json
  import opened Engine
  import opened Protocol

  class Binding {
    const jti: PyStr
    const jkt: PyStr
    const ja4: PyStr
    const sourceIp: PyStr
    const issuedAt: int
    const ja4h: Option<PyStr>
    var revoked: bool

    constructor (jti: PyStr, jkt: PyStr, ja4: PyStr, sourceIp: PyStr, issuedAt: int, ja4h: Option<PyStr>)
      ensures Rec() == BindingRec(jti, jkt, ja4, sourceIp, issuedAt, ja4h, false)
      ensures this.jti == jti && this.issuedAt == issuedAt
    {
      this.jti, this.jkt, this.ja4, this.sourceIp := jti, jkt, ja4, sourceIp;
      this.issuedAt, this.ja4h, this.revoked := issuedAt, ja4h, false;
    }

    function Rec(): BindingRec
      reads this
    {
      BindingRec(jti, jkt, ja4, sourceIp, issuedAt, ja4h, revoked)
    }
  }

  class InMemoryBindingStore {
    var bindings: map<PyStr, Binding>
    var dpopJtiSeen: set<PyStr>

    /** Each object is stored under its own jti, so no two keys share one. */
    ghost predicate Valid()
      reads this
    {
      forall j <- bindings :: bindings[j].jti == j
    }

    /** The bindings by value. */
    ghost function Contents(): map<PyStr, BindingRec>
      reads this, bindings.Values
    {
      map j | j in bindings :: bindings[j].Rec()
    }

    constructor ()
      ensures Valid() && bindings == map[] && Contents() == map[] && dpopJtiSeen == {}
    {
      bindings := map[];
      dpopJtiSeen := {};
    }

    method Bind(jti: PyStr, jkt: PyStr, ja4: PyStr, sourceIp: PyStr, issuedAt: int, ja4h: Option<PyStr>)
      requires Valid()
      modifies this`bindings
      ensures Valid()
      ensures jti in bindings && fresh(bindings[jti]) && bindings == old(bindings)[jti := bindings[jti]]
      ensures Contents() == old(Contents())[jti := BindingRec(jti, jkt, ja4, sourceIp, issuedAt, ja4h, false)]
    {
      var b := new Binding(jti, jkt, ja4, sourceIp, issuedAt, ja4h);
      bindings := bindings[jti := b];
    }

    /** Hands out the stored object itself: a later revocation shows through it. */
    method Get(jti: PyStr, now: int) returns (b: Binding?)
      requires Valid()
      modifies this`bindings
      ensures Valid()
      ensures b == null <==> Live(old(Contents()), jti, now).None?
      ensures b != null ==> jti in old(bindings) && b == old(bindings[jti]) && b.Rec() == old(Contents())[jti]
                            && bindings == old(bindings)
      ensures b == null ==> bindings == old(bindings) - {jti}
      ensures Contents() == AfterGet(old(Contents()), jti, now)
    {
      if jti !in bindings {
        assert bindings - {jti} == bindings;
        return null;
      }
      if now - bindings[jti].issuedAt > TOKEN_TTL {
        bindings := bindings - {jti};
        return null;
      }
      return bindings[jti];
    }

    method SeenDpopJti(jti: PyStr) returns (seen: bool)
      ensures seen <==> jti in dpopJtiSeen
    {
      return jti in dpopJtiSeen;
    }

    method MarkDpopJti(jti: PyStr)
      modifies this`dpopJtiSeen
      ensures dpopJtiSeen == old(dpopJtiSeen) + {jti}
    {
      dpopJtiSeen := dpopJtiSeen + {jti};
    }

    /** Flags the stored object, and no other. */
    method Revoke(jti: PyStr) returns (found: bool)
      requires Valid()
      modifies bindings.Values
      ensures Valid() && bindings == old(bindings)
      ensures found <==> jti in bindings
      ensures found ==> bindings[jti].revoked
      ensures forall b: Binding | old(allocated(b)) && (found ==> b != bindings[jti]) :: b.revoked == old(b.revoked)
      ensures Contents() == if found then old(Contents())[jti := old(Contents())[jti].(revoked := true)] else old(Contents())
    {
      if jti !in bindings {
        return false;
      }
      bindings[jti].revoked := true;
      return true;
    }

    method CheckAndMarkDpopJti(jti: PyStr) returns (isFresh: bool)
      modifies this`dpopJtiSeen
      ensures isFresh <==> jti !in old(dpopJtiSeen)
      ensures dpopJtiSeen == old(dpopJtiSeen) + {jti}
    {
      if jti in dpopJtiSeen {
        return false;
      }
      dpopJtiSeen := dpopJtiSeen + {jti};
      return true;
    }
  }

  /** `verify_and_consume` returns, or comparing texts that are not ASCII raises. */
  datatype Consumed = Returned(ok: bool) | RaisedTypeError

  class ChallengeStore {
    const ttlSeconds: int
    var challenges: map<PyStr, Challenge>

    constructor (ttlSeconds: int)
      ensures this.ttlSeconds == ttlSeconds && challenges == map[]
    {
      this.ttlSeconds := ttlSeconds;
      challenges := map[];
    }

    /** `nonce` is the fresh random text. */
    method Issue(jti: PyStr, nonce: PyStr, now: int)
      modifies this
      ensures challenges == old(challenges)[jti := Challenge(nonce, now)]
    {
      challenges := challenges[jti := Challenge(nonce, now)];
    }

    method VerifyAndConsume(jti: PyStr, presented: Option<PyStr>, now: int) returns (r: Consumed)
      requires ttlSeconds == CHALLENGE_TTL
      modifies this
      ensures var shown := if presented.Some? then presented.value else [];
              && (r.RaisedTypeError? <==> NonceRaises(old(challenges), jti, shown, now))
              && (r == Returned(true) <==> NonceOk(old(challenges), jti, shown, now))
              && challenges == AfterVerify(old(challenges), jti, shown, now)
      ensures r == Returned(true) ==> jti !in challenges
      ensures r.RaisedTypeError? ==> challenges == old(challenges)
    {
      if presented.None? || presented.value == [] {
        return Returned(false);
      }
      if jti !in challenges {
        return Returned(false);
      }
      if now - challenges[jti].issuedAt > ttlSeconds {
        challenges := challenges - {jti};
        return Returned(false);
      }
      if !AsciiText(challenges[jti].nonce) || !AsciiText(presented.value) {
        return RaisedTypeError;
      }
      if challenges[jti].nonce != presented.value {
        return Returned(false);
      }
      challenges := challenges - {jti};
      return Returned(true);
    }
  }

  class Dashboard {
    var total: int
    var passed: int
    var blocked: int
    var rateLimited: int
    var challengesIssued: int
    var rows: seq<Row>
    var issuances: seq<Issued>

    function Value(): Dash
      reads this
    {
      Dash(total, passed, blocked, rateLimited, challengesIssued, rows, issuances)
    }

    constructor ()
      ensures Value() == Dash(0, 0, 0, 0, 0, [], [])
    {
      total, passed, blocked, rateLimited, challengesIssued := 0, 0, 0, 0, 0;
      rows, issuances := [], [];
    }

    method Count(outcome: Verdict)
      modifies this`total, this`passed, this`blocked
      ensures Value() == Counted(old(Value()), outcome)
    {
      total := total + 1;
      if outcome.Pass? {
        passed := passed + 1;
      } else {
        blocked := blocked + 1;
      }
    }

    method RecordDecision(d: Decision, storyId: PyStr)
      modifies this
      ensures Value() == WithRow(old(Value()), DecisionRow(d, storyId))
    {
      Count(d.outcome);
      rows := Push(rows, DecisionRow(d, storyId));
    }

    method RecordRawBlock(ts: int, sourceIp: PyStr, presentedJa4: Option<PyStr>, reason: Reason, storyId: Option<PyStr>)
      modifies this
      ensures Value() == WithRow(old(Value()), Row(ts, sourceIp, presentedJa4, None, Block, reason, storyId))
    {
      Count(Block);
      rows := Push(rows, Row(ts, sourceIp, presentedJa4, None, Block, reason, storyId));
    }

    method RecordIssuance(ts: int, jti: PyStr, jkt: PyStr, ja4: PyStr, sourceIp: PyStr)
      modifies this`issuances
      ensures Value() == old(Value()).(issuances := Push(old(issuances), Issued(ts, jti, jkt, ja4, sourceIp)))
    {
      issuances := Push(issuances, Issued(ts, jti, jkt, ja4, sourceIp));
    }

    method RecordRateLimited()
      modifies this`rateLimited
      ensures Value() == old(Value()).(rateLimited := old(rateLimited) + 1)
    {
      rateLimited := rateLimited + 1;
    }

    method RecordChallengeIssued()
      modifies this`challengesIssued
      ensures Value() == old(Value()).(challengesIssued := old(challengesIssued) + 1)
    {
      challengesIssued := challengesIssued + 1;
    }
  }
}
