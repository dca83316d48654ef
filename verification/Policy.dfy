/** Validation of the decision policy (proxy/policy.py), from the parsed mapping on. */
module Policy {
  import opened PyText

  /** A parsed YAML value; booleans are kept apart from integers. */
  datatype Yaml = YInt(n: int) | YBool(b: bool) | YMap(entries: map<PyStr, Yaml>) | YOther

  datatype Policy = Policy(riskThreshold: int, challengeThreshold: int, ipDelta: int, ja4hDelta: int)

  datatype PolicyError =
    | NotAMapping
    | UnknownKeys
    | MissingKeys
    | BadRiskThreshold
    | BadChallengeThreshold
    | EmptyStepUpBand
    | WeightsNotAMapping
    | UnknownWeights
    | MissingWeights
    | BadWeight

  datatype Loaded = Ok(policy: Policy) | Refused(error: PolicyError)

  const RISK := Py("risk_threshold")
  const CHALLENGE := Py("challenge_threshold")
  const WEIGHTS := Py("soft_signal_weights")
  const IP_DELTA := Py("ip_delta")
  const JA4H_DELTA := Py("ja4h_delta")

  predicate IntAtLeast(v: Yaml, least: int) { v.YInt? && v.n >= least }

  function LoadPolicy(data: Yaml): Loaded {
    if !data.YMap? then Refused(NotAMapping)
    else
      var m := data.entries;
      if m.Keys - {RISK, CHALLENGE, WEIGHTS} != {} then Refused(UnknownKeys)
      else if {RISK, CHALLENGE, WEIGHTS} - m.Keys != {} then Refused(MissingKeys)
      else
        assert RISK in m.Keys && CHALLENGE in m.Keys && WEIGHTS in m.Keys by {
          assert forall k <- {RISK, CHALLENGE, WEIGHTS} :: k !in {RISK, CHALLENGE, WEIGHTS} - m.Keys;
        }
        if !IntAtLeast(m[RISK], 1) then Refused(BadRiskThreshold)
        else if !IntAtLeast(m[CHALLENGE], 0) then Refused(BadChallengeThreshold)
        else if m[CHALLENGE].n >= m[RISK].n then Refused(EmptyStepUpBand)
        else if !m[WEIGHTS].YMap? then Refused(WeightsNotAMapping)
        else
          var w := m[WEIGHTS].entries;
          if w.Keys - {IP_DELTA, JA4H_DELTA} != {} then Refused(UnknownWeights)
          else if {IP_DELTA, JA4H_DELTA} - w.Keys != {} then Refused(MissingWeights)
          else
            assert IP_DELTA in w.Keys && JA4H_DELTA in w.Keys by {
              assert forall k <- {IP_DELTA, JA4H_DELTA} :: k !in {IP_DELTA, JA4H_DELTA} - w.Keys;
            }
            if !IntAtLeast(w[IP_DELTA], 0) || !IntAtLeast(w[JA4H_DELTA], 0) then Refused(BadWeight)
            else Ok(Policy(m[RISK].n, m[CHALLENGE].n, w[IP_DELTA].n, w[JA4H_DELTA].n))
  }

  /** What every accepted policy satisfies. */
  predicate Valid(p: Policy) {
    0 <= p.challengeThreshold < p.riskThreshold && p.ipDelta >= 0 && p.ja4hDelta >= 0
  }

  function ToYaml(p: Policy): Yaml {
    YMap(map[Py("risk_threshold") := YInt(p.riskThreshold), Py("challenge_threshold") := YInt(p.challengeThreshold),
             Py("soft_signal_weights") := YMap(map[Py("ip_delta") := YInt(p.ipDelta), Py("ja4h_delta") := YInt(p.ja4hDelta)])])
  }

  lemma {:induction false} KeyNames()
    ensures RISK != CHALLENGE && RISK != WEIGHTS && CHALLENGE != WEIGHTS && IP_DELTA != JA4H_DELTA
  {
    assert |RISK| == 14 && |CHALLENGE| == 19 && |WEIGHTS| == 19 && |IP_DELTA| == 8 && |JA4H_DELTA| == 10;
    assert CHALLENGE[0] == 'c' as int && WEIGHTS[0] == 's' as int;
  }

  /** A mapping is accepted exactly when it is the mapping of some valid policy, and yields that one. */
  lemma {:induction false} LoadsIff(data: Yaml, p: Policy)
    ensures LoadPolicy(data) == Ok(p) <==> Valid(p) && data == ToYaml(p)
  {
    KeyNames();
    if LoadPolicy(data) == Ok(p) {
      var m := data.entries;
      var w := m[WEIGHTS].entries;
      assert m.Keys == {RISK, CHALLENGE, WEIGHTS} && w.Keys == {IP_DELTA, JA4H_DELTA};
      assert w == map[IP_DELTA := YInt(p.ipDelta), JA4H_DELTA := YInt(p.ja4hDelta)];
      assert m == ToYaml(p).entries;
    }
    if Valid(p) && data == ToYaml(p) {
      var m := data.entries;
      var w := m[WEIGHTS].entries;
      assert m.Keys == {RISK, CHALLENGE, WEIGHTS} && w.Keys == {IP_DELTA, JA4H_DELTA};
      assert m.Keys - {RISK, CHALLENGE, WEIGHTS} == {} && {RISK, CHALLENGE, WEIGHTS} - m.Keys == {};
      assert w.Keys - {IP_DELTA, JA4H_DELTA} == {} && {IP_DELTA, JA4H_DELTA} - w.Keys == {};
    }
  }

  /** The whole number under a key, unless there is none. */
  predicate NumberAt(m: map<PyStr, Yaml>, key: string, least: int) {
    Py(key) in m && m[Py(key)].YInt? && least <= m[Py(key)].n
  }

  /** Exactly why a mapping is refused: for the first of these checks that it fails. */
  lemma {:induction false} RefusedIff(data: Yaml)
    ensures var r := LoadPolicy(data);
            var m := if data.YMap? then data.entries else map[];
            var w := if Py("soft_signal_weights") in m && m[Py("soft_signal_weights")].YMap?
                     then m[Py("soft_signal_weights")].entries else map[];
            var named := m.Keys == {Py("risk_threshold"), Py("challenge_threshold"), Py("soft_signal_weights")};
            var known := m.Keys <= {Py("risk_threshold"), Py("challenge_threshold"), Py("soft_signal_weights")};
            var bounds := named && NumberAt(m, "risk_threshold", 1) && NumberAt(m, "challenge_threshold", 0);
            var banded := bounds && m[Py("challenge_threshold")].n < m[Py("risk_threshold")].n;
            var weighed := banded && m[Py("soft_signal_weights")].YMap?;
            && (r == Refused(NotAMapping) <==> !data.YMap?)
            && (r == Refused(UnknownKeys) <==> data.YMap? && !known)
            && (r == Refused(MissingKeys) <==> data.YMap? && known && !named)
            && (r == Refused(BadRiskThreshold) <==> named && !NumberAt(m, "risk_threshold", 1))
            && (r == Refused(BadChallengeThreshold) <==>
                named && NumberAt(m, "risk_threshold", 1) && !NumberAt(m, "challenge_threshold", 0))
            && (r == Refused(EmptyStepUpBand) <==> bounds && !banded)
            && (r == Refused(WeightsNotAMapping) <==> banded && !weighed)
            && (r == Refused(UnknownWeights) <==> weighed && !(w.Keys <= {Py("ip_delta"), Py("ja4h_delta")}))
            && (r == Refused(MissingWeights) <==> weighed && w.Keys < {Py("ip_delta"), Py("ja4h_delta")})
            && (r == Refused(BadWeight) <==>
                weighed && w.Keys == {Py("ip_delta"), Py("ja4h_delta")}
                && !(NumberAt(w, "ip_delta", 0) && NumberAt(w, "ja4h_delta", 0)))
  {
    KeyNames();
    var names, weights := {RISK, CHALLENGE, WEIGHTS}, {IP_DELTA, JA4H_DELTA};
    hide Py;
    if data.YMap? {
      var m := data.entries;
      SameSet(m.Keys, names);
      if WEIGHTS in m && m[WEIGHTS].YMap? { SameSet(m[WEIGHTS].entries.Keys, weights); }
    }
  }

  lemma {:induction false} SameSet(s: set<PyStr>, t: set<PyStr>)
    ensures s - t == {} <==> s <= t
    ensures t - s == {} <==> t <= s
  {
    if s - t == {} { assert forall k <- s :: k in t by { forall k | k in s ensures k in t { assert k !in s - t; } } }
    if t - s == {} { assert forall k <- t :: k in s by { forall k | k in t ensures k in s { assert k !in t - s; } } }
  }
}
