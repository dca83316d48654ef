/** DPoP proof validation (proxy/dpop.py, RFC 9449) over proofs whose cryptography is already judged. */
module Dpop {
  import opened PyText
  import opened Json
  import G = JsonGrammar
  import opened JsonRoundTrip
  import opened JsonFused

  const FRESHNESS_WINDOW: int := 60

  /** The public key in a proof's header. */
  datatype Jwk = Jwk(kty: PyStr, crv: PyStr, x: PyStr, y: PyStr)

  /** A URL split into its parts. */
  datatype Url = Url(scheme: PyStr, netloc: PyStr, path: PyStr, query: PyStr, fragment: PyStr)

  /** The claims of a proof; `iat` is absent when it is not a number. */
  datatype Claims = Claims(jti: PyStr, htm: PyStr, htu: Url, iat: Option<real>, nonce: Option<PyStr>)

  /**
   * A presented proof: whether its header parses, what the header says (with the `repr` of its algorithm),
   * whether the key is usable, and at which clock readings the library accepts its signature, its required claims and its own time claims.
   */
  datatype Proof = Proof(headerOk: bool, typ: PyStr, alg: PyStr, algText: PyStr, jwk: Option<Jwk>, keyOk: bool,
                         verifies: int -> bool, claims: Claims)

  datatype Reason =
    | ProofOk
    | MalformedHeader
    | InvalidTyp
    | AlgorithmNotAllowed(algText: PyStr)
    | UnsupportedJwk
    | InvalidJwk
    | BadSignature
    | HtmMismatch
    | HtuMismatch
    | NotFresh

  datatype DpopResult = DpopResult(valid: bool, jkt: Option<PyStr>, jti: Option<PyStr>, reason: Reason)

  /** SHA-256 followed by unpadded base64url. */
  type ThumbHash = string -> PyStr

  function StripSlashes(path: PyStr): PyStr {
    if path != [] && path[|path| - 1] == 0x2F then StripSlashes(path[..|path| - 1]) else path
  }

  function Normalize(u: Url): Url {
    var path := StripSlashes(u.path);
    Url(u.scheme, u.netloc, if path == [] then [0x2F] else path, [], [])
  }

  function Upper(s: PyStr): PyStr {
    seq(|s|, i requires 0 <= i < |s| => if 97 <= s[i] <= 122 then s[i] - 32 else s[i])
  }

  function ThumbprintInput(k: Jwk): Json {
    Obj(map[Py("crv") := Str(k.crv), Py("kty") := Str(k.kty), Py("x") := Str(k.x), Py("y") := Str(k.y)])
  }

  /** The RFC 7638 thumbprint. */
  function Thumbprint(thumb: ThumbHash, k: Jwk): PyStr { thumb(Print(ThumbprintInput(k))) }

  function Invalid(r: Reason): DpopResult { DpopResult(false, None, None, r) }

  function Abs(x: real): real { if x < 0.0 then -x else x }

  function ValidateDpop(thumb: ThumbHash, p: Proof, httpMethod: PyStr, url: Url, now: int): DpopResult {
    if !p.headerOk then Invalid(MalformedHeader)
    else if p.typ != Py("dpop+jwt") then Invalid(InvalidTyp)
    else if p.alg != Py("ES256") then Invalid(AlgorithmNotAllowed(p.algText))
    else if p.jwk.None? || p.jwk.value.kty != Py("EC") || p.jwk.value.crv != Py("P-256") then Invalid(UnsupportedJwk)
    else if !p.keyOk then Invalid(InvalidJwk)
    else if !p.verifies(now) then Invalid(BadSignature)
    else if Upper(p.claims.htm) != Upper(httpMethod) then Invalid(HtmMismatch)
    else if Normalize(p.claims.htu) != Normalize(url) then Invalid(HtuMismatch)
    else if p.claims.iat.None? || Abs(now as real - p.claims.iat.value) > FRESHNESS_WINDOW as real then Invalid(NotFresh)
    else DpopResult(true, Some(Thumbprint(thumb, p.jwk.value)), Some(p.claims.jti), ProofOk)
  }

  /** Everything about a proof that does not depend on the clock. */
  ghost predicate Genuine(p: Proof, httpMethod: PyStr, url: Url) {
    && p.headerOk && p.typ == Py("dpop+jwt") && p.alg == Py("ES256")
    && p.jwk.Some? && p.jwk.value.kty == Py("EC") && p.jwk.value.crv == Py("P-256")
    && p.keyOk
    && SameLetters(p.claims.htm, httpMethod) && SameTarget(p.claims.htu, url)
  }

  /** Everything about a proof that depends on the clock. */
  ghost predicate FreshAt(p: Proof, now: int) {
    p.verifies(now) && p.claims.iat.Some?
    && (now - 60) as real <= p.claims.iat.value <= (now + 60) as real
  }

  /** Same scheme, host and path, up to trailing slashes; query and fragment do not matter. */
  ghost predicate SameTarget(u: Url, v: Url) {
    u.scheme == v.scheme && u.netloc == v.netloc && exists m: nat, n: nat ::
      u.path + Slashes(m) == v.path + Slashes(n)
  }

  function Slashes(n: nat): PyStr { seq(n, _ => 0x2F) }

  lemma {:induction false} StripIsPrefix(path: PyStr) returns (n: nat)
    ensures path == StripSlashes(path) + Slashes(n)
    ensures StripSlashes(path) == [] || StripSlashes(path)[|StripSlashes(path)| - 1] != 0x2F
  {
    if path != [] && path[|path| - 1] == 0x2F {
      var k := StripIsPrefix(path[..|path| - 1]);
      n := k + 1;
      assert Slashes(n) == Slashes(k) + [0x2F];
      assert path == path[..|path| - 1] + [0x2F];
    } else {
      n := 0;
    }
  }

  lemma {:induction false} StripAppended(path: PyStr, n: nat)
    ensures StripSlashes(path + Slashes(n)) == StripSlashes(path)
  {
    if n == 0 {
      assert path + Slashes(0) == path;
    } else {
      StripAppended(path, n - 1);
      var t := path + Slashes(n);
      assert t[..|t| - 1] == path + Slashes(n - 1) && t[|t| - 1] == 0x2F;
    }
  }

  /** Normalised URLs are equal exactly for the same target. */
  lemma {:induction false} NormalizeIff(u: Url, v: Url)
    ensures Normalize(u) == Normalize(v) <==> SameTarget(u, v)
  {
    if Normalize(u) == Normalize(v) {
      var m := StripIsPrefix(u.path);
      var n := StripIsPrefix(v.path);
      assert StripSlashes(u.path) == StripSlashes(v.path);
      PadAlike(u.path, v.path, StripSlashes(u.path), m, n);
    }
    if SameTarget(u, v) {
      var i: nat, j: nat :| u.path + Slashes(i) == v.path + Slashes(j);
      StripAppended(u.path, i);
      StripAppended(v.path, j);
    }
  }

  lemma {:induction false} PadAlike(p: PyStr, q: PyStr, s: PyStr, m: nat, n: nat)
    requires p == s + Slashes(m) && q == s + Slashes(n)
    ensures p + Slashes(n) == q + Slashes(m)
  {
    assert p + Slashes(n) == s + Slashes(m + n);
    assert q + Slashes(m) == s + Slashes(m + n);
  }

  /** A proof validates exactly when it is genuine and fresh, and then yields its key and its jti. */
  lemma {:induction false} ValidIff(thumb: ThumbHash, p: Proof, httpMethod: PyStr, url: Url, now: int)
    ensures var r := ValidateDpop(thumb, p, httpMethod, url, now);
            && (r.valid <==> Genuine(p, httpMethod, url) && FreshAt(p, now))
            && (r.valid ==> r.jkt == Some(Thumbprint(thumb, p.jwk.value)) && r.jti == Some(p.claims.jti))
            && (!r.valid ==> r.jkt.None? && r.jti.None? && r.reason != ProofOk)
  {
    NormalizeIff(p.claims.htu, url);
    UpperIff(p.claims.htm, httpMethod);
    hide Upper, Normalize, SameTarget, SameLetters, Py;
  }

  /** The members of two keys agree, up to fused surrogate pairs. */
  predicate SameKey(j: Jwk, k: Jwk) {
    && JoinPairs(j.kty) == JoinPairs(k.kty) && JoinPairs(j.crv) == JoinPairs(k.crv)
    && JoinPairs(j.x) == JoinPairs(k.x) && JoinPairs(j.y) == JoinPairs(k.y)
  }

  /** A proof that is refused is refused for the first check it fails. */
  lemma {:induction false} ReasonIff(thumb: ThumbHash, p: Proof, httpMethod: PyStr, url: Url, now: int)
    ensures var r := ValidateDpop(thumb, p, httpMethod, url, now).reason;
            var typOk, algOk := p.headerOk && p.typ == Py("dpop+jwt"), p.alg == Py("ES256");
            var curveOk := p.jwk.Some? && p.jwk.value.kty == Py("EC") && p.jwk.value.crv == Py("P-256");
            var signed := typOk && algOk && curveOk && p.keyOk && p.verifies(now);
            && (r == MalformedHeader <==> !p.headerOk)
            && (r == InvalidTyp <==> p.headerOk && !typOk)
            && (forall a :: r == AlgorithmNotAllowed(a) <==> typOk && !algOk && a == p.algText)
            && (r == UnsupportedJwk <==> typOk && algOk && !curveOk)
            && (r == InvalidJwk <==> typOk && algOk && curveOk && !p.keyOk)
            && (r == BadSignature <==> typOk && algOk && curveOk && p.keyOk && !p.verifies(now))
            && (r == HtmMismatch <==> signed && !SameLetters(p.claims.htm, httpMethod))
            && (r == HtuMismatch <==> signed && SameLetters(p.claims.htm, httpMethod) && !SameTarget(p.claims.htu, url))
            && (r == NotFresh <==>
                signed && SameLetters(p.claims.htm, httpMethod) && SameTarget(p.claims.htu, url) && !FreshAt(p, now))
  {
    NormalizeIff(p.claims.htu, url);
    UpperIff(p.claims.htm, httpMethod);
    hide Upper, Normalize, SameTarget, SameLetters, Py, Thumbprint;
  }

  /** Equal letter for letter, up to the case of ASCII letters. */
  predicate SameLetters(s: PyStr, t: PyStr) {
    |s| == |t| && forall i | 0 <= i < |s| ::
      s[i] == t[i] || (97 <= s[i] <= 122 && t[i] == s[i] - 32) || (97 <= t[i] <= 122 && s[i] == t[i] - 32)
  }

  lemma {:induction false} UpperIff(s: PyStr, t: PyStr)
    ensures Upper(s) == Upper(t) <==> SameLetters(s, t)
  {
    if Upper(s) == Upper(t) {
      assert |s| == |Upper(s)| == |Upper(t)| == |t|;
      forall i | 0 <= i < |s|
        ensures s[i] == t[i] || (97 <= s[i] <= 122 && t[i] == s[i] - 32) || (97 <= t[i] <= 122 && s[i] == t[i] - 32)
      {
        assert Upper(s)[i] == Upper(t)[i];
      }
    }
  }

  /** Equal thumbprints come exactly from equal keys, or from two canonical texts that hash alike. */
  lemma {:induction false} ThumbprintDetermines(thumb: ThumbHash, j: Jwk, k: Jwk)
    ensures Thumbprint(thumb, j) == Thumbprint(thumb, k) <==>
            SameKey(j, k)
            || (Print(ThumbprintInput(j)) != Print(ThumbprintInput(k))
                && thumb(Print(ThumbprintInput(j))) == thumb(Print(ThumbprintInput(k))))
  {
    hide Print, DocOf, ThumbprintInput, SameKey;
    PrintEqualIff(ThumbprintInput(j), ThumbprintInput(k));
    InputDocIff(j, k);
  }

  /** What is hashed: the canonical spelling of the four required members (RFC 7638 section 3.2). */
  lemma {:induction false} ThumbprintReads(thumb: ThumbHash, k: Jwk)
    ensures exists sp ::
              && Canonical(sp) && thumb(G.Text(sp)) == Thumbprint(thumb, k)
              && G.Meaning(sp) == ObjDoc([(Py("crv"), StrDoc(JoinPairs(k.crv))), (Py("kty"), StrDoc(JoinPairs(k.kty))),
                                          (Py("x"), StrDoc(JoinPairs(k.x))), (Py("y"), StrDoc(JoinPairs(k.y)))])
  {
    hide Canonical, G.Text, G.Meaning, Print, JoinPairs, Py, ThumbprintInput, Smaller, DocOf;
    InputMembers(k);
    var m := ThumbprintInput(k).members;
    var ks := [Py("crv"), Py("kty"), Py("x"), Py("y")];
    var ms := [(Py("crv"), StrDoc(JoinPairs(k.crv))), (Py("kty"), StrDoc(JoinPairs(k.kty))),
               (Py("x"), StrDoc(JoinPairs(k.x))), (Py("y"), StrDoc(JoinPairs(k.y)))];
    MembersSmaller();
    StrLeaves();
    assert forall n | n in m :: n in ks;
    ObjectText(m, ms, ks);
  }

  lemma {:induction false} StrLeaves()
    ensures forall s: PyStr :: DocOf(Str(s)) == StrDoc(JoinPairs(s))
  {}

  lemma {:induction false} MembersSmaller()
    ensures var ks := [Py("crv"), Py("kty"), Py("x"), Py("y")];
            && (forall i, j | 0 <= i < j < 4 :: Smaller(ks[i], ks[j]))
            && forall i | 0 <= i < 4 :: JoinPairs(ks[i]) == ks[i]
  {
    hide JoinPairs, Smaller;
    var ks := [Py("crv"), Py("kty"), Py("x"), Py("y")];
    forall i | 0 <= i < 4 ensures JoinPairs(ks[i]) == ks[i] {
      LiteralKept(["crv", "kty", "x", "y"][i]);
    }
    forall i, j | 0 <= i < j < 4 ensures Smaller(ks[i], ks[j]) {
      SmallerAt(ks[i], ks[j], 0);
    }
  }

  lemma {:induction false} InputDocIff(j: Jwk, k: Jwk)
    ensures DocOf(ThumbprintInput(j)) == DocOf(ThumbprintInput(k)) <==> SameKey(j, k)
  {
    hide ThumbprintInput, Py, MemberDocs, SortedKeys, DocOf, JoinPairs;
    InputMembers(j);
    InputMembers(k);
    StrLeaves();
    var m, n := ThumbprintInput(j).members, ThumbprintInput(k).members;
    SameKeysDoc(m, n);
    assert forall name | name in m :: name in {Py("crv"), Py("kty"), Py("x"), Py("y")};
  }

  lemma {:induction false} InputMembers(k: Jwk)
    ensures var v := ThumbprintInput(k);
            && v.Obj? && v.members.Keys == {Py("crv"), Py("kty"), Py("x"), Py("y")}
            && v.members[Py("crv")] == Str(k.crv) && v.members[Py("kty")] == Str(k.kty)
            && v.members[Py("x")] == Str(k.x) && v.members[Py("y")] == Str(k.y)
  {
    MemberNames();
  }

  lemma {:induction false} MemberNames()
    ensures Py("crv") != Py("kty") && Py("x") != Py("y") && |Py("crv")| == |Py("kty")| == 3 && |Py("x")| == |Py("y")| == 1
  {
    assert Py("crv")[0] == 'c' as int && Py("kty")[0] == 'k' as int;
    assert Py("x")[0] == 'x' as int && Py("y")[0] == 'y' as int;
  }
}
