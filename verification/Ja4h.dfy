/** The HTTP header-shape fingerprint (proxy/ja4h.py). */
module Ja4h {
  import opened PyText
  import opened Hashing
  import Ja4
  import Ja4Diff
  import Ja4Text
  import Strs

  datatype Header = Header(name: seq<Byte>, value: seq<Byte>)

  datatype HttpShape = HttpShape(version: PyStr, headers: seq<Header>)

  function Lower(name: seq<Byte>): seq<Byte> {
    seq(|name|, i requires 0 <= i < |name| => if 65 <= name[i] <= 90 then name[i] + 32 else name[i])
  }

  /** The headers that vary from request to request. */
  predicate Volatile(h: Header) {
    Lower(h.name) in {Py("authorization"), Py("dpop"), Py("content-length"), Py("content-type"), Py("host")}
  }

  /** The other headers, in the order received. */
  function Stable(headers: seq<Header>): (r: seq<Header>)
    ensures |r| <= |headers|
  {
    if headers == [] then []
    else if Volatile(headers[0]) then Stable(headers[1..])
    else [headers[0]] + Stable(headers[1..])
  }

  function Names(headers: seq<Header>): seq<PyStr> {
    seq(|headers|, i requires 0 <= i < |headers| => headers[i].name)
  }

  function HeaderValues(headers: seq<Header>, name: seq<Byte>): seq<seq<Byte>> {
    if headers == [] then []
    else if Lower(headers[0].name) == name then [headers[0].value] + HeaderValues(headers[1..], name)
    else HeaderValues(headers[1..], name)
  }

  /** Whether the folded value of the cookie headers is a non-empty string. */
  predicate HasCookie(headers: seq<Header>) {
    var vs := HeaderValues(headers, Py("cookie"));
    |vs| >= 2 || (|vs| == 1 && vs[0] != [])
  }

  predicate Contains(s: PyStr, part: PyStr) {
    exists i | 0 <= i <= |s| :: part <= s[i..]
  }

  function VersionPart(version: PyStr): PyStr {
    if Contains(version, Py("2")) then Py("20")
    else if Contains(version, Py("1.0")) then Py("10")
    else Py("11")
  }

  function Ja4h(h: StrHash, r: HttpShape): PyStr {
    var names := Names(Stable(r.headers));
    Py("h") + VersionPart(r.version) + (if HasCookie(r.headers) then Py("c") else Py("n"))
    + Ja4.Count2(|names|) + Py("_") + Ja4.Hash12(h, names)
  }

  lemma {:induction false} CookieIsStable()
    ensures forall h: Header :: Lower(h.name) == Py("cookie") ==> !Volatile(h)
  {
    assert Py("cookie")[0] == 'c' as int && Py("authorization")[0] == 'a' as int && Py("dpop")[0] == 'd' as int;
    assert |Py("cookie")| == 6 && |Py("content-length")| == 14 && |Py("content-type")| == 12 && |Py("host")| == 4;
  }

  lemma {:induction false} CookiesStable(headers: seq<Header>)
    ensures HeaderValues(Stable(headers), Py("cookie")) == HeaderValues(headers, Py("cookie"))
  {
    CookieIsStable();
    if headers != [] {
      CookiesStable(headers[1..]);
      hide Volatile;
      if !Volatile(headers[0]) {
        assert Stable(headers)[1..] == Stable(headers[1..]);
      }
    }
  }

  /** The fingerprint depends on the stable headers alone: whatever volatile ones come and go. */
  lemma {:induction false} VolatileInvisible(h: StrHash, r: HttpShape, s: HttpShape)
    requires r.version == s.version && Stable(r.headers) == Stable(s.headers)
    ensures Ja4h(h, r) == Ja4h(h, s)
  {
    CookiesStable(r.headers);
    CookiesStable(s.headers);
  }

  /** Inserting volatile headers anywhere changes nothing the fingerprint sees. */
  lemma {:induction false} InsertVolatile(a: seq<Header>, added: seq<Header>, b: seq<Header>)
    requires forall i | 0 <= i < |added| :: Volatile(added[i])
    ensures Stable(a + added + b) == Stable(a + b)
  {
    hide Volatile;
    if a != [] {
      InsertVolatile(a[1..], added, b);
      assert (a + added + b)[1..] == a[1..] + added + b && (a + b)[1..] == a[1..] + b;
    } else if added != [] {
      InsertVolatile([], added[1..], b);
      assert ([] + added + b)[1..] == [] + added[1..] + b;
    } else {
      assert a + added + b == a + b;
    }
  }

  lemma {:induction false} InsertionInvisible(h: StrHash, version: PyStr, a: seq<Header>, added: seq<Header>, b: seq<Header>)
    requires forall i | 0 <= i < |added| :: Volatile(added[i])
    ensures Ja4h(h, HttpShape(version, a + added + b)) == Ja4h(h, HttpShape(version, a + b))
  {
    InsertVolatile(a, added, b);
    VolatileInvisible(h, HttpShape(version, a + added + b), HttpShape(version, a + b));
  }

  /** The text the fingerprint hashes: the stable header names in the order sent. */
  function NameText(r: HttpShape): PyStr { Strs.Join(Ja4.COMMA, Names(Stable(r.headers))) }

  /** Two fingerprints are equal exactly when the visible parts are, and the hashed texts or their truncated hashes. */
  lemma {:induction false} Ja4hEqualIff(h: StrHash, r: HttpShape, s: HttpShape)
    ensures Ja4h(h, r) == Ja4h(h, s) <==>
              && VersionPart(r.version) == VersionPart(s.version)
              && (HasCookie(r.headers) <==> HasCookie(s.headers))
              && Ja4.Min99(|Stable(r.headers)|) == Ja4.Min99(|Stable(s.headers)|)
              && (NameText(r) == NameText(s)
                  || (NameText(r) != NameText(s) && HexDigest(h(NameText(r)))[..12] == HexDigest(h(NameText(s)))[..12]))
  {
    var m, n := Names(Stable(r.headers)), Names(Stable(s.headers));
    CountCapped(|m|, |n|);
    VersionParts(r.version);
    VersionParts(s.version);
    assert Py("c") != Py("n") && |Py("c")| == |Py("n")| == 1 by { assert Py("c")[0] != Py("n")[0]; }
    hide VersionPart, HasCookie, Stable, Ja4.Count2, Py;
    if Ja4h(h, r) == Ja4h(h, s) {
      var a, b := if HasCookie(r.headers) then Py("c") else Py("n"), if HasCookie(s.headers) then Py("c") else Py("n");
      PartsAgree(Py("h"), VersionPart(r.version), a, Ja4.Count2(|m|), Py("_"), Ja4.Hash12(h, m),
                 VersionPart(s.version), b, Ja4.Count2(|n|), Ja4.Hash12(h, n));
    }
  }

  /** A name in any ASCII case, given in lower case. */
  predicate Named(name: seq<Byte>, lower: string) {
    |name| == |lower| && forall i | 0 <= i < |name| ::
      name[i] == lower[i] as int || (65 <= name[i] <= 90 && name[i] + 32 == lower[i] as int)
  }

  /** No upper-case letter. */
  predicate LowerCase(s: string) { forall i | 0 <= i < |s| :: !('A' <= s[i] <= 'Z') }

  lemma {:induction false} LowerIff(name: seq<Byte>, lower: string)
    requires LowerCase(lower)
    ensures Lower(name) == Py(lower) <==> Named(name, lower)
  {
    if Lower(name) == Py(lower) {
      assert |name| == |Lower(name)| == |Py(lower)| == |lower|;
      forall i | 0 <= i < |name|
        ensures name[i] == lower[i] as int || (65 <= name[i] <= 90 && name[i] + 32 == lower[i] as int)
      {
        assert Lower(name)[i] == Py(lower)[i];
      }
    }
  }

  /** Which headers do not count, by name. */
  predicate Varies(h: Header) {
    || Named(h.name, "authorization") || Named(h.name, "dpop") || Named(h.name, "content-length")
    || Named(h.name, "content-type") || Named(h.name, "host")
  }

  lemma {:induction false} VolatileIff(h: Header)
    ensures Volatile(h) <==> Varies(h)
  {
    LowerIff(h.name, "authorization");
    LowerIff(h.name, "dpop");
    LowerIff(h.name, "content-length");
    LowerIff(h.name, "content-type");
    LowerIff(h.name, "host");
    hide Lower, Named, Py;
  }

  /** Leaving out the headers that vary, one by one and in order. */
  lemma {:induction false} StableMeaning(a: seq<Header>, h: Header, b: seq<Header>)
    ensures Stable([]) == []
    ensures Stable([h]) == if Varies(h) then [] else [h]
    ensures Stable(a + b) == Stable(a) + Stable(b)
  {
    hide Volatile, Varies;
    VolatileIff(h);
    assert [h][1..] == [];
    StableConcat(a, b);
  }

  lemma {:induction false} StableConcat(a: seq<Header>, b: seq<Header>)
    ensures Stable(a + b) == Stable(a) + Stable(b)
  {
    hide Volatile;
    if a == [] {
      assert a + b == b;
    } else {
      assert (a + b)[1..] == a[1..] + b;
      StableConcat(a[1..], b);
    }
  }

  /** Some cookie header has a value, or there are several. */
  ghost predicate SendsCookie(headers: seq<Header>) {
    || (exists i | 0 <= i < |headers| :: Named(headers[i].name, "cookie") && headers[i].value != [])
    || (exists i, j | 0 <= i < j < |headers| :: Named(headers[i].name, "cookie") && Named(headers[j].name, "cookie"))
  }

  /** Where the cookie headers stand. */
  function CookiePlaces(headers: seq<Header>): (r: seq<nat>)
    ensures forall k | 0 <= k < |r| :: r[k] < |headers| && Named(headers[r[k]].name, "cookie")
    ensures forall k, m | 0 <= k < m < |r| :: r[k] < r[m]
    ensures forall i | 0 <= i < |headers| && Named(headers[i].name, "cookie") :: i in r
  {
    if headers == [] then []
    else
      var n := |headers| - 1;
      var before := CookiePlaces(headers[..n]);
      if Named(headers[n].name, "cookie") then before + [n] else before
  }

  lemma {:induction false} ValuesSnoc(headers: seq<Header>, h: Header, name: seq<Byte>)
    ensures HeaderValues(headers + [h], name)
            == HeaderValues(headers, name) + if Lower(h.name) == name then [h.value] else []
  {
    if headers == [] {
      assert headers + [h] == [h] && [h][1..] == [];
    } else {
      assert (headers + [h])[1..] == headers[1..] + [h];
      ValuesSnoc(headers[1..], h, name);
    }
  }

  lemma {:induction false} CookieValues(headers: seq<Header>)
    ensures var r := CookiePlaces(headers);
            HeaderValues(headers, Py("cookie")) == seq(|r|, k requires 0 <= k < |r| => headers[r[k]].value)
  {
    hide Named, Lower;
    if headers != [] {
      var n := |headers| - 1;
      CookieValues(headers[..n]);
      assert headers == headers[..n] + [headers[n]];
      ValuesSnoc(headers[..n], headers[n], Py("cookie"));
      assert LowerCase("cookie");
      LowerIff(headers[n].name, "cookie");
    }
  }

  lemma {:induction false} CookieIff(headers: seq<Header>)
    ensures HasCookie(headers) <==> SendsCookie(headers)
  {
    hide Named, HeaderValues;
    var r := CookiePlaces(headers);
    CookieValues(headers);
    var vs := HeaderValues(headers, Py("cookie"));
    if |r| >= 2 { assert Named(headers[r[0]].name, "cookie") && Named(headers[r[1]].name, "cookie"); }
    if |r| == 1 && vs[0] != [] { assert Named(headers[r[0]].name, "cookie") && headers[r[0]].value != []; }
    if i :| 0 <= i < |headers| && Named(headers[i].name, "cookie") && headers[i].value != [] {
      var k :| 0 <= k < |r| && r[k] == i;
      assert vs[k] == headers[i].value;
    }
    if i, j :| 0 <= i < j < |headers| && Named(headers[i].name, "cookie") && Named(headers[j].name, "cookie") {
      assert i in r && j in r;
    }
  }

  /** The text of a protocol version holds "2", or "1.0". */
  predicate SaysTwo(version: PyStr) { '2' as int in version }

  predicate SaysOneZero(version: PyStr) {
    exists i | 0 <= i <= |version| - 3 :: version[i] == '1' as int && version[i + 1] == '.' as int && version[i + 2] == '0' as int
  }

  lemma {:induction false} VersionReads(version: PyStr)
    ensures VersionPart(version)
            == if SaysTwo(version) then Py("20") else if SaysOneZero(version) then Py("10") else Py("11")
  {
    assert Py("2") == ['2' as int] && Py("1.0") == ['1' as int, '.' as int, '0' as int];
    if SaysTwo(version) {
      var i :| 0 <= i < |version| && version[i] == '2' as int;
      assert Py("2") <= version[i..];
    }
    if i :| 0 <= i <= |version| && Py("2") <= version[i..] { assert version[i] == version[i..][0]; }
    if SaysOneZero(version) {
      var i :| 0 <= i <= |version| - 3 && version[i] == '1' as int && version[i + 1] == '.' as int && version[i + 2] == '0' as int;
      assert Py("1.0") <= version[i..];
    }
    if i :| 0 <= i <= |version| && Py("1.0") <= version[i..] {
      assert version[i] == version[i..][0] && version[i + 1] == version[i..][1] && version[i + 2] == version[i..][2];
    }
  }

  /**
   * What the fingerprint of any request reads: 'h', the protocol version, 'c' or 'n' for cookies, the
   * count of the stable headers, and after an underscore the first twelve digits of the hash of their
   * names, in the order and case sent, with commas between.
   */
  lemma {:induction false} Ja4hReads(h: StrHash, r: HttpShape)
    ensures var t := Ja4h(h, r);
            && |t| == 19 && t[0] == 'h' as int && t[6] == '_' as int
            && t[1..3] == (if SaysTwo(r.version) then Py("20") else if SaysOneZero(r.version) then Py("10") else Py("11"))
            && t[3] == (if SendsCookie(r.headers) then 'c' as int else 'n' as int)
            && Ja4Text.ReadsCount(t[4], t[5], |Stable(r.headers)|)
            && t[7..] == HexDigest(h(Strs.Join(',' as int, Names(Stable(r.headers)))))[..12]
  {
    hide VersionPart, HasCookie, SendsCookie, Stable, SaysTwo, SaysOneZero, Strs.Join;
    VersionReads(r.version);
    VersionParts(r.version);
    CookieIff(r.headers);
  }

  lemma {:induction false} VersionParts(version: PyStr)
    ensures |VersionPart(version)| == 2
  {}

  lemma {:induction false} CountCapped(m: nat, n: nat)
    ensures Ja4.Count2(m) == Ja4.Count2(n) <==> Ja4.Min99(m) == Ja4.Min99(n)
  {
    if Ja4.Count2(m) == Ja4.Count2(n) { Ja4Diff.Count2Injective(Ja4.Min99(m), Ja4.Min99(n)); }
  }

  /** Parts of fixed lengths can be read off their concatenation. */
  lemma {:induction false} PartsAgree(p: PyStr, v: PyStr, c: PyStr, n: PyStr, u: PyStr, h: PyStr,
                                      v': PyStr, c': PyStr, n': PyStr, h': PyStr)
    requires |v| == |v'| && |c| == |c'| && |n| == |n'|
    requires p + v + c + n + u + h == p + v' + c' + n' + u + h'
    ensures v == v' && c == c' && n == n' && h == h'
  {
    Ja4Diff.AppendUnique(p + v + c + n + u, h, p + v' + c' + n' + u, h');
    Ja4Diff.AppendUnique(p + v + c + n, u, p + v' + c' + n', u);
    Ja4Diff.AppendUnique(p + v + c, n, p + v' + c', n');
    Ja4Diff.AppendUnique(p + v, c, p + v', c');
    Ja4Diff.AppendUnique(p, v, p, v');
  }
}
