/** Python text as the proxy sees it: code points, their ordering, decimal and hexadecimal forms. */
module PyText {

  /** One code point of a Python `str`.  Lone surrogates are code points too. */
  type Code = c: int | 0 <= c < 0x11_0000

  type PyStr = seq<Code>

  /** A literal as a Python string. */
  function Py(s: string): PyStr {
    seq(|s|, i requires 0 <= i < |s| => s[i] as int)
  }

  // ----- ordering of strings -----

  /** Python's `<=` on strings: lexicographic by code point. */
  predicate Leq(a: PyStr, b: PyStr) {
    a == [] || (b != [] && (a[0] < b[0] || (a[0] == b[0] && Leq(a[1..], b[1..]))))
  }

  lemma {:induction false} LeqTotal(a: PyStr, b: PyStr)
    ensures Leq(a, b) || Leq(b, a)
  {
    if a != [] && b != [] && a[0] == b[0] {
      LeqTotal(a[1..], b[1..]);
    }
  }

  lemma {:induction false} LeqAntisymmetric(a: PyStr, b: PyStr)
    requires Leq(a, b) && Leq(b, a)
    ensures a == b
  {
    if a != [] {
      LeqAntisymmetric(a[1..], b[1..]);
      assert a == [a[0]] + a[1..] && b == [b[0]] + b[1..];
    }
  }

  lemma {:induction false} LeqTransitive(a: PyStr, b: PyStr, c: PyStr)
    requires Leq(a, b) && Leq(b, c)
    ensures Leq(a, c)
  {
    if a != [] && a[0] == b[0] == c[0] {
      LeqTransitive(a[1..], b[1..], c[1..]);
    }
  }

  /** The strings agree before position i, and there the first is over or has the smaller code point. */
  predicate FirstBelow(a: PyStr, b: PyStr, i: nat) {
    i <= |a| && i <= |b| && a[..i] == b[..i] && (i == |a| || (i < |b| && a[i] < b[i]))
  }

  /** A string is at most another when it is a prefix of it, or smaller where they first differ. */
  lemma {:induction false} LeqIff(a: PyStr, b: PyStr)
    ensures Leq(a, b) <==> exists i: nat :: FirstBelow(a, b, i)
  {
    if a == [] {
      assert FirstBelow(a, b, 0);
    } else if b != [] {
      LeqIff(a[1..], b[1..]);
      assert a == [a[0]] + a[1..] && b == [b[0]] + b[1..];
      if Leq(a, b) {
        if a[0] < b[0] {
          assert FirstBelow(a, b, 0);
        } else {
          var i: nat :| FirstBelow(a[1..], b[1..], i);
          assert a[..i + 1] == [a[0]] + a[1..][..i] && b[..i + 1] == [b[0]] + b[1..][..i];
          assert FirstBelow(a, b, i + 1);
        }
      }
      if i: nat :| FirstBelow(a, b, i) && i > 0 {
        assert a[..i][0] == b[..i][0] && a[..i][1..] == a[1..][..i - 1] && b[..i][1..] == b[1..][..i - 1];
        assert FirstBelow(a[1..], b[1..], i - 1);
      }
    }
  }

  predicate IsLeast(k: PyStr, s: set<PyStr>) {
    k in s && forall j <- s :: Leq(k, j)
  }

  lemma {:induction false} LeastExists(s: set<PyStr>)
    requires s != {}
    ensures exists k :: IsLeast(k, s)
  {
    var x :| x in s;
    LeqTotal(x, x);
    if s == {x} {
      assert IsLeast(x, s);
    } else {
      LeastExists(s - {x});
      var k :| IsLeast(k, s - {x});
      LeqTotal(x, k);
      if Leq(k, x) {
        assert IsLeast(k, s);
      } else {
        forall j | j in s ensures Leq(x, j) {
          if j != x { LeqTransitive(x, k, j); }
        }
        assert IsLeast(x, s);
      }
    }
  }

  lemma {:induction false} LeastUnique(s: set<PyStr>)
    ensures forall j, k :: IsLeast(j, s) && IsLeast(k, s) ==> j == k
  {
    forall j, k | IsLeast(j, s) && IsLeast(k, s) ensures j == k {
      LeqAntisymmetric(j, k);
    }
  }

  /** The keys of a dictionary in the order `sort_keys=True` writes them. */
  function SortedKeys(s: set<PyStr>): (keys: seq<PyStr>)
    ensures forall k :: k in keys <==> k in s
    ensures forall i, j :: 0 <= i < j < |keys| ==> Leq(keys[i], keys[j]) && keys[i] != keys[j]
    decreases |s|
  {
    if s == {} then [] else
      LeastExists(s);
      LeastUnique(s);
      var k :| IsLeast(k, s);
      [k] + SortedKeys(s - {k})
  }

  // ----- decimal -----

  function Digit(d: int): char
    requires 0 <= d < 10
  {
    '0' + d as char
  }

  predicate IsDigit(c: char) { '0' <= c <= '9' }

  function DigitValue(c: char): nat
    requires IsDigit(c)
  {
    (c - '0') as int
  }

  /** `str(n)` for a natural number. */
  function Decimal(n: nat): (s: string)
    ensures s != [] && forall c <- s :: IsDigit(c)
    ensures s[0] == '0' ==> n == 0 && s == "0"
  {
    if n < 10 then [Digit(n)] else Decimal(n / 10) + [Digit(n % 10)]
  }

  function DecimalValue(s: string): nat
    requires forall c <- s :: IsDigit(c)
  {
    if s == [] then 0 else 10 * DecimalValue(s[..|s| - 1]) + DigitValue(s[|s| - 1])
  }

  lemma {:induction false} DecimalRoundTrip(n: nat)
    ensures DecimalValue(Decimal(n)) == n
  {
    var s := Decimal(n);
    if n < 10 {
      assert s[..|s| - 1] == [];
    } else {
      assert s[..|s| - 1] == Decimal(n / 10);
      DecimalRoundTrip(n / 10);
    }
  }

  lemma {:induction false} DecimalInjective(m: nat, n: nat)
    requires Decimal(m) == Decimal(n)
    ensures m == n
  {
    DecimalRoundTrip(m);
    DecimalRoundTrip(n);
  }

  // ----- hexadecimal -----

  /** A lower-case hexadecimal digit. */
  function HexDigit(d: int): (c: char)
    requires 0 <= d < 16
  {
    if d < 10 then '0' + d as char else 'a' + (d - 10) as char
  }

  /** The value of a hexadecimal digit in either case, or -1. */
  function HexValue(c: char): (v: int)
    ensures -1 <= v < 16
  {
    if '0' <= c <= '9' then (c - '0') as int
    else if 'a' <= c <= 'f' then (c - 'a') as int + 10
    else if 'A' <= c <= 'F' then (c - 'A') as int + 10
    else -1
  }

  lemma {:induction false} HexDigitRoundTrip(d: int)
    requires 0 <= d < 16
    ensures HexValue(HexDigit(d)) == d
  {}

  /** `f"{n:04x}"` for a 16-bit number. */
  function Hex4(n: int): (s: string)
    requires 0 <= n < 0x1_0000
    ensures |s| == 4
    ensures forall c <- s :: '0' <= c <= '9' || 'a' <= c <= 'f'
  {
    var q := n / 16;
    var r := q / 16;
    [HexDigit(r / 16), HexDigit(r % 16), HexDigit(q % 16), HexDigit(n % 16)]
  }

  function Hex4Value(s: string): int
    requires |s| == 4
  {
    4096 * HexValue(s[0]) + 256 * HexValue(s[1]) + 16 * HexValue(s[2]) + HexValue(s[3])
  }

  lemma {:induction false} Hex4RoundTrip(n: int)
    requires 0 <= n < 0x1_0000
    ensures Hex4Value(Hex4(n)) == n
    ensures forall c <- Hex4(n) :: HexValue(c) >= 0
  {
    var q := n / 16;
    var r := q / 16;
    HexDigitRoundTrip(r / 16);
    HexDigitRoundTrip(r % 16);
    HexDigitRoundTrip(q % 16);
    HexDigitRoundTrip(n % 16);
    assert n == 16 * q + n % 16 && q == 16 * r + q % 16 && r == 16 * (r / 16) + r % 16;
  }

  lemma {:induction false} Hex4Injective(m: int, n: int)
    requires 0 <= m < 0x1_0000 && 0 <= n < 0x1_0000
    requires Hex4(m) == Hex4(n)
    ensures m == n
  {
    Hex4RoundTrip(m);
    Hex4RoundTrip(n);
  }
}
