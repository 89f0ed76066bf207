/**
 Bytes, the big-endian integers of the record format, and the byte-wise
 order in which Go compares strings.
 */
module Bytes {

  type Byte = x: int | 0 <= x < 256

  function Pow256(n: nat): (p: nat)
    ensures p >= 1
  {
    if n == 0 then 1 else 256 * Pow256(n - 1)
  }

  /** The low `n` bytes of `x`, most significant first: PutUint16, PutUint32 and PutUint64. */
  function BigEndian(x: nat, n: nat): (b: seq<Byte>)
    ensures |b| == n
  {
    if n == 0 then [] else BigEndian(x / 256, n - 1) + [x % 256]
  }

  /** Uint16, Uint32 and Uint64. */
  function FromBigEndian(b: seq<Byte>): nat
  {
    if b == [] then 0 else 256 * FromBigEndian(b[..|b| - 1]) + b[|b| - 1]
  }

  lemma MulAtLeast(d: int, k: int)
    requires d > 0 && k >= 1
    ensures d * k >= d && d * -k <= -d
  {
  }

  lemma DivModUnique(x: int, d: int, q: int, r: int)
    requires 0 <= r < d && x == d * q + r
    ensures x % d == r
  {
    var k := q - x / d;
    assert d * k == x % d - r by {
      assert x == d * (x / d) + x % d;
      assert d * k == d * q - d * (x / d);
    }
    if k >= 1 {
      MulAtLeast(d, k);
    } else if k <= -1 {
      MulAtLeast(d, -k);
    }
  }

  lemma DivModSplit(x: nat, p: nat)
    requires p >= 1
    ensures x % (256 * p) == 256 * ((x / 256) % p) + x % 256
  {
    var q := x / 256;
    assert q == p * (q / p) + q % p;
    var r := 256 * (q % p) + x % 256;
    assert x == (256 * p) * (q / p) + r by {
      assert x == 256 * q + x % 256;
      assert 256 * (p * (q / p)) == (256 * p) * (q / p);
    }
    assert 0 <= r < 256 * p by { assert q % p <= p - 1; }
    DivModUnique(x, 256 * p, q / p, r);
  }

  /** Reading back gives the number that was put, wrapped at the width of the field. */
  lemma {:induction false} BigEndianWraps(x: nat, n: nat)
    ensures FromBigEndian(BigEndian(x, n)) == x % Pow256(n)
  {
    if n > 0 {
      var b := BigEndian(x, n);
      assert b[..|b| - 1] == BigEndian(x / 256, n - 1);
      BigEndianWraps(x / 256, n - 1);
      DivModSplit(x, Pow256(n - 1));
    }
  }

  /** A field that is wide enough loses nothing. */
  lemma BigEndianRoundTrip(x: nat, n: nat)
    requires x < Pow256(n)
    ensures FromBigEndian(BigEndian(x, n)) == x
  {
    BigEndianWraps(x, n);
  }

  lemma FieldWidths()
    ensures Pow256(2) == 0x1_0000
    ensures Pow256(4) == 0x1_0000_0000
    ensures Pow256(8) == 0x1_0000_0000_0000_0000
  {
    assert Pow256(1) == 256;
    assert Pow256(2) == 256 * Pow256(1);
    assert Pow256(3) == 256 * Pow256(2);
    assert Pow256(4) == 256 * Pow256(3);
    assert Pow256(5) == 256 * Pow256(4);
    assert Pow256(6) == 256 * Pow256(5);
    assert Pow256(7) == 256 * Pow256(6);
    assert Pow256(8) == 256 * Pow256(7);
  }

  function Zeros(n: nat): (b: seq<Byte>)
    ensures |b| == n
  {
    if n == 0 then [] else Zeros(n - 1) + [0]
  }

  /** A field wider than its number starts with zeros. */
  lemma {:induction false} LeadingZeros(x: nat, n: nat, m: nat)
    requires m <= n && x < Pow256(m)
    ensures BigEndian(x, n) == Zeros(n - m) + BigEndian(x, m)
  {
    if m > 0 {
      LeadingZeros(x / 256, n - 1, m - 1);
    } else if n > 0 {
      LeadingZeros(0, n - 1, 0);
    }
  }

  lemma {:induction false} ZerosSplit(m: nat, n: nat)
    ensures Zeros(m) + Zeros(n) == Zeros(m + n)
  {
    if n > 0 {
      ZerosSplit(m, n - 1);
    }
  }

  lemma {:induction false} ZerosRead(n: nat)
    ensures FromBigEndian(Zeros(n)) == 0
  {
    if n > 0 {
      assert Zeros(n)[..n - 1] == Zeros(n - 1);
      ZerosRead(n - 1);
    }
  }

  lemma {:induction false} PrefixReads(u: seq<Byte>, v: seq<Byte>)
    ensures FromBigEndian(u + v) >= FromBigEndian(u)
  {
    if v == [] {
      assert u + v == u;
    } else {
      assert (u + v)[..|u + v| - 1] == u + v[..|v| - 1];
      PrefixReads(u, v[..|v| - 1]);
    }
  }

  // ---------------------------------------------------------------- order

  /** Go's `<` on strings. */
  predicate Less(a: seq<Byte>, b: seq<Byte>)
  {
    b != [] && (a == [] || a[0] < b[0] || (a[0] == b[0] && Less(a[1..], b[1..])))
  }

  lemma {:induction false} LessIrreflexive(a: seq<Byte>)
    ensures !Less(a, a)
  {
    if a != [] {
      LessIrreflexive(a[1..]);
    }
  }

  lemma {:induction false} LessTransitive(a: seq<Byte>, b: seq<Byte>, c: seq<Byte>)
    requires Less(a, b) && Less(b, c)
    ensures Less(a, c)
  {
    if a != [] && a[0] == b[0] && b[0] == c[0] {
      LessTransitive(a[1..], b[1..], c[1..]);
    }
  }

  lemma {:induction false} LessTotal(a: seq<Byte>, b: seq<Byte>)
    ensures Less(a, b) || a == b || Less(b, a)
  {
    if a != [] && b != [] && a[0] == b[0] {
      LessTotal(a[1..], b[1..]);
      assert a == [a[0]] + a[1..];
      assert b == [b[0]] + b[1..];
    }
  }

  /** The first position at which the two differ. */
  predicate DiffersAt(a: seq<Byte>, b: seq<Byte>, n: int)
  {
    0 <= n < |a| && n < |b| && a[..n] == b[..n] && a[n] != b[n]
  }

  /** Go's `<` by position: a proper prefix comes first, and otherwise the first difference decides. */
  ghost predicate Before(a: seq<Byte>, b: seq<Byte>)
  {
    || (|a| < |b| && a == b[..|a|])
    || exists n :: DiffersAt(a, b, n) && a[n] < b[n]
  }

  lemma DiffersLater(a: seq<Byte>, b: seq<Byte>, n: int)
    requires a != [] && b != [] && a[0] == b[0]
    ensures DiffersAt(a[1..], b[1..], n) <==> n >= 0 && DiffersAt(a, b, n + 1)
  {
    if 0 <= n < |a| - 1 && n < |b| - 1 {
      assert a[..n + 1] == [a[0]] + a[1..][..n];
      assert b[..n + 1] == [b[0]] + b[1..][..n];
      assert a[1..][..n] == a[..n + 1][1..];
      assert b[1..][..n] == b[..n + 1][1..];
    }
  }

  lemma BeforeTail(a: seq<Byte>, b: seq<Byte>)
    requires a != [] && b != [] && a[0] == b[0]
    ensures Before(a, b) <==> Before(a[1..], b[1..])
  {
    var c, d := a[1..], b[1..];
    assert |a| < |b| ==> b[..|a|] == [b[0]] + d[..|c|];
    assert a == [a[0]] + c;
    if n :| DiffersAt(c, d, n) && c[n] < d[n] {
      DiffersLater(a, b, n);
      assert a[n + 1] < b[n + 1];
    }
    if n :| DiffersAt(a, b, n) && a[n] < b[n] {
      DiffersLater(a, b, n - 1);
      assert c[n - 1] < d[n - 1];
    }
  }

  /** The recursive comparison is the order by position. */
  lemma {:induction false} LessIff(a: seq<Byte>, b: seq<Byte>)
    ensures Less(a, b) <==> Before(a, b)
  {
    if a == [] || b == [] {
    } else if a[0] != b[0] {
      assert DiffersAt(a, b, 0);
    } else {
      LessIff(a[1..], b[1..]);
      BeforeTail(a, b);
    }
  }

  // ------------------------------------------------------- the bytes of a field

  lemma CancelFactor(d: int, a: int, b: int)
    requires d > 0 && d * a == d * b
    ensures a == b
  {
    var k := a - b;
    assert d * k == d * a - d * b;
    if k >= 1 {
      MulAtLeast(d, k);
    } else if k <= -1 {
      MulAtLeast(d, -k);
    }
  }

  lemma DivUnique(x: int, d: int, q: int, r: int)
    requires 0 <= r < d && x == d * q + r
    ensures x / d == q
  {
    DivModUnique(x, d, q, r);
    assert x == d * (x / d) + x % d;
    CancelFactor(d, x / d, q);
  }

  lemma DivTwice(x: nat, c: nat, p: nat)
    requires c > 0 && p > 0
    ensures c * p > 0 && x / (c * p) == (x / c) / p
  {
    var y := x / c;
    var q, r := y / p, y % p;
    MulAtLeast(c, p);
    assert y == p * q + r && x == c * y + x % c;
    assert c * (p * q + r) == (c * p) * q + c * r;
    var s := c * r + x % c;
    assert s < c * p by {
      assert c * r <= c * (p - 1);
      assert c * (p - 1) == c * p - c;
    }
    DivModUnique(x, c * p, q, s);
    DivUnique(x, c * p, q, s);
  }

  /** Byte `i` of a field is the digit of its place, in base 256. */
  lemma {:induction false} BigEndianAt(x: nat, n: nat, i: nat)
    requires i < n
    ensures BigEndian(x, n)[i] == (x / Pow256(n - 1 - i)) % 256
  {
    if i < n - 1 {
      BigEndianAt(x / 256, n - 1, i);
      DivTwice(x, 256, Pow256(n - 2 - i));
    }
  }

  /** Every field reads as the number that writes it. */
  lemma {:induction false} BigEndianOfRead(b: seq<Byte>)
    ensures BigEndian(FromBigEndian(b), |b|) == b
  {
    if b != [] {
      var n := |b| - 1;
      BigEndianOfRead(b[..n]);
      assert FromBigEndian(b) / 256 == FromBigEndian(b[..n]);
      assert b == b[..n] + [b[n]];
    }
  }

  lemma {:induction false} FromBigEndianBound(b: seq<Byte>)
    ensures FromBigEndian(b) < Pow256(|b|)
  {
    if b != [] {
      FromBigEndianBound(b[..|b| - 1]);
    }
  }
}
