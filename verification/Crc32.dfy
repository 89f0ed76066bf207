/**
 CRC-32 IEEE, the checksum of every log and snapshot record: the reflected
 register of section 8 of RFC 1952 and section 8.1.1.6.2 of ITU-T V.42.
 A register is 32 bits, least significant first.
 */
module Crc32 {
  import opened Bytes

  type Bits = seq<bool>
  const ONES: Bits := [
    true, true, true, true, true, true, true, true, true, true, true, true, true, true, true, true,
    true, true, true, true, true, true, true, true, true, true, true, true, true, true, true, true]

  type Register = r: Bits | |r| == 32 witness ONES

  /** 0xEDB88320, least significant bit first. */
  const POLYNOMIAL: Register := [
    false, false, false, false, false, true, false, false,
    true, true, false, false, false, false, false, true,
    false, false, false, true, true, true, false, true,
    true, false, true, true, false, true, true, true]

  function Xor(a: Bits, b: Bits): (c: Bits)
    requires |a| == |b|
    ensures |c| == |a|
    ensures forall i :: 0 <= i < |a| ==> c[i] == (a[i] != b[i])
  {
    if a == [] then [] else [a[0] != b[0]] + Xor(a[1..], b[1..])
  }

  /** One shift of the register, with `feedback` deciding whether the polynomial is added. */
  function Shift(r: Register, feedback: bool): Register
  {
    if feedback then Xor(r[1..] + [false], POLYNOMIAL) else r[1..] + [false]
  }

  function Shifts(r: Register, n: nat): Register
    decreases n
  {
    if n == 0 then r else Shifts(Shift(r, r[0]), n - 1)
  }

  /** Adds `u` into the low bits of the register. */
  function XorLow(r: Register, u: Bits): Register
    requires |u| <= 32
  {
    Xor(r[..|u|], u) + r[|u|..]
  }

  /** The low `n` bits of `x`, least significant first. */
  function BitsOf(x: nat, n: nat): (u: Bits)
    ensures |u| == n
  {
    if n == 0 then [] else [x % 2 == 1] + BitsOf(x / 2, n - 1)
  }

  function FromBits(u: Bits): nat
  {
    if u == [] then 0 else (if u[0] then 1 else 0) + 2 * FromBits(u[1..])
  }

  /** The byte-wise algorithm: add the byte to the register, then shift eight times. */
  function UpdateByte(r: Register, b: Byte): Register
  {
    Shifts(XorLow(r, BitsOf(b, 8)), 8)
  }

  function Update(r: Register, p: seq<Byte>): Register
    decreases p
  {
    if p == [] then r else Update(UpdateByte(r, p[0]), p[1..])
  }

  function Checksum(p: seq<Byte>): nat
  {
    FromBits(Xor(Update(ONES, p), ONES))
  }

  // ------------------------------------------------- one bit at a time

  /** The bit-serial division: the next message bit joins the outgoing bit as feedback. */
  function FeedBit(r: Register, bit: bool): Register
  {
    Shift(r, r[0] != bit)
  }

  function Feed(r: Register, u: Bits): Register
    decreases u
  {
    if u == [] then r else Feed(FeedBit(r, u[0]), u[1..])
  }

  function MessageBits(p: seq<Byte>): (u: Bits)
    ensures |u| == 8 * |p|
  {
    if p == [] then [] else BitsOf(p[0], 8) + MessageBits(p[1..])
  }

  lemma ShiftAt(r: Register, feedback: bool, i: nat)
    requires i < 32
    ensures Shift(r, feedback)[i] == ((i < 31 && r[i + 1]) != (feedback && POLYNOMIAL[i]))
  {
  }

  lemma XorLowAt(r: Register, u: Bits, i: nat)
    requires |u| <= 32 && i < 32
    ensures XorLow(r, u)[i] == (r[i] != (i < |u| && u[i]))
  {
  }

  /** One shift of a register that bits were added to is one fed bit and the rest still added. */
  lemma ShiftXorLow(r: Register, u: Bits)
    requires 0 < |u| <= 32
    ensures var x := XorLow(r, u);
            Shift(x, x[0]) == XorLow(FeedBit(r, u[0]), u[1..])
  {
    hide Shift, XorLow;
    var x := XorLow(r, u);
    var y, z := Shift(x, x[0]), XorLow(FeedBit(r, u[0]), u[1..]);
    XorLowAt(r, u, 0);
    forall i | 0 <= i < 32
      ensures y[i] == z[i]
    {
      ShiftAt(x, x[0], i);
      ShiftAt(r, r[0] != u[0], i);
      XorLowAt(FeedBit(r, u[0]), u[1..], i);
      if i < 31 {
        XorLowAt(r, u, i + 1);
      }
    }
  }

  /** Adding several bits at once and shifting is the same as feeding them one by one. */
  lemma {:induction false} ShiftsFeed(r: Register, u: Bits, n: nat)
    requires n == |u| <= 32
    ensures Shifts(XorLow(r, u), n) == Feed(r, u)
    decreases n
  {
    if n == 0 {
      assert XorLow(r, u) == r;
    } else {
      hide Shift, XorLow, FeedBit;
      ShiftXorLow(r, u);
      ShiftsFeed(FeedBit(r, u[0]), u[1..], n - 1);
    }
  }

  lemma {:induction false} FeedConcat(r: Register, u: Bits, v: Bits)
    ensures Feed(r, u + v) == Feed(Feed(r, u), v)
    decreases u
  {
    if u == [] {
      assert u + v == v;
    } else {
      assert (u + v)[1..] == u[1..] + v;
      FeedConcat(FeedBit(r, u[0]), u[1..], v);
    }
  }

  /** The byte-wise checksum is the bit-serial division of the message. */
  lemma {:induction false} UpdateIsDivision(r: Register, p: seq<Byte>)
    ensures Update(r, p) == Feed(r, MessageBits(p))
    decreases p
  {
    if p != [] {
      var u := BitsOf(p[0], 8);
      ShiftsFeed(r, u, 8);
      UpdateIsDivision(UpdateByte(r, p[0]), p[1..]);
      FeedConcat(r, u, MessageBits(p[1..]));
    }
  }

  // ------------------------------------------------- what is detected

  /**
   Two runs of at most 32 bits that end in one register started from registers
   that differ exactly where the messages differ.
   */
  lemma {:induction false} FeedDifference(r: Register, s: Register, u: Bits, v: Bits)
    requires |u| == |v| <= 32
    requires Feed(r, u) == Feed(s, v)
    ensures forall i :: 0 <= i < |u| ==> ((r[i] != s[i]) <==> (u[i] != v[i]))
    ensures forall i :: |u| <= i < 32 ==> r[i] == s[i]
    decreases u
  {
    if u != [] {
      var r', s' := FeedBit(r, u[0]), FeedBit(s, v[0]);
      var u', v' := u[1..], v[1..];
      FeedDifference(r', s', u', v');
      assert r'[31] == s'[31];  // the top bit is the feedback
      forall i | 0 <= i < 31
        ensures (r[i + 1] != s[i + 1]) <==> (r'[i] != s'[i])
      {
      }
      forall i | 0 <= i < |u|
        ensures (r[i] != s[i]) <==> (u[i] != v[i])
      {
        if i > 0 {
          assert (r'[i - 1] != s'[i - 1]) <==> (u'[i - 1] != v'[i - 1]);
          assert (r[i - 1 + 1] != s[i - 1 + 1]) <==> (r'[i - 1] != s'[i - 1]);
        }
      }
      forall i | |u| <= i < 32
        ensures r[i] == s[i]
      {
        assert r'[i - 1] == s'[i - 1];
        assert (r[i - 1 + 1] != s[i - 1 + 1]) <==> (r'[i - 1] != s'[i - 1]);
      }
    }
  }

  /** Registers that differ keep differing over equal bits. */
  lemma {:induction false} FeedInjective(r: Register, s: Register, u: Bits)
    requires Feed(r, u) == Feed(s, u)
    ensures r == s
    decreases u
  {
    if u != [] {
      var r', s' := FeedBit(r, u[0]), FeedBit(s, u[0]);
      FeedInjective(r', s', u[1..]);
      var one := [u[0]];
      assert Feed(r, one) == r' by { assert one[1..] == []; }
      assert Feed(s, one) == s' by { assert one[1..] == []; }
      FeedDifference(r, s, one, one);
      assert r == s;
    }
  }

  function Pow2(n: nat): (p: nat)
    ensures p >= 1
  {
    if n == 0 then 1 else 2 * Pow2(n - 1)
  }

  lemma {:induction false} BitsOfInjective(x: nat, y: nat, n: nat)
    requires x < Pow2(n) && y < Pow2(n)
    requires BitsOf(x, n) == BitsOf(y, n)
    ensures x == y
  {
    if n > 0 {
      var u, v := BitsOf(x, n), BitsOf(y, n);
      assert u[1..] == BitsOf(x / 2, n - 1) && v[1..] == BitsOf(y / 2, n - 1);
      assert u[0] == v[0];
      BitsOfInjective(x / 2, y / 2, n - 1);
    }
  }

  lemma {:induction false} FromBitsBound(u: Bits)
    ensures FromBits(u) < Pow2(|u|)
  {
    if u != [] {
      FromBitsBound(u[1..]);
    }
  }

  lemma {:induction false} FromBitsInjective(u: Bits, v: Bits)
    requires |u| == |v|
    requires FromBits(u) == FromBits(v)
    ensures u == v
  {
    if u != [] {
      FromBitsInjective(u[1..], v[1..]);
      assert u == [u[0]] + u[1..];
      assert v == [v[0]] + v[1..];
    }
  }

  lemma {:induction false} NoBits(u: Bits)
    requires forall i :: 0 <= i < |u| ==> !u[i]
    ensures FromBits(u) == 0
  {
    if u != [] {
      NoBits(u[1..]);
    }
  }

  lemma ChecksumOfNothing()
    ensures Checksum([]) == 0
  {
    NoBits(Xor(ONES, ONES));
  }

  lemma ChecksumBound(p: seq<Byte>)
    ensures Checksum(p) < 0x1_0000_0000
  {
    assert Pow2(8) == 0x100;
    assert Pow2(16) == 0x1_0000;
    assert Pow2(24) == 0x100_0000;
    assert Pow2(32) == 0x1_0000_0000;
    hide Pow2, Update;
    FromBitsBound(Xor(Update(ONES, p), ONES));
  }

  lemma {:induction false} MessageBitsConcat(p: seq<Byte>, q: seq<Byte>)
    ensures MessageBits(p + q) == MessageBits(p) + MessageBits(q)
  {
    if p == [] {
      assert p + q == q;
    } else {
      assert (p + q)[1..] == p[1..] + q;
      MessageBitsConcat(p[1..], q);
    }
  }

  lemma {:induction false} MessageBitsInjective(p: seq<Byte>, q: seq<Byte>)
    requires |p| == |q|
    requires MessageBits(p) == MessageBits(q)
    ensures p == q
  {
    if p != [] {
      var u, v := MessageBits(p), MessageBits(q);
      assert BitsOf(p[0], 8) == u[..8] && BitsOf(q[0], 8) == v[..8];
      assert MessageBits(p[1..]) == u[8..] && MessageBits(q[1..]) == v[8..];
      assert Pow2(8) == 256;
      BitsOfInjective(p[0], q[0], 8);
      MessageBitsInjective(p[1..], q[1..]);
      assert p == [p[0]] + p[1..];
      assert q == [q[0]] + q[1..];
    }
  }

  lemma SplitFeed(r: Register, a: seq<Byte>, w: seq<Byte>, c: seq<Byte>)
    ensures Update(r, a + w + c) == Feed(Feed(Feed(r, MessageBits(a)), MessageBits(w)), MessageBits(c))
  {
    UpdateIsDivision(r, a + w + c);
    MessageBitsConcat(a + w, c);
    MessageBitsConcat(a, w);
    FeedConcat(r, MessageBits(a) + MessageBits(w), MessageBits(c));
    FeedConcat(r, MessageBits(a), MessageBits(w));
  }

  lemma BurstChangesFeed(base: Register, u: Bits, v: Bits, tail: Bits)
    requires |u| == |v| <= 32
    requires Feed(Feed(base, u), tail) == Feed(Feed(base, v), tail)
    ensures u == v
  {
    hide *;
    FeedInjective(Feed(base, u), Feed(base, v), tail);
    FeedDifference(base, base, u, v);
    forall i | 0 <= i < |u|
      ensures u[i] == v[i]
    {
    }
  }

  lemma BurstChangesRegister(r: Register, a: seq<Byte>, w: seq<Byte>, w': seq<Byte>, c: seq<Byte>)
    requires |w| == |w'| <= 4
    requires Update(r, a + w + c) == Update(r, a + w' + c)
    ensures w == w'
  {
    hide *;
    assert |MessageBits(w)| == |MessageBits(w')| == 8 * |w|;
    SplitFeed(r, a, w, c);
    SplitFeed(r, a, w', c);
    BurstChangesFeed(Feed(r, MessageBits(a)), MessageBits(w), MessageBits(w'), MessageBits(c));
    MessageBitsInjective(w, w');
  }

  lemma XorCancels(r: Register, s: Register, x: Register)
    requires Xor(r, x) == Xor(s, x)
    ensures r == s
  {
    forall i | 0 <= i < 32
      ensures r[i] == s[i]
    {
      assert Xor(r, x)[i] == Xor(s, x)[i];
    }
  }

  /** Any change confined to four neighbouring bytes changes the checksum. */
  lemma BurstChangesChecksum(a: seq<Byte>, w: seq<Byte>, w': seq<Byte>, c: seq<Byte>)
    requires |w| == |w'| <= 4
    requires w != w'
    ensures Checksum(a + w + c) != Checksum(a + w' + c)
  {
    var ones: Register := ONES;
    var r, s := Update(ones, a + w + c), Update(ones, a + w' + c);
    if Checksum(a + w + c) == Checksum(a + w' + c) {
      FromBitsInjective(Xor(r, ones), Xor(s, ones));
      XorCancels(r, s, ones);
      BurstChangesRegister(ones, a, w, w', c);
    }
  }
}
