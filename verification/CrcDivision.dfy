/**
 The checksum as polynomial arithmetic over GF(2), without any register: it is the one remainder of
 the message, as section 8.1.1.6.2 of ITU-T V.42 defines it. A polynomial is the sequence of its
 coefficients, highest power first, and adding is exclusive or.
 */
module CrcDivision {
  import opened Bytes
  import opened Crc32

  /** The powers of the generator. */
  const POWERS: set<int> := {32, 26, 23, 22, 16, 12, 11, 10, 8, 7, 5, 4, 2, 1, 0}

  function PowersBelow(n: nat): (g: Bits)
    ensures |g| == n
    ensures forall i :: 0 <= i < n ==> (g[i] <==> n - 1 - i in POWERS)
  {
    if n == 0 then [] else [n - 1 in POWERS] + PowersBelow(n - 1)
  }

  function Generator(): (g: Bits)
    ensures |g| == 33
    ensures forall i :: 0 <= i <= 32 ==> (g[i] <==> 32 - i in POWERS)
  {
    PowersBelow(33)
  }

  function Blank(n: nat): (z: Bits)
    ensures |z| == n
    ensures forall i :: 0 <= i < n ==> !z[i]
  {
    if n == 0 then [] else [false] + Blank(n - 1)
  }

  /** The product of two polynomials. */
  function Times(q: Bits, g: Bits): (u: Bits)
    requires g != []
    ensures |u| == |q| + |g| - 1
  {
    if q == [] then Blank(|g| - 1)
    else Xor(if q[0] then g + Blank(|q| - 1) else Blank(|q| + |g| - 1), [false] + Times(q[1..], g))
  }

  lemma {:induction false} BitAt(x: nat, n: nat, i: nat)
    requires i < n
    ensures BitsOf(x, n)[i] <==> (x / Pow2(i)) % 2 == 1
  {
    if i > 0 {
      BitAt(x / 2, n - 1, i - 1);
      DivTwice(x, 2, Pow2(i - 1));
    }
  }

  /** The bits of a message are those of its bytes in order, each from the least significant bit. */
  lemma {:induction false} MessageBitAt(p: seq<Byte>, j: nat, i: nat)
    requires j < |p| && i < 8
    ensures MessageBits(p)[8 * j + i] <==> (p[j] / Pow2(i)) % 2 == 1
  {
    if j == 0 {
      BitAt(p[0], 8, i);
    } else {
      hide BitsOf, Pow2;
      MessageBitAt(p[1..], j - 1, i);
      assert MessageBits(p)[8 * j + i] == MessageBits(p[1..])[8 * (j - 1) + i];
    }
  }

  // ------------------------------------------------------------- the quotient

  /** The bits of the quotient are the feedbacks of the register. */
  function Quotient(r: Register, u: Bits): (q: Bits)
    ensures |q| == |u|
    decreases u
  {
    if u == [] then [] else [r[0] != u[0]] + Quotient(FeedBit(r, u[0]), u[1..])
  }

  /** `u` times x^32, plus `r` on top of it. */
  function Shifted(r: Register, u: Bits): (d: Bits)
    ensures |d| == |u| + 32
  {
    Xor(u + Blank(32), r + Blank(|u|))
  }

  /** A multiple of the generator, plus a remainder. */
  function Recombined(q: Bits, r: Bits): (d: Bits)
    requires |r| == 32
    ensures |d| == |q| + 32
  {
    Xor(Times(q, Generator()), Blank(|q|) + r)
  }

  lemma PowersListed(i: nat)
    requires i <= 32
    ensures ([true] + POLYNOMIAL)[i] <==> 32 - i in POWERS
  {
  }

  lemma GeneratorIsPolynomial()
    ensures Generator() == [true] + POLYNOMIAL
  {
    var g, h := Generator(), [true] + POLYNOMIAL;
    forall i | 0 <= i <= 32
      ensures g[i] == h[i]
    {
      PowersListed(i);
    }
  }

  lemma TimesCons(b: bool, q: Bits, g: Bits)
    requires g != []
    ensures Times([b] + q, g) == Xor(if b then g + Blank(|q|) else Blank(|q| + |g|), [false] + Times(q, g))
  {
    hide Xor, Blank;
    assert ([b] + q)[1..] == q;
  }

  lemma TimesAt(b: bool, q: Bits, g: Bits, i: nat)
    requires g != [] && i < |q| + |g|
    ensures Times([b] + q, g)[i] == ((b && i < |g| && g[i]) != (i > 0 && Times(q, g)[i - 1]))
  {
    hide Times, Xor, Blank;
    TimesCons(b, q, g);
  }

  lemma ShiftedAt(r: Register, u: Bits, i: nat)
    requires i < |u| + 32
    ensures Shifted(r, u)[i] == ((i < |u| && u[i]) != (i < 32 && r[i]))
  {
  }

  lemma RecombinedAt(q: Bits, r: Bits, i: nat)
    requires |r| == 32 && i < |q| + 32
    ensures Recombined(q, r)[i] == (Times(q, Generator())[i] != (i >= |q| && r[i - |q|]))
  {
    hide Generator, Times;
  }

  lemma FeedCons(r: Register, u: Bits)
    requires u != []
    ensures Feed(r, u) == Feed(FeedBit(r, u[0]), u[1..])
    ensures Quotient(r, u) == [r[0] != u[0]] + Quotient(FeedBit(r, u[0]), u[1..])
  {
    hide FeedBit;
  }

  lemma FeedBitAt(r: Register, bit: bool, i: nat)
    requires 0 < i <= 32
    ensures FeedBit(r, bit)[i - 1] == ((i < 32 && r[i]) != ((r[0] != bit) && Generator()[i]))
  {
    hide Shift, Generator;
    ShiftAt(r, r[0] != bit, i - 1);
    GeneratorIsPolynomial();
  }

  /** One position of the division, from the one before it. */
  lemma DivideAt(r: Register, u: Bits, s: Register, q: Bits, i: nat)
    requires u != [] && |q| == |u| - 1 && 0 < i < |u| + 32
    requires Shifted(FeedBit(r, u[0]), u[1..])[i - 1] == Recombined(q, s)[i - 1]
    ensures Shifted(r, u)[i] == Recombined([r[0] != u[0]] + q, s)[i]
  {
    hide Shifted, Recombined, Times, FeedBit, Generator;
    var b, r' := r[0] != u[0], FeedBit(r, u[0]);
    ShiftedAt(r, u, i);
    ShiftedAt(r', u[1..], i - 1);
    RecombinedAt([b] + q, s, i);
    RecombinedAt(q, s, i - 1);
    TimesAt(b, q, Generator(), i);
    if i <= 32 {
      FeedBitAt(r, u[0], i);
    }
  }

  lemma DivideFirst(r: Register, u: Bits, s: Register, q: Bits)
    requires u != [] && |q| == |u| - 1
    ensures Shifted(r, u)[0] == Recombined([r[0] != u[0]] + q, s)[0]
  {
    hide Shifted, Recombined, Times, Generator;
    var b := r[0] != u[0];
    ShiftedAt(r, u, 0);
    RecombinedAt([b] + q, s, 0);
    TimesAt(b, q, Generator(), 0);
    GeneratorIsPolynomial();
  }

  lemma NothingDivided(r: Register)
    ensures Shifted(r, []) == Recombined([], r)
  {
    hide Generator;
    forall i | 0 <= i < 32
      ensures Shifted(r, [])[i] == Recombined([], r)[i]
    {
      ShiftedAt(r, [], i);
      RecombinedAt([], r, i);
    }
  }

  /** Feeding the register divides by the generator. */
  lemma {:induction false} FeedDivides(r: Register, u: Bits)
    ensures Shifted(r, u) == Recombined(Quotient(r, u), Feed(r, u))
    decreases u
  {
    if u == [] {
      hide Shifted, Recombined;
      NothingDivided(r);
    } else {
      hide Shifted, Recombined, FeedBit, Feed, Quotient;
      var r', u' := FeedBit(r, u[0]), u[1..];
      FeedDivides(r', u');
      FeedCons(r, u);
      DivideFirst(r, u, Feed(r', u'), Quotient(r', u'));
      forall i | 0 < i < |u| + 32
        ensures Shifted(r, u)[i] == Recombined(Quotient(r, u), Feed(r, u))[i]
      {
        DivideAt(r, u, Feed(r', u'), Quotient(r', u'), i);
      }
    }
  }

  // ------------------------------------------------------------- the remainder

  lemma FirstBit(q: Bits, r: Bits)
    requires q != [] && |r| == 32
    ensures Recombined(q, r)[0] == q[0]
  {
    hide Recombined, Times, Generator;
    assert q == [q[0]] + q[1..];
    RecombinedAt(q, r, 0);
    TimesAt(q[0], q[1..], Generator(), 0);
    GeneratorIsPolynomial();
  }

  lemma LaterBit(q: Bits, r: Bits, i: nat)
    requires q != [] && |r| == 32 && i < |q| + 31
    ensures Recombined(q[1..], r)[i] == (Recombined(q, r)[i + 1] != (q[0] && i < 32 && Generator()[i + 1]))
  {
    hide Recombined, Times, Generator;
    assert q == [q[0]] + q[1..];
    RecombinedAt(q, r, i + 1);
    RecombinedAt(q[1..], r, i);
    TimesAt(q[0], q[1..], Generator(), i + 1);
  }

  /** Two ways to write a polynomial as a multiple of the generator plus a remainder are the same. */
  lemma {:induction false} RemainderUnique(q: Bits, r: Bits, q': Bits, r': Bits)
    requires |q| == |q'| && |r| == |r'| == 32 && Recombined(q, r) == Recombined(q', r')
    ensures q == q' && r == r'
  {
    if q == [] {
      hide Recombined, Generator;
      forall i | 0 <= i < 32
        ensures r[i] == r'[i]
      {
        RecombinedAt([], r, i);
        RecombinedAt([], r', i);
      }
    } else {
      hide Recombined, Times, Generator;
      FirstBit(q, r);
      FirstBit(q', r');
      forall i | 0 <= i < |q| + 31
        ensures Recombined(q[1..], r)[i] == Recombined(q'[1..], r')[i]
      {
        LaterBit(q, r, i);
        LaterBit(q', r', i);
      }
      RemainderUnique(q[1..], r, q'[1..], r');
      assert q == [q[0]] + q[1..] && q' == [q'[0]] + q'[1..];
    }
  }

  lemma {:induction false} BitsRead(u: Bits)
    ensures BitsOf(FromBits(u), |u|) == u
  {
    if u != [] {
      BitsRead(u[1..]);
      assert u == [u[0]] + u[1..];
    }
  }

  /** The message times x^32, with its first 32 coefficients flipped. */
  function Dividend(p: seq<Byte>): (d: Bits)
    ensures |d| == 8 * |p| + 32
  {
    Xor(MessageBits(p) + Blank(32), ONES + Blank(8 * |p|))
  }

  /** The remainder that a checksum stands for: its 32 bits, each flipped. */
  function Remainder(c: nat): (r: Bits)
    ensures |r| == 32
  {
    Xor(BitsOf(c, 32), ONES)
  }

  lemma XorTwice(r: Bits, x: Bits)
    requires |r| == |x|
    ensures Xor(Xor(r, x), x) == r
  {
  }

  lemma ChecksumRemainder(p: seq<Byte>)
    ensures Remainder(Checksum(p)) == Update(ONES, p)
  {
    hide Update, Xor, BitsOf, FromBits;
    BitsRead(Xor(Update(ONES, p), ONES));
    XorTwice(Update(ONES, p), ONES);
  }

  lemma Pow32()
    ensures Pow2(32) == 0x1_0000_0000
  {
    assert Pow2(8) == 0x100;
    assert Pow2(16) == 0x1_0000;
    assert Pow2(24) == 0x100_0000;
  }

  lemma RemainderInjective(p: seq<Byte>, c: nat)
    requires c < 0x1_0000_0000 && Remainder(c) == Remainder(Checksum(p))
    ensures c == Checksum(p)
  {
    hide Checksum, BitsOf, Pow2;
    ChecksumBound(p);
    XorCancels(BitsOf(c, 32), BitsOf(Checksum(p), 32), ONES);
    Pow32();
    BitsOfInjective(c, Checksum(p), 32);
  }

  /**
   The checksum of a message is the remainder of its division by the generator: it is the one number
   of 32 bits for which the message is a multiple of the generator plus that remainder.
   */
  lemma ChecksumIff(p: seq<Byte>, c: nat)
    requires c < 0x1_0000_0000
    ensures c == Checksum(p) <==>
            exists q :: |q| == 8 * |p| && Dividend(p) == Recombined(q, Remainder(c))
  {
    hide Recombined, Checksum, Update, Feed, Remainder, BitsOf;
    var ones: Register := ONES;
    UpdateIsDivision(ones, p);
    FeedDivides(ones, MessageBits(p));
    ChecksumRemainder(p);
    var q0 := Quotient(ones, MessageBits(p));
    assert Dividend(p) == Recombined(q0, Remainder(Checksum(p)));
    if q :| |q| == 8 * |p| && Dividend(p) == Recombined(q, Remainder(c)) {
      RemainderUnique(q, Remainder(c), q0, Remainder(Checksum(p)));
      RemainderInjective(p, c);
    }
  }
}
