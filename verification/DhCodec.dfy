/** dh1080_tcl/base64.c: the loops that write and read base 64, against what they are to write and read. */
module DhCodec {
  import opened Bits
  import opened DhBase64

  /** initb64() */
  method InitB64(b64buf: array<Sextet>)
    requires b64buf.Length == 256
    modifies b64buf
    ensures forall c :: 0 <= c < 256 ==> b64buf[c] == Value(c as char)
  {
    for i := 0 to 256
      invariant forall c :: 0 <= c < i ==> b64buf[c] == 0
    {
      b64buf[i] := 0;
    }
    for i := 0 to 64
      invariant forall c :: 0 <= c < 256 ==> b64buf[c] == if Value(c as char) < i then Value(c as char) else 0
    {
      LetterValue(i);
      b64buf[Letter(i) as int] := i;
    }
  }

  // ---- Bit by bit

  // Bit i of a row of bytes.
  function BitAt(x: seq<Byte>, i: nat): nat
    requires i < 8 * |x|
  {
    ByteBit(x[i / 8], i % 8)
  }

  // The bits of the sextet begun that stand before bit i, as a number.
  function Begun(x: seq<Byte>, i: nat): nat
    requires i <= 8 * |x|
  {
    if i % 6 == 0 then 0 else 2 * Begun(x, i - 1) + BitAt(x, i - 1)
  }

  // Sextet k, whole.
  function Whole(x: seq<Byte>, k: nat): Sextet
    requires 6 * k + 6 <= 8 * |x|
  {
    BegunSmall(x, 6 * k + 5);
    2 * Begun(x, 6 * k + 5) + BitAt(x, 6 * k + 5)
  }

  function Wholes(x: seq<Byte>, k: nat): seq<Sextet>
    requires 6 * k <= 8 * |x|
  {
    if k == 0 then [] else Wholes(x, k - 1) + [Whole(x, k - 1)]
  }

  // What is left of the bits, moved to the front of a sextet.
  function Left(x: seq<Byte>): Sextet {
    BegunSmall(x, 8 * |x|);
    if |x| % 3 == 0 then 0 else if |x| % 3 == 1 then 16 * Begun(x, 8 * |x|) else 4 * Begun(x, 8 * |x|)
  }

  lemma ByteIsBits(b: Byte)
    ensures forall j: nat :: j < 8 ==> 0 <= ByteBit(b, j) <= 1
    ensures b == 128 * ByteBit(b, 0) + 64 * ByteBit(b, 1) + 32 * ByteBit(b, 2) + 16 * ByteBit(b, 3)
                 + 8 * ByteBit(b, 4) + 4 * ByteBit(b, 5) + 2 * ByteBit(b, 6) + ByteBit(b, 7)
  {
    assert Shifted(b, 1) == b / 2 && Shifted(b, 0) == b;
    assert Shifted(b, 2) == Shifted(b, 1) / 2;
    assert Shifted(b, 3) == Shifted(b, 2) / 2;
    assert Shifted(b, 4) == Shifted(b, 3) / 2;
    assert Shifted(b, 5) == Shifted(b, 4) / 2;
    assert Shifted(b, 6) == Shifted(b, 5) / 2;
    assert Shifted(b, 7) == Shifted(b, 6) / 2;
    assert Shifted(b, 7) < 2;
  }

  lemma BitLater(x: seq<Byte>, i: nat)
    requires |x| >= 3 && 24 + i < 8 * |x|
    ensures BitAt(x, 24 + i) == BitAt(x[3..], i)
  {
    assert (24 + i) / 8 == 3 + i / 8 && (24 + i) % 8 == i % 8;
  }

  lemma {:induction false} BegunLater(x: seq<Byte>, i: nat)
    requires |x| >= 3 && 24 + i <= 8 * |x|
    ensures Begun(x, 24 + i) == Begun(x[3..], i)
  {
    assert (24 + i) % 6 == i % 6;
    if i % 6 != 0 {
      BegunLater(x, i - 1);
      BitLater(x, i - 1);
    }
  }

  lemma WholeLater(x: seq<Byte>, k: nat)
    requires |x| >= 3 && 24 + 6 * k + 6 <= 8 * |x|
    ensures Whole(x, 4 + k) == Whole(x[3..], k)
  {
    BegunLater(x, 6 * k + 5);
    BitLater(x, 6 * k + 5);
  }

  lemma {:induction false} WholesLater(x: seq<Byte>, k: nat)
    requires |x| >= 3 && 24 + 6 * k <= 8 * |x|
    ensures Wholes(x, 4 + k) == Wholes(x, 4) + Wholes(x[3..], k)
  {
    if k > 0 {
      WholesLater(x, k - 1);
      WholeLater(x, k - 1);
      assert Wholes(x, 4 + k) == Wholes(x, 4 + (k - 1)) + [Whole(x, 4 + (k - 1))];
      assert Wholes(x[3..], k) == Wholes(x[3..], k - 1) + [Whole(x[3..], k - 1)];
      Assoc(Wholes(x, 4), Wholes(x[3..], k - 1), [Whole(x[3..], k - 1)]);
    } else {
      assert Wholes(x, 4) + [] == Wholes(x, 4);
    }
  }

  lemma Assoc(a: seq<int>, b: seq<int>, c: seq<int>)
    ensures a + b + c == a + (b + c)
  {
  }

  lemma Parts4(b: Byte)
    ensures b / 4 == 32 * ByteBit(b, 0) + 16 * ByteBit(b, 1) + 8 * ByteBit(b, 2) + 4 * ByteBit(b, 3) + 2 * ByteBit(b, 4) + ByteBit(b, 5)
    ensures b % 4 == 2 * ByteBit(b, 6) + ByteBit(b, 7)
  {
    ByteIsBits(b);
  }

  lemma Parts16(b: Byte)
    ensures b / 16 == 8 * ByteBit(b, 0) + 4 * ByteBit(b, 1) + 2 * ByteBit(b, 2) + ByteBit(b, 3)
    ensures b % 16 == 8 * ByteBit(b, 4) + 4 * ByteBit(b, 5) + 2 * ByteBit(b, 6) + ByteBit(b, 7)
  {
    ByteIsBits(b);
  }

  lemma Parts64(b: Byte)
    ensures b / 64 == 2 * ByteBit(b, 0) + ByteBit(b, 1)
    ensures b % 64 == 32 * ByteBit(b, 2) + 16 * ByteBit(b, 3) + 8 * ByteBit(b, 4) + 4 * ByteBit(b, 5) + 2 * ByteBit(b, 6) + ByteBit(b, 7)
  {
    ByteIsBits(b);
  }

  // The sextets that begin in each of the first three bytes.
  lemma BitsOfFirst(x: seq<Byte>)
    requires |x| >= 1
    ensures var a := x[0];
            && Whole(x, 0) == 32 * ByteBit(a, 0) + 16 * ByteBit(a, 1) + 8 * ByteBit(a, 2) + 4 * ByteBit(a, 3) + 2 * ByteBit(a, 4) + ByteBit(a, 5)
            && Begun(x, 8) == 2 * ByteBit(a, 6) + ByteBit(a, 7)
  {
    var a := x[0];
    assert Begun(x, 0) == 0;
    assert Begun(x, 1) == BitAt(x, 0) == ByteBit(a, 0);
    assert Begun(x, 2) == 2 * Begun(x, 1) + ByteBit(a, 1);
    assert Begun(x, 3) == 2 * Begun(x, 2) + ByteBit(a, 2);
    assert Begun(x, 4) == 2 * Begun(x, 3) + ByteBit(a, 3);
    assert Begun(x, 5) == 2 * Begun(x, 4) + ByteBit(a, 4);
    assert Whole(x, 0) == 2 * Begun(x, 5) + ByteBit(a, 5);
    assert Begun(x, 6) == 0;
    assert Begun(x, 7) == ByteBit(a, 6);
    assert Begun(x, 8) == 2 * Begun(x, 7) + ByteBit(a, 7);
  }

  lemma InFirst(x: seq<Byte>)
    requires |x| >= 1
    ensures Whole(x, 0) == Six0(x[0]) && Begun(x, 8) == x[0] % 4
  {
    BitsOfFirst(x);
    Parts4(x[0]);
  }

  lemma BitsOfSecond(x: seq<Byte>)
    requires |x| >= 2
    ensures var b := x[1];
            && Whole(x, 1) == 16 * Begun(x, 8) + (8 * ByteBit(b, 0) + 4 * ByteBit(b, 1) + 2 * ByteBit(b, 2) + ByteBit(b, 3))
            && Begun(x, 16) == 8 * ByteBit(b, 4) + 4 * ByteBit(b, 5) + 2 * ByteBit(b, 6) + ByteBit(b, 7)
  {
    var b := x[1];
    assert Begun(x, 9) == 2 * Begun(x, 8) + ByteBit(b, 0);
    assert Begun(x, 10) == 2 * Begun(x, 9) + ByteBit(b, 1);
    assert Begun(x, 11) == 2 * Begun(x, 10) + ByteBit(b, 2);
    assert Whole(x, 1) == 2 * Begun(x, 11) + ByteBit(b, 3);
    assert Begun(x, 12) == 0;
    assert Begun(x, 13) == ByteBit(b, 4);
    assert Begun(x, 14) == 2 * Begun(x, 13) + ByteBit(b, 5);
    assert Begun(x, 15) == 2 * Begun(x, 14) + ByteBit(b, 6);
    assert Begun(x, 16) == 2 * Begun(x, 15) + ByteBit(b, 7);
  }

  lemma InSecond(x: seq<Byte>)
    requires |x| >= 2
    ensures Whole(x, 1) == Six1(x[0], x[1]) && Begun(x, 16) == x[1] % 16
  {
    InFirst(x);
    BitsOfSecond(x);
    Parts16(x[1]);
  }

  lemma {:induction false} BitsOfThird(x: seq<Byte>)
    requires |x| >= 3
    ensures var c := x[2];
            && Whole(x, 2) == 4 * Begun(x, 16) + (2 * ByteBit(c, 0) + ByteBit(c, 1))
            && Whole(x, 3) == 32 * ByteBit(c, 2) + 16 * ByteBit(c, 3) + 8 * ByteBit(c, 4) + 4 * ByteBit(c, 5) + 2 * ByteBit(c, 6) + ByteBit(c, 7)
  {
    var c := x[2];
    assert Begun(x, 17) == 2 * Begun(x, 16) + ByteBit(c, 0);
    assert Whole(x, 2) == 2 * Begun(x, 17) + ByteBit(c, 1);
    assert Begun(x, 18) == 0;
    assert Begun(x, 19) == ByteBit(c, 2);
    assert Begun(x, 20) == 2 * Begun(x, 19) + ByteBit(c, 3);
    assert Begun(x, 21) == 2 * Begun(x, 20) + ByteBit(c, 4);
    assert Begun(x, 22) == 2 * Begun(x, 21) + ByteBit(c, 5);
    assert Begun(x, 23) == 2 * Begun(x, 22) + ByteBit(c, 6);
    assert Whole(x, 3) == 2 * Begun(x, 23) + ByteBit(c, 7);
  }

  lemma InThird(x: seq<Byte>)
    requires |x| >= 3
    ensures Whole(x, 2) == Six2(x[1], x[2]) && Whole(x, 3) == Six3(x[2])
  {
    InSecond(x);
    BitsOfThird(x);
    Parts64(x[2]);
  }

  lemma {:induction false} WholesOfOne(x: seq<Byte>)
    requires |x| == 1
    ensures Wholes(x, 1) == [Six0(x[0])] && Left(x) == Last1(x[0])
  {
    InFirst(x);
    assert Wholes(x, 1) == [] + [Whole(x, 0)];
  }

  lemma {:induction false} WholesOfTwo(x: seq<Byte>)
    requires |x| == 2
    ensures Wholes(x, 2) == [Six0(x[0]), Six1(x[0], x[1])] && Left(x) == Last2(x[1])
  {
    InFirst(x);
    InSecond(x);
    assert Wholes(x, 1) == [] + [Whole(x, 0)];
    assert Wholes(x, 2) == Wholes(x, 1) + [Whole(x, 1)];
  }

  lemma {:induction false} WholesOfFew(x: seq<Byte>)
    requires |x| < 3
    ensures Wholes(x, |x|) + [Left(x)] == Encoded(x)
  {
    if |x| == 1 {
      WholesOfOne(x);
    } else if |x| == 2 {
      WholesOfTwo(x);
    }
  }

  lemma {:induction false} FourWholes(x: seq<Byte>)
    requires |x| >= 3
    ensures Wholes(x, 4) == [Six0(x[0]), Six1(x[0], x[1]), Six2(x[1], x[2]), Six3(x[2])]
  {
    InFirst(x);
    InSecond(x);
    InThird(x);
    assert Wholes(x, 1) == [] + [Whole(x, 0)];
    assert Wholes(x, 2) == Wholes(x, 1) + [Whole(x, 1)];
    assert Wholes(x, 3) == Wholes(x, 2) + [Whole(x, 2)];
  }

  lemma LeftLater(x: seq<Byte>)
    requires |x| >= 3
    ensures Left(x) == Left(x[3..])
  {
    BegunLater(x, 8 * |x| - 24);
    assert 8 * |x| - 24 == 8 * |x[3..]|;
    ThirdsLeft(|x|);
  }

  lemma ThirdsLeft(n: nat)
    requires n >= 3
    ensures n % 3 == (n - 3) % 3 && 8 * n / 6 == 4 + 8 * (n - 3) / 6
  {
  }

  /** Bit by bit, the sextets come out as in the grouping of RFC 4648, with what is left in the end,
      or a stray zero. */
  lemma {:induction false} BitsGrouped(x: seq<Byte>)
    ensures Wholes(x, 8 * |x| / 6) + [Left(x)] == Encoded(x)
  {
    if |x| < 3 {
      FewBits(|x|);
      WholesOfFew(x);
    } else {
      var k := SixthsOf(|x[3..]|);
      BitsGrouped(x[3..]);
      SixthsLeft(|x|, k);
      GroupedMore(x, k);
    }
  }

  lemma SixthsOf(n: nat) returns (k: nat)
    ensures k == 8 * n / 6
  {
    k := 8 * n / 6;
  }

  lemma SixthsLeft(n: nat, k: nat)
    requires n >= 3 && k == 8 * (n - 3) / 6
    ensures 8 * n / 6 == 4 + k && 24 + 6 * k <= 8 * n
  {
    ThirdsLeft(n);
  }

  lemma FewBits(n: nat)
    requires n < 3
    ensures 8 * n / 6 == n
  {
  }

  lemma GroupedMore(x: seq<Byte>, k: nat)
    requires |x| >= 3 && 24 + 6 * k <= 8 * |x| && Wholes(x[3..], k) + [Left(x[3..])] == Encoded(x[3..])
    ensures Wholes(x, 4 + k) + [Left(x)] == Encoded(x)
  {
    FourWholes(x);
    LeftLater(x);
    WholesLater(x, k);
    EncodedMore(x);
    Assoc(Wholes(x, 4), Wholes(x[3..], k), [Left(x)]);
  }

  lemma BegunSmall(x: seq<Byte>, i: nat)
    requires i <= 8 * |x|
    ensures Begun(x, i) < Pow2(i % 6)
    ensures i % 6 == 2 ==> Begun(x, i) < 4
    ensures i % 6 == 4 ==> Begun(x, i) < 16
    ensures i % 6 == 5 ==> Begun(x, i) < 32
  {
    BegunFits(x, i);
    assert Pow2(2) == 4 && Pow2(4) == 16 && Pow2(5) == 32;
  }

  lemma {:induction false} BegunFits(x: seq<Byte>, i: nat)
    requires i <= 8 * |x|
    ensures Begun(x, i) < Pow2(i % 6)
  {
    if i % 6 != 0 {
      BegunFits(x, i - 1);
      SixBefore(i);
    }
  }

  lemma SixBefore(i: nat)
    requires i % 6 != 0
    ensures (i - 1) % 6 == i % 6 - 1
  {
  }

  // The bit of a byte that a mask with a single bit picks out.
  function Mask(j: nat): nat
    requires j < 8
  {
    if j == 0 then 128 else if j == 1 then 64 else if j == 2 then 32 else if j == 3 then 16
    else if j == 4 then 8 else if j == 5 then 4 else if j == 6 then 2 else 1
  }

  lemma MaskedBit(b: Byte, j: nat)
    requires j < 8
    ensures b / Mask(j) % 2 == ByteBit(b, j)
  {
    assert Shifted(b, 1) == b / 2 && Shifted(b, 0) == b;
    assert Shifted(b, 2) == b / 4;
    assert Shifted(b, 3) == b / 8;
    assert Shifted(b, 4) == b / 16;
    assert Shifted(b, 5) == b / 32;
    assert Shifted(b, 6) == b / 64;
    assert Shifted(b, 7) == b / 128;
  }

  // Bit i, tested with its mask.
  method BitUnder(h: seq<Byte>, i: nat, m: nat) returns (bit: nat)
    requires i < 8 * |h| && m == Mask(i % 8)
    ensures bit == BitAt(h, i)
  {
    MaskedBit(h[i / 8], i % 8);
    bit := h[i / 8] / m % 2;
  }

  method NextMask(m: nat, ghost j: nat) returns (m': nat)
    requires j < 8 && m == Mask(j)
    ensures m' == Mask(if j == 7 then 0 else j + 1)
  {
    m' := m / 2;
    if m' == 0 {
      m' := 128;
    }
  }

  /** htob64(), for at least one byte. */
  method Htob64(h: seq<Byte>) returns (d: string)
    requires |h| < 0x2000_0000
    ensures d == if h == [] then "" else Text(Encoded(h))
  {
    if |h| == 0 {
      return "";
    }
    var l := 8 * |h|;
    var m, t, j := 128, 0, 0;
    d := "";
    for i := 0 to l
      invariant j == i && AtBit(h, i, m, t, d)
    {
      m, t, d := Step(h, i, m, t, d);
      j := j + 1;
    }
    d := PutRest(h, j, t, d);
  }

  // Midway: the mask stands on bit i, and the sextets before it are written or begun.
  ghost predicate AtBit(h: seq<Byte>, i: nat, m: nat, t: nat, d: string) {
    i <= 8 * |h| && m == Mask(i % 8) && t == 2 * Begun(h, i) && d == Text(Wholes(h, i / 6))
  }

  method Step(h: seq<Byte>, i: nat, m0: nat, t0: nat, d0: string) returns (m: nat, t: nat, d: string)
    requires i < 8 * |h| && AtBit(h, i, m0, t0, d0)
    ensures AtBit(h, i + 1, m, t, d)
  {
    var bit := BitUnder(h, i, m0);
    t, d := PutBit(h, i, i + 1, bit, t0, d0);
    m := NextMask(m0, i % 8);
    MaskMoves(i);
  }

  lemma MaskMoves(i: nat)
    ensures Mask((i + 1) % 8) == Mask(if i % 8 == 7 then 0 else i % 8 + 1)
  {
  }

  // Bit i goes into the sextet, which is written once it is whole.
  method PutBit(ghost h: seq<Byte>, ghost i: nat, j: nat, bit: nat, t0: nat, d0: string) returns (t: nat, d: string)
    requires i < 8 * |h| && j == i + 1 && bit == BitAt(h, i) && t0 == 2 * Begun(h, i) && d0 == Text(Wholes(h, i / 6))
    ensures t == 2 * Begun(h, j) && d == Text(Wholes(h, j / 6))
  {
    NextBit(h, i, t0, bit);
    t, d := t0 + bit, d0;
    if j % 6 == 0 {
      d := d + [Letter(t)];
      t := 0;
    }
    t := t * 2;
  }

  // The bits that are left go to the front of a last sextet.
  method PutRest(ghost h: seq<Byte>, j: nat, t0: nat, d0: string) returns (d: string)
    requires j == 8 * |h| && exists m :: AtBit(h, j, m, t0, d0)
    ensures d == Text(Encoded(h))
  {
    var m := 5 - j % 6;
    AllBits(h, t0);
    var t := t0 * if m == 5 then 32 else if m == 3 then 8 else 2;
    d := d0;
    if m != 0 {
      d := d + [Letter(t)];
    }
  }

  lemma NextBit(x: seq<Byte>, i: nat, t: nat, bit: nat)
    requires i < 8 * |x| && t == 2 * Begun(x, i) && bit == BitAt(x, i)
    ensures (i + 1) % 6 != 0 ==> Begun(x, i + 1) == t + bit && (i + 1) / 6 == i / 6
    ensures (i + 1) % 6 == 0 ==> t + bit < 64 && Text(Wholes(x, (i + 1) / 6)) == Text(Wholes(x, i / 6)) + [Letter(t + bit)]
  {
    Sixths(i);
    if (i + 1) % 6 == 0 {
      WholeBit(x, i / 6, t, bit);
    }
  }

  lemma Sixths(i: nat)
    ensures (i + 1) % 6 == 0 ==> i == 6 * (i / 6) + 5 && (i + 1) / 6 == i / 6 + 1
    ensures (i + 1) % 6 != 0 ==> (i + 1) / 6 == i / 6
  {
  }

  // The last bit of sextet k.
  lemma WholeBit(x: seq<Byte>, k: nat, t: nat, bit: nat)
    requires 6 * k + 5 < 8 * |x| && t == 2 * Begun(x, 6 * k + 5) && bit == BitAt(x, 6 * k + 5)
    ensures t + bit < 64 && Text(Wholes(x, k + 1)) == Text(Wholes(x, k)) + [Letter(t + bit)]
  {
    assert Whole(x, k) == t + bit;
  }

  lemma {:induction false} AllBits(x: seq<Byte>, t: nat)
    requires t == 2 * Begun(x, 8 * |x|)
    ensures var m := 5 - 8 * |x| % 6;
            && (m == 5 || m == 3 || m == 1)
            && t * (if m == 5 then 32 else if m == 3 then 8 else 2) == Left(x)
    ensures Text(Encoded(x)) == Text(Wholes(x, 8 * |x| / 6)) + [Letter(Left(x))]
  {
    EightSixths(|x|);
    BitsGrouped(x);
  }

  lemma EightSixths(n: nat)
    ensures n % 3 == 0 ==> 8 * n % 6 == 0
    ensures n % 3 == 1 ==> 8 * n % 6 == 2
    ensures n % 3 == 2 ==> 8 * n % 6 == 4
  {
    var k, r := n / 3, n % 3;
    assert n == 3 * k + r;
    if r == 0 {
      BySix(8 * n, 4 * k, 0);
    } else if r == 1 {
      BySix(8 * n, 4 * k + 1, 2);
    } else {
      BySix(8 * n, 4 * k + 2, 4);
    }
  }

  lemma BySix(n: nat, q: nat, r: nat)
    requires n == 6 * q + r && r < 6
    ensures n % 6 == r
  {
  }

  // ---- Reading

  // The table, and text that can be looked up in it.
  ghost predicate Table(b64buf: seq<Sextet>) {
    |b64buf| == 256 && forall c :: 0 <= c < 256 ==> b64buf[c] == Value(c as char)
  }

  /** b64toh(): drops zeros from the end, and puts bytes together in three phases. A text of nothing
      but zeros would send the first loop past its front. */
  method B64toh(b64buf: array<Sextet>, b: string) returns (d: seq<Byte>)
    requires Table(b64buf[..])
    requires forall i :: 0 <= i < |b| ==> b[i] < 128 as char
    requires |b| >= 2 ==> exists i :: 0 <= i < |b| && Value(b[i]) != 0
    ensures d == Decoded(Strip(Values(b)))
  {
    var l := |b|;
    if l < 2 {
      StripShort(Values(b));
      return [];
    }
    var i := l - 1;
    assert Values(b)[..l] == Values(b);
    while b64buf[b[i] as int] == 0
      invariant 0 <= i < |b| && l == i + 1
      invariant Strip(Values(b)[..l]) == Strip(Values(b))
      invariant exists j :: 0 <= j < l && Value(b[j]) != 0
      decreases i
    {
      StripOne(Values(b), l);
      l := l - 1;
      i := i - 1;
    }
    StripNone(Values(b), l);
    if l < 2 {
      return [];
    }
    d := Thirds(b64buf, b, l);
  }

  lemma StripShort(v: seq<Sextet>)
    requires |v| < 2
    ensures Decoded(Strip(v)) == []
  {
  }

  lemma StripOne(v: seq<Sextet>, l: nat)
    requires 0 < l <= |v| && v[l - 1] == 0
    ensures Strip(v[..l]) == Strip(v[..l - 1])
  {
    assert v[..l][..l - 1] == v[..l - 1];
  }

  lemma StripNone(v: seq<Sextet>, l: nat)
    requires 0 < l <= |v| && v[l - 1] != 0
    ensures Strip(v[..l]) == v[..l]
  {
  }

  // The main loop of b64toh(), over the first l characters.
  method Thirds(b64buf: array<Sextet>, b: string, l: nat) returns (d: seq<Byte>)
    requires Table(b64buf[..]) && 2 <= l <= |b|
    requires forall i :: 0 <= i < |b| ==> b[i] < 128 as char
    ensures d == Decoded(Values(b)[..l])
  {
    ghost var v := Values(b)[..l];
    var k, more := 0, true;
    d := [];
    assert v[0..] == v && [] + Decoded(v) == Decoded(v);
    while more
      invariant k <= l && Decoded(v) == if more then d + Decoded(v[k..]) else d
      decreases more, l - k
    {
      ghost var before, rest := d, v[k..];
      var part;
      part, more := Group(b64buf, b, l, k);
      d := d + part;
      if more {
        GroupDecoded(before, rest, part);
        assert rest[4..] == v[k + 4..];
        k := k + 4;
      }
    }
  }

  lemma {:induction false} GroupDecoded(d: seq<Byte>, v: seq<Sextet>, part: seq<Byte>)
    requires |v| >= 4 && part == [Byte0(v[0], v[1]), Byte1(v[1], v[2]), Byte2(v[2], v[3])]
    ensures d + Decoded(v) == d + part + Decoded(v[4..])
  {
    assert v == [v[0], v[1], v[2], v[3]] + v[4..];
    DecodedMore(v[0], v[1], v[2], v[3], v[4..]);
  }

  // One round: up to four characters, up to three bytes, each shifted in from both sides.
  method Group(b64buf: array<Sextet>, b: string, l: nat, k0: nat) returns (part: seq<Byte>, more: bool)
    requires Table(b64buf[..]) && k0 <= l <= |b|
    requires forall i :: 0 <= i < |b| ==> b[i] < 128 as char
    ensures var v := Values(b)[..l][k0..];
            if more then |v| >= 4 && part == [Byte0(v[0], v[1]), Byte1(v[1], v[2]), Byte2(v[2], v[3])]
            else part == Decoded(v)
  {
    var k := k0;
    part, more := [], false;
    if k + 1 >= l {
      return;
    }
    var p := Look(b64buf, b, k);
    k := k + 1;
    var q := Look(b64buf, b, k);
    part := part + [Byte0(p, q)];
    if k + 1 >= l {
      return;
    }
    k := k + 1;
    var r := Look(b64buf, b, k);
    part := part + [Byte1(q, r)];
    if k + 1 >= l {
      return;
    }
    k := k + 1;
    var t := Look(b64buf, b, k);
    part := part + [Byte2(r, t)];
    more := true;
  }

  method Look(b64buf: array<Sextet>, b: string, k: nat) returns (v: Sextet)
    requires Table(b64buf[..]) && k < |b| && b[k] < 128 as char
    ensures v == Values(b)[k]
  {
    assert b64buf[..][b[k] as int] == Value(b[k]);
    v := b64buf[b[k] as int];
  }

  // ---- Both ways

  lemma ValuesOfText(v: seq<Sextet>)
    ensures Values(Text(v)) == v && forall i :: 0 <= i < |v| ==> Text(v)[i] < 128 as char
  {
    forall i | 0 <= i < |v| ensures Values(Text(v))[i] == v[i] {
      LetterValue(v[i]);
    }
  }

  /** A key that is written and read again comes back cut short at its end, and whole exactly when the
      sextet with its last bits is not zero. Only the key of nothing but zeros cannot be read. */
  method WriteRead(b64buf: array<Sextet>, x: seq<Byte>) returns (y: seq<Byte>)
    requires Table(b64buf[..]) && 0 < |x| < 0x2000_0000 && !Zeros(x)
    ensures y <= x && (y == x <==> LastSextet(x) > 0)
  {
    var s := Htob64(x);
    ValuesOfText(Encoded(x));
    ZerosEncoded(x);
    y := B64toh(b64buf, s);
    RoundTrip(x);
  }
}
