/** match.c: cidr_match() as compiled without IPv6, on addresses held as 32-bit numbers. */
module Cidr4 {
  import opened Bits
  import opened Options
  import opened Address

  const NONE: nat := 0xFFFF_FFFF

  // inet_addr() and ntohl(): an address as a number, all ones for what is none.
  type Reader = string -> nat

  ghost predicate IsReader(addr: Reader) {
    forall s :: addr(s) <= NONE
  }

  // Bit i of 32, counted from the most significant end.
  function NumBit(x: nat, i: nat): nat
    requires i < 32
  {
    Shifted(x, 31 - i) % 2
  }

  ghost predicate SameTop(x: nat, y: nat, count: int)
    requires count <= 32
  {
    forall i: nat :: i < count ==> NumBit(x, i) == NumBit(y, i)
  }

  lemma AllOut(x: nat)
    requires x <= NONE
    ensures Shifted(x, 32) == 0
  {
    Shifted8(x, 0);
    Shifted8(x, 8);
    Shifted8(x, 16);
    Shifted8(x, 24);
  }

  lemma {:induction false} TopBits(x: nat, y: nat, count: nat)
    requires x <= NONE && y <= NONE && count <= 32
    ensures Shifted(x, 32 - count) == Shifted(y, 32 - count) <==> SameTop(x, y, count)
  {
    if count == 0 {
      AllOut(x);
      AllOut(y);
    } else {
      TopBits(x, y, count - 1);
      assert NumBit(x, count - 1) == Shifted(x, 32 - count) % 2;
      assert NumBit(y, count - 1) == Shifted(y, 32 - count) % 2;
    }
  }

  method ShiftRight(x: nat, n: nat) returns (r: nat)
    ensures r == Shifted(x, n)
  {
    r := x;
    for i := 0 to n
      invariant r == Shifted(x, i)
    {
      r := r / 2;
    }
  }

  /** cidr_match() without IPv6 */
  method CidrMatch4(addr: Reader, m: string, n: string, count: int) returns (score: nat)
    requires IsReader(addr)
    ensures score > 0 <==> count <= 32 && addr(m) != NONE && addr(n) != NONE && SameTop(addr(m), addr(n), count)
    ensures score > 0 ==> score == if count < 1 then 1 else count
  {
    if count > 32 || addr(m) == NONE || addr(n) == NONE {
      return 0;
    }
    if count < 1 {
      return 1;
    }
    var rest := 32 - count;
    var block := ShiftRight(addr(m), rest);
    var other := ShiftRight(addr(n), rest);
    TopBits(addr(m), addr(n), count);
    return if block == other then count else 0;
  }

  // ---- Bytes and numbers

  // The number that four bytes make.
  function Number(a: seq<Byte>): nat {
    if a == [] then 0 else 256 * Number(a[..|a| - 1]) + a[|a| - 1]
  }

  lemma {:induction false} RightOfByte(h: nat, b: Byte, j: nat)
    requires j <= 8
    ensures Shifted(256 * h + b, j) == Pow2(8 - j) * h + Shifted(b, j)
  {
    if j == 0 {
      assert Pow2(4) == 16 && Pow2(8) == 256;
    } else {
      RightOfByte(h, b, j - 1);
      assert Pow2(9 - j) * h == 2 * (Pow2(8 - j) * h);
    }
  }

  lemma {:induction false} RightAgain(x: nat, m: nat, n: nat)
    ensures Shifted(x, m + n) == Shifted(Shifted(x, m), n)
  {
    if n > 0 {
      RightAgain(x, m, n - 1);
    }
  }

  // Shifted by whole bytes, a number loses its last ones.
  lemma {:induction false} RightOfBytes(a: seq<Byte>, k: nat)
    requires k <= |a|
    ensures Shifted(Number(a), 8 * k) == Number(a[..|a| - k])
    decreases k
  {
    if k == 0 {
      assert a[..|a|] == a;
    } else {
      var front := a[..|a| - 1];
      RightOfByte(Number(front), a[|a| - 1], 8);
      ByteOut(a[|a| - 1]);
      RightAgain(Number(a), 8, 8 * (k - 1));
      RightOfBytes(front, k - 1);
      assert front[..|front| - (k - 1)] == a[..|a| - k];
    }
  }

  lemma ByteOut(b: Byte)
    ensures Shifted(b, 8) == 0 && Pow2(0) == 1
  {
    ShiftedOut(b);
  }

  // A bit of the last byte.
  lemma LowBit(h: nat, b: Byte, j: nat)
    requires j < 8
    ensures Shifted(256 * h + b, 7 - j) % 2 == ByteBit(b, j)
  {
    RightOfByte(h, b, 7 - j);
    assert Pow2(1 + j) * h == 2 * (Pow2(j) * h);
  }

  lemma {:induction false} BitOfNumber(a: seq<Byte>, c: nat, j: nat)
    requires |a| == 4 && c < 4 && j < 8
    ensures NumBit(Number(a), 8 * c + j) == Bit(a, 8 * c + j)
  {
    var front := a[..c + 1];
    BitOf(a, c, j);
    assert 31 - (8 * c + j) == 8 * (3 - c) + (7 - j);
    RightAgain(Number(a), 8 * (3 - c), 7 - j);
    RightOfBytes(a, 3 - c);
    assert Number(front) == 256 * Number(front[..c]) + a[c];
    LowBit(Number(front[..c]), a[c], j);
  }

  lemma SameInBoth(a: seq<Byte>, b: seq<Byte>, count: int)
    requires |a| == |b| == 4 && count <= 32
    ensures SameTop(Number(a), Number(b), count) <==> SamePrefix(a, b, count)
  {
    forall i: nat | i < 32
      ensures NumBit(Number(a), i) == Bit(a, i) && NumBit(Number(b), i) == Bit(b, i)
    {
      BitOfNumber(a, i / 8, i % 8);
      BitOfNumber(b, i / 8, i % 8);
    }
  }

  /** Both builds give the same score for IPv4 addresses that both can read, save for the address of
      all ones, which the older one takes for none. */
  lemma BuildsAgree(pton: Parser, addr: Reader, m: string, n: string, count: int)
    requires IsParser(pton) && IsReader(addr) && FamilyOf(m, n) == V4
    requires pton(V4, m).Some? && addr(m) == Number(pton(V4, m).value) && addr(m) != NONE
    requires pton(V4, n).Some? && addr(n) == Number(pton(V4, n).value) && addr(n) != NONE
    ensures CidrScore(pton, m, n, count) > 0 <==> count <= 32 && SameTop(addr(m), addr(n), count)
    ensures CidrScore(pton, m, n, count) > 0 ==> CidrScore(pton, m, n, count) == if count < 1 then 1 else count
  {
    if count <= 32 {
      SameInBoth(pton(V4, m).value, pton(V4, n).value, count);
    }
  }
}
