/** dh1080_tcl/base64.c: the base 64 of DH1080 key exchange: what it writes, reads, and loses. */
module DhBase64 {
  import opened Bits

  type Sextet = v: int | 0 <= v < 64 witness 0

  // ---- The alphabet

  // B64ABC
  function Letter(v: Sextet): (c: char)
    ensures c < 128 as char
  {
    if v < 26 then (v + 'A' as int) as char
    else if v < 52 then (v - 26 + 'a' as int) as char
    else if v < 62 then (v - 52 + '0' as int) as char
    else if v == 62 then '+'
    else '/'
  }

  // The table filled by initb64(); characters outside the alphabet count as 0.
  function Value(c: char): Sextet {
    if 'A' <= c <= 'Z' then c as int - 'A' as int
    else if 'a' <= c <= 'z' then c as int - 'a' as int + 26
    else if '0' <= c <= '9' then c as int - '0' as int + 52
    else if c == '+' then 62
    else if c == '/' then 63
    else 0
  }

  lemma LetterValue(v: Sextet)
    ensures Value(Letter(v)) == v
  {
  }

  /** The alphabet of section 4 of RFC 4648: the capitals, the letters, the figures and two signs, in order. */
  lemma LettersAre(v: Sextet)
    requires v < 63
    ensures Letter(0) == 'A' && Letter(26) == 'a' && Letter(52) == '0' && Letter(62) == '+' && Letter(63) == '/'
    ensures Letter(v + 1) in "a0+/" || Letter(v + 1) as int == Letter(v) as int + 1
  {
  }

  function Text(vs: seq<Sextet>): (s: string)
    ensures |s| == |vs| && forall i :: 0 <= i < |s| ==> s[i] == Letter(vs[i])
  {
    seq(|vs|, i requires 0 <= i < |vs| => Letter(vs[i]))
  }

  function Values(s: string): (vs: seq<Sextet>)
    ensures |vs| == |s| && forall i :: 0 <= i < |s| ==> vs[i] == Value(s[i])
  {
    seq(|s|, i requires 0 <= i < |s| => Value(s[i]))
  }

  // ---- What is written and read

  // Three bytes in four sextets.
  function Six0(a: int): Sextet
    requires 0 <= a < 256
  {
    a / 4
  }

  function Six1(a: int, b: int): Sextet
    requires 0 <= a < 256 && 0 <= b < 256
  {
    a % 4 * 16 + b / 16
  }

  function Six2(b: int, c: int): Sextet
    requires 0 <= b < 256 && 0 <= c < 256
  {
    b % 16 * 4 + c / 64
  }

  function Six3(c: int): Sextet
    requires 0 <= c < 256
  {
    c % 64
  }

  // The last bits, when one or two bytes are left over.
  function Last1(a: int): Sextet
    requires 0 <= a < 256
  {
    a % 4 * 16
  }

  function Last2(b: int): Sextet
    requires 0 <= b < 256
  {
    b % 16 * 4
  }

  // And back.
  function Byte0(p: int, q: int): Byte
    requires 0 <= p < 64 && 0 <= q < 64
  {
    p * 4 + q / 16
  }

  function Byte1(q: int, r: int): Byte
    requires 0 <= q < 64 && 0 <= r < 64
  {
    q % 16 * 16 + r / 4
  }

  function Byte2(r: int, t: int): Byte
    requires 0 <= r < 64 && 0 <= t < 64
  {
    r % 4 * 64 + t
  }

  /** The grouping of section 4 of RFC 4648, without padding characters. */
  function Grouped(x: seq<Byte>): seq<Sextet> {
    if |x| == 0 then []
    else if |x| == 1 then [Six0(x[0]), Last1(x[0])]
    else if |x| == 2 then [Six0(x[0]), Six1(x[0], x[1]), Last2(x[1])]
    else [Six0(x[0]), Six1(x[0], x[1]), Six2(x[1], x[2]), Six3(x[2])] + Grouped(x[3..])
  }

  // A stray zero follows when the bytes come out even.
  function Encoded(x: seq<Byte>): seq<Sextet> {
    Grouped(x) + if |x| % 3 == 0 then [0] else []
  }

  // The whole bytes in a row of sextets.
  function Decoded(v: seq<Sextet>): seq<Byte> {
    if |v| < 2 then []
    else if |v| == 2 then [Byte0(v[0], v[1])]
    else if |v| == 3 then [Byte0(v[0], v[1]), Byte1(v[1], v[2])]
    else [Byte0(v[0], v[1]), Byte1(v[1], v[2]), Byte2(v[2], v[3])] + Decoded(v[4..])
  }

  // The reader drops zeros from the end, whoever put them there.
  function Strip(v: seq<Sextet>): seq<Sextet> {
    if v != [] && v[|v| - 1] == 0 then Strip(v[..|v| - 1]) else v
  }

  function TrailingZeros(v: seq<Sextet>): (n: nat)
    ensures n <= |v|
  {
    if v != [] && v[|v| - 1] == 0 then 1 + TrailingZeros(v[..|v| - 1]) else 0
  }

  // No number above 0.
  predicate Zeros(v: seq<int>) {
    forall i :: 0 <= i < |v| ==> v[i] <= 0
  }

  // ---- The round trip

  lemma {:induction false} StripJoin(a: seq<Sextet>, b: seq<Sextet>)
    ensures Strip(a + b) == if Zeros(b) then Strip(a) else a + Strip(b)
    decreases |b|
  {
    if b == [] {
      assert a + b == a;
    } else {
      var front, last := b[..|b| - 1], b[|b| - 1];
      assert b == front + [last] && (a + b)[..|a + b| - 1] == a + front;
      if last == 0 {
        StripJoin(a, front);
        assert Zeros(b) <==> Zeros(front);
      }
    }
  }

  lemma {:induction false} DecodedLength(v: seq<Sextet>)
    ensures |Decoded(v)| == 3 * |v| / 4
  {
    if |v| >= 4 {
      DecodedLength(v[4..]);
      Quarters(|v|);
    }
  }

  lemma Quarters(n: nat)
    requires n >= 4
    ensures 3 * n / 4 == 3 + 3 * (n - 4) / 4
  {
  }

  lemma {:induction false} GroupedLength(x: seq<Byte>)
    ensures 4 * |x| <= 3 * |Grouped(x)| <= 4 * |x| + 2
  {
    if |x| >= 3 {
      GroupedLength(x[3..]);
    }
  }

  lemma EncodedLength(x: seq<Byte>)
    ensures |Encoded(x)| == 4 * |x| / 3 + 1
  {
    GroupedLength(x);
    ThirdsUp(|x|, |Grouped(x)|);
  }

  lemma ThirdsUp(n: nat, g: nat)
    requires 4 * n <= 3 * g <= 4 * n + 2
    ensures g + (if n % 3 == 0 then 1 else 0) == 4 * n / 3 + 1
  {
    var k := Thirds(n);
    if n == 3 * k {
      ByThree(4 * n, 4 * k, 0);
    } else if n == 3 * k + 1 {
      ByThree(4 * n, 4 * k + 1, 1);
    } else {
      ByThree(4 * n, 4 * k + 2, 2);
    }
  }

  lemma Thirds(n: nat) returns (k: nat)
    ensures 3 * k <= n <= 3 * k + 2 && (n % 3 == 0 <==> n == 3 * k)
  {
    k := n / 3;
  }

  lemma ByThree(n: nat, q: nat, r: nat)
    requires n == 3 * q + r && r < 3
    ensures n / 3 == q
  {
  }

  lemma ZerosJoin(a: seq<int>, b: seq<int>)
    ensures Zeros(a + b) <==> Zeros(a) && Zeros(b)
  {
    assert forall i :: 0 <= i < |a| ==> a[i] == (a + b)[i];
    assert forall i :: 0 <= i < |b| ==> b[i] == (a + b)[|a| + i];
  }

  // Three bytes are zero exactly when their sextets are.
  lemma ZerosGroup(a: Byte, b: Byte, c: Byte)
    ensures a <= 0 && b <= 0 && c <= 0 <==> Six0(a) <= 0 && Six1(a, b) <= 0 && Six2(b, c) <= 0 && Six3(c) <= 0
  {
  }

  lemma ZerosOfTwo(a: Byte, b: Byte)
    ensures a <= 0 && b <= 0 <==> Six0(a) <= 0 && Six1(a, b) <= 0 && Last2(b) <= 0
  {
  }

  lemma ZerosOfOne(a: Byte)
    ensures a <= 0 <==> Six0(a) <= 0 && Last1(a) <= 0
  {
  }

  lemma {:induction false} ZerosGrouped(x: seq<Byte>)
    ensures Zeros(x) <==> Zeros(Grouped(x))
  {
    if |x| >= 3 {
      var t := x[3..];
      ZerosGrouped(t);
      ZerosGroup(x[0], x[1], x[2]);
      assert x == [x[0], x[1], x[2]] + t;
      ZerosJoin([x[0], x[1], x[2]], t);
      ZerosThree(x[0], x[1], x[2]);
      var p, q, r, u := Six0(x[0]), Six1(x[0], x[1]), Six2(x[1], x[2]), Six3(x[2]);
      ZerosJoin([p, q, r, u], Grouped(t));
      ZerosFour(p, q, r, u);
    } else {
      ZerosRest(x);
    }
  }

  lemma {:induction false} ZerosRest(x: seq<Byte>)
    requires |x| < 3
    ensures Zeros(x) <==> Zeros(Grouped(x))
  {
    if |x| == 1 {
      ZerosOfOne(x[0]);
      ZerosTwo(Six0(x[0]), Last1(x[0]));
    } else if |x| == 2 {
      ZerosOfTwo(x[0], x[1]);
      ZerosThree(Six0(x[0]), Six1(x[0], x[1]), Last2(x[1]));
      ZerosTwo(x[0], x[1]);
      assert x == [x[0], x[1]];
    }
  }

  lemma ZerosTwo(a: int, b: int)
    ensures Zeros([a, b]) <==> a <= 0 && b <= 0
  {
    assert [a, b][0] == a && [a, b][1] == b;
  }

  lemma ZerosThree(a: int, b: int, c: int)
    ensures Zeros([a, b, c]) <==> a <= 0 && b <= 0 && c <= 0
  {
    assert [a, b, c][0] == a && [a, b, c][1] == b && [a, b, c][2] == c;
  }

  lemma ZerosFour(a: int, b: int, c: int, d: int)
    ensures Zeros([a, b, c, d]) <==> a <= 0 && b <= 0 && c <= 0 && d <= 0
  {
    assert [a, b, c, d][0] == a && [a, b, c, d][1] == b && [a, b, c, d][2] == c && [a, b, c, d][3] == d;
  }

  // The sextet that holds the last bits.
  function LastSextet(x: seq<Byte>): Sextet
    requires x != []
  {
    GroupedLength(x);
    Grouped(x)[|Grouped(x)| - 1]
  }

  // Bytes come back from their sextets.
  lemma GroupBack(a: Byte, b: Byte, c: Byte)
    ensures Byte0(Six0(a), Six1(a, b)) == a && Byte1(Six1(a, b), Six2(b, c)) == b && Byte2(Six2(b, c), Six3(c)) == c
  {
  }

  lemma TwoBack(a: Byte, b: Byte)
    ensures Byte0(Six0(a), Six1(a, b)) == a && Byte1(Six1(a, b), Last2(b)) == b
  {
  }

  lemma OneBack(a: Byte)
    ensures Byte0(Six0(a), Last1(a)) == a
  {
  }

  lemma DecodedMore(p: Sextet, q: Sextet, r: Sextet, t: Sextet, v: seq<Sextet>)
    ensures Decoded([p, q, r, t] + v) == [Byte0(p, q), Byte1(q, r), Byte2(r, t)] + Decoded(v)
  {
    assert ([p, q, r, t] + v)[4..] == v;
  }

  lemma StripPair(p: Sextet, q: Sextet)
    ensures Strip([p, q]) == if q != 0 then [p, q] else if p != 0 then [p] else []
  {
    assert [p, q][..1] == [p] && [p][..0] == [] && Strip([]) == [];
  }

  lemma StripThree(p: Sextet, q: Sextet, r: Sextet)
    ensures Strip([p, q, r]) == if r != 0 then [p, q, r] else Strip([p, q])
  {
    assert [p, q, r][..2] == [p, q];
  }

  lemma StripFour(p: Sextet, q: Sextet, r: Sextet, t: Sextet)
    ensures Strip([p, q, r, t]) == if t != 0 then [p, q, r, t] else Strip([p, q, r])
  {
    assert [p, q, r, t][..3] == [p, q, r];
  }

  // Sextets of up to three bytes, read back without zeros at their end.
  lemma PairBack(p: Sextet, q: Sextet, a: Byte)
    requires Byte0(p, q) == a
    ensures Decoded(Strip([p, q])) == if q != 0 then [a] else []
  {
    StripPair(p, q);
  }

  lemma ThreeBack(p: Sextet, q: Sextet, r: Sextet, a: Byte, b: Byte)
    requires Byte0(p, q) == a && Byte1(q, r) == b
    ensures Decoded(Strip([p, q, r])) <= [a, b]
    ensures Decoded(Strip([p, q, r])) == [a, b] <==> r > 0
  {
    StripThree(p, q, r);
    PairBack(p, q, a);
  }

  lemma ZerosEncoded(x: seq<Byte>)
    ensures Zeros(Encoded(x)) <==> Zeros(x)
  {
    ZerosGrouped(x);
    if |x| % 3 == 0 {
      ZerosJoin(Grouped(x), [0]);
    } else {
      assert Encoded(x) == Grouped(x);
    }
  }

  // The group of the first three bytes, and the rest.
  lemma EncodedMore(x: seq<Byte>)
    requires |x| >= 3
    ensures Encoded(x) == [Six0(x[0]), Six1(x[0], x[1]), Six2(x[1], x[2]), Six3(x[2])] + Encoded(x[3..])
    ensures LastSextet(x) == if |x| == 3 then Six3(x[2]) else LastSextet(x[3..])
  {
    var t, four := x[3..], [Six0(x[0]), Six1(x[0], x[1]), Six2(x[1], x[2]), Six3(x[2])];
    GroupedLength(t);
    ThreeLess(|x|);
    assert Grouped(x) == four + Grouped(t);
    assert four + Grouped(t) + [0] == four + (Grouped(t) + [0]);
    assert four + Grouped(t) + [] == four + (Grouped(t) + []);
  }

  lemma ThreeLess(n: nat)
    requires n >= 3
    ensures n % 3 == 0 <==> (n - 3) % 3 == 0
  {
  }

  lemma LastOfZeros(x: seq<Byte>)
    requires x != [] && Zeros(x)
    ensures LastSextet(x) == 0
  {
    GroupedLength(x);
    ZerosGrouped(x);
  }

  // A group with more sextets behind it.
  lemma MoreBack(p: Sextet, q: Sextet, r: Sextet, u: Sextet, e: seq<Sextet>, a: Byte, b: Byte, c: Byte)
    requires Byte0(p, q) == a && Byte1(q, r) == b && Byte2(r, u) == c
    ensures var y := Decoded(Strip([p, q, r, u] + e));
            if Zeros(e) then y <= [a, b, c] && (y == [a, b, c] <==> u > 0) else y == [a, b, c] + Decoded(Strip(e))
  {
    StripJoin([p, q, r, u], e);
    if Zeros(e) {
      StripFour(p, q, r, u);
      if u != 0 {
        DecodedMore(p, q, r, u, []);
        assert [p, q, r, u] + [] == [p, q, r, u];
      } else {
        ThreeBack(p, q, r, a, b);
      }
    } else {
      DecodedMore(p, q, r, u, Strip(e));
    }
  }

  lemma GroupMore(x: seq<Byte>)
    requires |x| >= 3
    ensures var y, t := Decoded(Strip(Encoded(x))), x[3..];
            if Zeros(t) then y <= x[..3] && (y == x[..3] <==> Six3(x[2]) > 0)
            else y == x[..3] + Decoded(Strip(Encoded(t)))
  {
    EncodedMore(x);
    GroupBack(x[0], x[1], x[2]);
    ZerosEncoded(x[3..]);
    assert x[..3] == [x[0], x[1], x[2]];
    MoreBack(Six0(x[0]), Six1(x[0], x[1]), Six2(x[1], x[2]), Six3(x[2]), Encoded(x[3..]), x[0], x[1], x[2]);
  }

  lemma TwoWhole(p: Sextet, q: Sextet, r: Sextet, x: seq<Byte>)
    requires |x| == 2 && Byte0(p, q) == x[0] && Byte1(q, r) == x[1]
    ensures var y := Decoded(Strip([p, q, r]));
            y <= x && (y == x <==> r > 0)
  {
    ThreeBack(p, q, r, x[0], x[1]);
    assert x == [x[0], x[1]];
  }

  lemma OneWhole(p: Sextet, q: Sextet, x: seq<Byte>)
    requires |x| == 1 && Byte0(p, q) == x[0]
    ensures var y := Decoded(Strip([p, q]));
            y <= x && (y == x <==> q > 0)
  {
    PairBack(p, q, x[0]);
    assert x == [x[0]];
  }

  lemma TwoEncoded(x: seq<Byte>) returns (p: Sextet, q: Sextet, r: Sextet)
    requires |x| == 2
    ensures Encoded(x) == [p, q, r] && LastSextet(x) == r
    ensures Byte0(p, q) == x[0] && Byte1(q, r) == x[1]
  {
    p, q, r := Six0(x[0]), Six1(x[0], x[1]), Last2(x[1]);
    TwoBack(x[0], x[1]);
  }

  lemma OneEncoded(x: seq<Byte>) returns (p: Sextet, q: Sextet)
    requires |x| == 1
    ensures Encoded(x) == [p, q] && LastSextet(x) == q
    ensures Byte0(p, q) == x[0]
  {
    p, q := Six0(x[0]), Last1(x[0]);
    OneBack(x[0]);
  }

  lemma FewBack(x: seq<Byte>)
    requires 1 <= |x| <= 2
    ensures Decoded(Strip(Encoded(x))) <= x
    ensures Decoded(Strip(Encoded(x))) == x <==> LastSextet(x) > 0
  {
    if |x| == 2 {
      var p, q, r := TwoEncoded(x);
      TwoWhole(p, q, r, x);
    } else {
      var p, q := OneEncoded(x);
      OneWhole(p, q, x);
    }
  }

  /** What is read back is a beginning of what was written, and all of it exactly when the sextet
      with the last bits is not zero. */
  lemma {:induction false} RoundTrip(x: seq<Byte>)
    requires !Zeros(x)
    ensures Decoded(Strip(Encoded(x))) <= x
    ensures Decoded(Strip(Encoded(x))) == x <==> LastSextet(x) > 0
  {
    if |x| >= 3 {
      var t := x[3..];
      GroupMore(x);
      LastMore(x);
      assert x == x[..3] + t;
      if !Zeros(t) {
        RoundTrip(t);
      } else if t != [] {
        LastOfZeros(t);
      }
    } else {
      FewBack(x);
    }
  }

  lemma LastMore(x: seq<Byte>)
    requires |x| >= 3
    ensures LastSextet(x) == if |x| == 3 then Six3(x[2]) else LastSextet(x[3..])
  {
    EncodedMore(x);
  }

  lemma {:induction false} StrippedLength(v: seq<Sextet>)
    ensures |Strip(v)| == |v| - TrailingZeros(v)
    ensures Zeros(v) ==> TrailingZeros(v) == |v|
  {
    if v != [] && v[|v| - 1] == 0 {
      StrippedLength(v[..|v| - 1]);
    }
  }

  /** How much comes back: the whole bytes in the sextets up to the last one that is not zero. */
  lemma BytesBack(x: seq<Byte>)
    ensures var n := 3 * (4 * |x| / 3 + 1 - TrailingZeros(Encoded(x))) / 4;
            0 <= n <= |x| && Decoded(Strip(Encoded(x))) == x[..n]
  {
    EncodedLength(x);
    StrippedLength(Encoded(x));
    DecodedLength(Strip(Encoded(x)));
    if Zeros(x) {
      ZerosEncoded(x);
    } else {
      RoundTrip(x);
    }
  }
}
