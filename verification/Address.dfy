/** match.c: comparing hostmasks with addresses and with each other, with CIDR prefixes. */
module Address {
  import opened Options
  import opened Bits
  import opened Chars
  import opened Glob
  import opened Covering
  import WildMatch

  // Space in the local buffers of addr_match(), less the terminator.
  const ROOM: nat := 323

  datatype Family = V4 | V6 {
    function Bytes(): nat {
      if V4? then 4 else 16
    }
  }

  // inet_pton(): the bytes of an address in presentation form.
  type Parser = (Family, string) -> Option<seq<Byte>>

  ghost predicate IsParser(pton: Parser) {
    && (forall f, s :: pton(f, s).Some? ==> |pton(f, s).value| == f.Bytes())
    && (forall s :: pton(V6, s).Some? ==> ':' in s)
  }

  // Bit i of an address, counted in the same way.
  function Bit(a: seq<Byte>, i: nat): nat
    requires i < 8 * |a|
  {
    ByteBit(a[i / 8], i % 8)
  }

  ghost predicate SamePrefix(a: seq<Byte>, b: seq<Byte>, count: int)
    requires count <= 8 * |a| == 8 * |b|
  {
    forall i: nat :: i < count ==> Bit(a, i) == Bit(b, i)
  }

  function FamilyOf(m: string, n: string): Family {
    if ':' in m || ':' in n then V6 else V4
  }

  // Both texts are addresses of one family and agree in their first count bits.
  ghost predicate InBlock(pton: Parser, m: string, n: string, count: int)
    requires IsParser(pton)
  {
    var f := FamilyOf(m, n);
    && count <= 8 * f.Bytes()
    && pton(f, m).Some? && pton(f, n).Some?
    && SamePrefix(pton(f, m).value, pton(f, n).value, count)
  }

  // The quotient that scales an IPv6 score by 4 turns the prefixes 1 to 3 into "no match".
  predicate ScoreLost(f: Family, count: int) {
    f == V6 && 1 <= count < 4
  }

  // The score of a block: its length, scaled to at most 32, except that IPv6 blocks of whole bytes
  // keep their length.
  ghost function CidrScore(pton: Parser, m: string, n: string, count: int): (score: nat)
    requires IsParser(pton)
    ensures score > 0 <==> InBlock(pton, m, n, count) && !ScoreLost(FamilyOf(m, n), count)
  {
    if !InBlock(pton, m, n, count) then 0
    else if count < 1 then 1
    else if count % 8 == 0 || FamilyOf(m, n).V4? then count
    else count / 4
  }

  lemma {:induction false} HighBits(x: Byte, y: Byte, keep: nat)
    requires keep <= 8
    ensures Shifted(x, 8 - keep) == Shifted(y, 8 - keep) <==>
            forall j: nat :: j < keep ==> ByteBit(x, j) == ByteBit(y, j)
  {
    if keep == 0 {
      ShiftedOut(x);
      ShiftedOut(y);
    } else {
      HighBits(x, y, keep - 1);
      assert Shifted(x, 8 - keep) % 2 == ByteBit(x, keep - 1);
      assert Shifted(y, 8 - keep) % 2 == ByteBit(y, keep - 1);
    }
  }

  lemma ShiftedOut(x: Byte)
    ensures Shifted(x, 8) == 0
  {
    assert Shifted(x, 1) == Shifted(x, 0) / 2 < 128;
    assert Shifted(x, 2) < 64;
    assert Shifted(x, 4) < 16;
    assert Shifted(x, 6) < 4;
  }

  lemma BitOf(a: seq<Byte>, c: nat, j: nat)
    requires c < |a| && j < 8
    ensures Bit(a, 8 * c + j) == ByteBit(a[c], j)
  {
    assert (8 * c + j) / 8 == c && (8 * c + j) % 8 == j;
  }

  /** cidr_match() as compiled with IPv6: the score of comparing the first count bits. */
  method CidrMatch(pton: Parser, m: string, n: string, count: int) returns (score: nat)
    requires IsParser(pton)
    ensures score == CidrScore(pton, m, n, count)
  {
    var af := if ':' in m || ':' in n then V6 else V4;
    if count > if af == V6 then 128 else 32 {
      return 0;
    }
    if pton(af, m).None? || pton(af, n).None? {
      return 0;
    }
    var block, addr := pton(af, m).value, pton(af, n).value;
    if count < 1 {
      return 1;
    }
    for c := 0 to count / 8
      invariant forall i :: 0 <= i < c ==> block[i] == addr[i]
    {
      if block[c] != addr[c] {
        BytesDiffer(block, addr, c, count);
        return 0;
      }
    }
    PartialByte(block, addr, count);
    if count % 8 == 0 {
      return count;
    }
    var rest := 8 - count % 8;
    if Shifted(block[count / 8], rest) == Shifted(addr[count / 8], rest) {
      return count / if af == V6 then 4 else 1;
    }
    return 0;
  }

  lemma BytesDiffer(a: seq<Byte>, b: seq<Byte>, c: nat, count: nat)
    requires c < count / 8 && count <= 8 * |a| == 8 * |b|
    requires a[c] != b[c]
    ensures !SamePrefix(a, b, count)
  {
    HighBits(a[c], b[c], 8);
    var j: nat :| j < 8 && ByteBit(a[c], j) != ByteBit(b[c], j);
    BitOf(a, c, j);
    BitOf(b, c, j);
  }

  lemma {:induction false} PartialByte(a: seq<Byte>, b: seq<Byte>, count: nat)
    requires count <= 8 * |a| == 8 * |b|
    requires forall i :: 0 <= i < count / 8 ==> a[i] == b[i]
    ensures SamePrefix(a, b, count) <==>
            count % 8 == 0 || Shifted(a[count / 8], 8 - count % 8) == Shifted(b[count / 8], 8 - count % 8)
  {
    if count % 8 != 0 {
      var c, keep := count / 8, count % 8;
      HighBits(a[c], b[c], keep);
      forall j: nat | j < keep
        ensures Bit(a, 8 * c + j) == ByteBit(a[c], j) && Bit(b, 8 * c + j) == ByteBit(b[c], j)
      {
        BitOf(a, c, j);
        BitOf(b, c, j);
      }
      if forall j: nat :: j < keep ==> ByteBit(a[c], j) == ByteBit(b[c], j) {
        forall i: nat | i < count ensures Bit(a, i) == Bit(b, i) {
          if i >= 8 * c {
            assert i == 8 * c + (i - 8 * c);
          }
        }
      } else {
        var j: nat :| j < keep && ByteBit(a[c], j) != ByteBit(b[c], j);
        assert Bit(a, 8 * c + j) != Bit(b, 8 * c + j);
      }
    }
  }

  // The local copy of a text: cut to the buffer and folded.
  function Folded(s: string): (f: string)
    ensures |f| == if |s| < ROOM then |s| else ROOM
    ensures forall i :: 0 <= i < |f| ==> f[i] == RfcUpper(s[i])
  {
    seq(if |s| < ROOM then |s| else ROOM, i requires 0 <= i < |s| => RfcUpper(s[i]))
  }

  // A folded text cut at its last '@'.
  datatype Parts = Parts(user: string, host: string)

  function Cut(f: string): Option<Parts> {
    match Last(f, '@')
    case None => None
    case Some(i) => Some(Parts(f[..i], f[i + 1..]))
  }

  // A host of the form block/digits.
  datatype Cidr = Cidr(block: string, count: nat)

  function CidrOf(host: string): Option<Cidr> {
    match Last(host, '/')
    case None => None
    case Some(i) => if AllDigits(host[i + 1..]) then Some(Cidr(host[..i], Decimal(host[i + 1..]))) else None
  }

  // How well the host part m covers or matches the host part n.
  ghost function HostScore(pton: Parser, m: string, n: string, asMasks: bool): nat
    requires IsParser(pton)
  {
    match CidrOf(m)
    case None => Score(m, n)
    case Some(c) =>
      match CidrOf(n)
      case Some(d) =>
        if !asMasks then CidrScore(pton, c.block, n, c.count)
        else if c.count > d.count then 0
        else CidrScore(pton, c.block, d.block, c.count)
      case None => CidrScore(pton, c.block, n, c.count)
  }

  /** The verdict of addr_match(): hosts are compared on their own only when both texts have an
      '@' and CIDR is in force; two empty hosts agree. */
  ghost predicate AddrMatches(pton: Parser, cidr: bool, m: string, n: string, asMasks: bool)
    requires IsParser(pton)
  {
    var mu, nu := Folded(m), Folded(n);
    match (Cut(mu), Cut(nu))
    case (Some(a), Some(b)) =>
      if cidr
      then Score(a.user, b.user) > 0 && ((a.host == "" && b.host == "") || HostScore(pton, a.host, b.host, asMasks) > 0)
      else Score(mu, nu) > 0
    case _ => Score(mu, nu) > 0
  }

  ghost function AddrScore(pton: Parser, cidr: bool, m: string, n: string, asMasks: bool): nat
    requires IsParser(pton)
  {
    var mu, nu := Folded(m), Folded(n);
    if !AddrMatches(pton, cidr, m, n, asMasks) then 0
    else if !cidr || Cut(mu).None? || Cut(nu).None? then Score(mu, nu)
    else
      var a, b := Cut(mu).value, Cut(nu).value;
      Score(a.user, b.user) + if a.host == "" && b.host == "" then 0 else HostScore(pton, a.host, b.host, asMasks)
  }

  method Fold(s: string) returns (f: string, at: Option<nat>)
    ensures f == Folded(s)
    ensures at == Last(f, '@')
  {
    f, at := "", None;
    while |f| < |s| && |f| < ROOM
      invariant |f| <= |s| && |f| <= ROOM
      invariant forall i :: 0 <= i < |f| ==> f[i] == RfcUpper(s[i])
      invariant at == Last(f, '@')
    {
      var c := s[|f|];
      if c == '@' {
        at := Some(|f|);
      }
      ghost var before := f;
      f := f + [RfcUpper(c)];
      assert f[..|f| - 1] == before;
    }
    assert f == Folded(s);
  }

  /** addr_match() */
  method AddrMatch(pton: Parser, cidrSupport: bool, m: string, n: string, user: bool, cmp: bool) returns (score: nat)
    requires IsParser(pton)
    ensures score == AddrScore(pton, user || cidrSupport, m, n, cmp)
  {
    var mu, r := Fold(m);
    var nu, s := Fold(n);
    if (!user && !cidrSupport) || r.None? || s.None? {
      score := WildMatch.WildMatch(mu, nu);
      return;
    }
    var mhost, nhost := mu[r.value + 1..], nu[s.value + 1..];
    score := WildMatch.WildMatch(mu[..r.value], nu[..s.value]);
    if score == 0 {
      return 0;
    }
    if mhost == "" && nhost == "" {
      return;
    }
    var hostScore := HostMatch(pton, mhost, nhost, cmp);
    return if hostScore == 0 then 0 else score + hostScore;
  }

  // The part of addr_match() that compares the hosts.
  method HostMatch(pton: Parser, mhost: string, nhost: string, cmp: bool) returns (score: nat)
    requires IsParser(pton)
    ensures score == HostScore(pton, mhost, nhost, cmp)
  {
    var p := Last(mhost, '/');
    if p.None? || !AllDigits(mhost[p.value + 1..]) {
      score := WildMatch.WildMatch(mhost, nhost);
      return;
    }
    var count := Decimal(mhost[p.value + 1..]);
    var host := nhost;
    if cmp {
      var q := Last(nhost, '/');
      if q.Some? && AllDigits(nhost[q.value + 1..]) {
        if count > Decimal(nhost[q.value + 1..]) {
          return 0;
        }
        host := nhost[..q.value];
      }
    }
    score := CidrMatch(pton, mhost[..p.value], host, count);
  }

  lemma PrefixChain(a: seq<Byte>, b: seq<Byte>, c: seq<Byte>, wide: int, narrow: int)
    requires wide <= narrow <= 8 * |a| == 8 * |b| && |b| == |c|
    requires SamePrefix(a, b, wide) && SamePrefix(b, c, narrow)
    ensures SamePrefix(a, c, wide)
  {
    forall i: nat | i < wide ensures Bit(a, i) == Bit(c, i) {
      assert Bit(a, i) == Bit(b, i);
    }
  }

  lemma BlockChain(pton: Parser, m: string, n: string, a: string, wide: int, narrow: int)
    requires IsParser(pton) && wide <= narrow
    requires InBlock(pton, m, n, wide) && InBlock(pton, n, a, narrow)
    ensures InBlock(pton, m, a, wide) && FamilyOf(m, a) == FamilyOf(m, n)
  {
    var f := FamilyOf(m, n);
    assert f == FamilyOf(n, a) == FamilyOf(m, a);
    PrefixChain(pton(f, m).value, pton(f, n).value, pton(f, a).value, wide, narrow);
  }

  // A text without '@' is not matched by a mask that has one.
  lemma {:induction false} LetterNeeded(m: string, s: string, c: char)
    requires Matches(m, s) && c in m && IsLiteral(c) && !('A' <= c <= 'Z') && !('a' <= c <= 'z')
    ensures c in s
    decreases |m|
  {
    if m[0] == STAR {
      var k :| 0 <= k <= |s| && Matches(m[1..], s[k..]);
      LetterNeeded(m[1..], s[k..], c);
    } else if m[0] != c {
      LetterNeeded(m[1..], s[1..], c);
    }
  }

  // No text with a wildcard in it is an address.
  ghost predicate OnlyPlain(pton: Parser) {
    forall f, s :: pton(f, s).Some? ==> Plain(s)
  }

  // Folded texts that are the same up to case are the same.
  lemma FoldedSame(n: string, a: string)
    requires SameText(n, a)
    requires (forall i :: 0 <= i < |n| ==> !('a' <= n[i] <= '~')) && (forall i :: 0 <= i < |a| ==> !('a' <= a[i] <= '~'))
    ensures n == a
  {
    forall i | 0 <= i < |n| ensures n[i] == a[i] {
      assert SameLetter(n[i], a[i]);
    }
  }

  // A mask that is an address matches that address alone.
  lemma AddressMask(pton: Parser, m: string, n: string, a: string)
    requires IsParser(pton) && OnlyPlain(pton) && CidrOf(m).Some? && CidrOf(n).None?
    requires HostScore(pton, m, n, true) > 0 && HostScore(pton, n, a, false) > 0
    ensures SameText(n, a)
  {
    var c := CidrOf(m).value;
    assert pton(FamilyOf(c.block, n), n).Some?;
    PlainMatches(n, a);
  }

  lemma HostCovers(pton: Parser, m: string, n: string, a: string)
    requires IsParser(pton)
    requires HostScore(pton, m, n, true) > 0 && HostScore(pton, n, a, false) > 0
    requires CidrOf(n).Some? ==> CidrOf(m).Some?
    requires CidrOf(m).None? ==> Trusted(m)
    requires CidrOf(m).Some? && CidrOf(n).None? ==> OnlyPlain(pton) && (SameText(n, a) ==> n == a)
    ensures HostScore(pton, m, a, false) > 0
  {
    match CidrOf(m)
    case Some(c) =>
      match CidrOf(n) {
        case Some(d) => BlockChain(pton, c.block, d.block, a, c.count, d.count);
        case None => AddressMask(pton, m, n, a);
      }
    case None =>
      TrustedCovers(m, n, a);
  }

  // Two texts that match as addresses both have an '@' if the mask has one.
  lemma AtCarriesOver(m: string, s: string)
    requires Cut(m).Some? && Score(m, s) > 0
    ensures Cut(s).Some?
  {
    LetterNeeded(m, s, '@');
  }

  // A part of a folded text holds nothing that folding would change.
  lemma PartsFolded(f: string, p: Parts)
    requires Cut(Folded(f)) == Some(p)
    ensures forall i :: 0 <= i < |p.host| ==> !('a' <= p.host[i] <= '~')
  {
    var at := Last(Folded(f), '@').value;
    assert forall i :: 0 <= i < |p.host| ==> p.host[i] == Folded(f)[at + 1 + i];
  }

  lemma HostsFolded(n: string, a: string, q: Parts, r: Parts)
    requires Cut(Folded(n)) == Some(q) && Cut(Folded(a)) == Some(r)
    ensures SameText(q.host, r.host) ==> q.host == r.host
  {
    PartsFolded(n, q);
    PartsFolded(a, r);
    if SameText(q.host, r.host) {
      FoldedSame(q.host, r.host);
    }
  }

  /** Covering of hostmasks: if m covers n as a mask and n matches the address a, then m matches a,
      whenever m's nick!ident part can be trusted with masks and its host is a CIDR block, or neither
      host is one and m's host part can be trusted too. */
  lemma AddrCovers(pton: Parser, m: string, n: string, a: string)
    requires IsParser(pton)
    requires AddrMatches(pton, true, m, n, true) && AddrMatches(pton, true, n, a, false)
    requires Cut(Folded(m)).Some? && Cut(Folded(n)).Some?
    requires var p, q := Cut(Folded(m)).value, Cut(Folded(n)).value;
             && Trusted(p.user)
             && (CidrOf(q.host).Some? ==> CidrOf(p.host).Some?)
             && (CidrOf(p.host).None? ==> Trusted(p.host))
             && (CidrOf(p.host).Some? && CidrOf(q.host).None? ==> OnlyPlain(pton))
    ensures AddrMatches(pton, true, m, a, false)
  {
    var p, q := Cut(Folded(m)).value, Cut(Folded(n)).value;
    if Cut(Folded(a)).None? {
      AtCarriesOver(Folded(n), Folded(a));
      assert false;
    }
    var r := Cut(Folded(a)).value;
    TrustedCovers(p.user, q.user, r.user);
    HostsFolded(n, a, q, r);
    if q.host == "" && r.host == "" {
      assert CidrOf(r.host).None?;
    } else {
      HostCovers(pton, p.host, q.host, r.host);
    }
  }

  lemma CidrAt(block: string, tail: string)
    requires '/' !in tail
    ensures CidrOf(block + "/" + tail) == if AllDigits(tail) then Some(Cidr(block, Decimal(tail))) else None
  {
    var h := block + "/" + tail;
    assert h[|block|] == '/' && forall k :: |block| < k < |h| ==> h[k] == tail[k - |block| - 1];
    assert Last(h, '/') == Some(|block|);
    assert h[..|block|] == block && h[|block| + 1..] == tail;
  }

  /** That is all: a text that covers a block need not match what is in it. */
  lemma TextOverBlock(pton: Parser, block: string, length: string, a: string)
    requires IsParser(pton) && AllDigits(length) && '/' !in length && '/' !in a
    requires HostScore(pton, block + "/" + length, a, false) > 0
    ensures HostScore(pton, block + "/*", block + "/" + length, true) > 0
    ensures HostScore(pton, block + "/*", a, false) == 0
  {
    var m, n := block + "/*", block + "/" + length;
    assert m == block + "/" + "*";
    CidrAt(block, "*");
    MatchesSelf(block + "/");
    StarsMatchAll("*", length);
    assert n[..|block| + 1] == block + "/" && n[|block| + 1..] == length;
    MatchesSplit(block + "/", "*", n);
    if Matches(m, a) {
      assert m[|block|] == '/';
      LetterNeeded(m, a, '/');
    }
  }
}
