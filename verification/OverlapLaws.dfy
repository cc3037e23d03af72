/** match.c: what the verdict of mask_match() is worth: when it depends on the order of the masks, when
    masks said to overlap do, and when overlapping masks are found. */
module OverlapLaws {
  import opened Bits
  import opened Options
  import opened Chars
  import opened Glob
  import opened Address
  import opened Overlap
  import opened Covering
  import opened AddressLaws

  // ---- The order of the masks

  // A prefix length, if there is one, is a number, and no longer than the address.
  predicate Regular(h: Host) {
    h.length.Some? ==> IsCidr(h) && Decimal(h.length.value) <= Width(h.block)
  }

  // The bits by which a host tells addresses apart.
  function BitsOfHost(h: Host): nat
    requires Regular(h)
  {
    if h.length.Some? then Decimal(h.length.value) else Width(h.block)
  }

  lemma ComparedIs(a: Host, b: Host)
    requires Regular(a) && Regular(b)
    ensures Compared(a, b) == if b.length.Some? && BitsOfHost(b) < BitsOfHost(a) then BitsOfHost(b) else BitsOfHost(a)
  {
    if a.length.Some? {
      AtoiOfDigits(a.length.value);
    }
    if b.length.Some? {
      AtoiOfDigits(b.length.value);
    }
  }

  // Blocks of one family are compared in the bits of the shorter one; others do not overlap.
  lemma BlocksCompared(pton: Parser, a: Host, b: Host)
    requires IsParser(pton) && Regular(a) && Regular(b) && (IsCidr(a) || IsCidr(b))
    ensures var count := if BitsOfHost(b) < BitsOfHost(a) then BitsOfHost(b) else BitsOfHost(a);
            InBlock(pton, a.block, b.block, Compared(a, b)) <==> InBlock(pton, a.block, b.block, count)
    ensures InBlock(pton, a.block, b.block, Compared(a, b)) ==>
            Width(a.block) == Width(b.block) && Compared(a, b) <= BitsOfHost(a) && Compared(a, b) <= BitsOfHost(b)
  {
    ComparedIs(a, b);
  }

  lemma BlockTurned(pton: Parser, m: string, n: string, count: int)
    requires IsParser(pton)
    ensures InBlock(pton, m, n, count) <==> InBlock(pton, n, m, count)
    ensures FamilyOf(m, n) == FamilyOf(n, m)
  {
  }

  lemma HostsTurned(pton: Parser, r: string, s: string)
    requires IsParser(pton) && Regular(HostOf(r)) && Regular(HostOf(s))
    ensures HostsOverlap(pton, r, s) > 0 <==> HostsOverlap(pton, s, r) > 0
  {
    var a, b := HostOf(r), HostOf(s);
    if IsCidr(a) || IsCidr(b) {
      BlocksCompared(pton, a, b);
      BlocksCompared(pton, b, a);
      BlockTurned(pton, a.block, b.block, Compared(a, b));
      BlockTurned(pton, a.block, b.block, Compared(b, a));
      ComparedIs(a, b);
      ComparedIs(b, a);
    }
  }

  // a has a prefix longer than the address, and b is that address without a prefix.
  ghost predicate OneSided(pton: Parser, a: Host, b: Host)
    requires IsParser(pton)
  {
    IsCidr(a) && b.length.None? && Decimal(a.length.value) > Width(b.block) && InBlock(pton, b.block, a.block, Width(b.block))
  }

  // With the longer prefix first, too many bits are asked for; with the address first, all it has.
  lemma BlockFirst(pton: Parser, a: Host, b: Host)
    requires IsParser(pton) && IsCidr(a) && b.length.None?
    ensures InBlock(pton, a.block, b.block, Compared(a, b)) && !ScoreLost(FamilyOf(a.block, b.block), Compared(a, b)) <==>
            InBlock(pton, b.block, a.block, Compared(b, a)) && !ScoreLost(FamilyOf(b.block, a.block), Compared(b, a))
            && !OneSided(pton, a, b)
    ensures OneSided(pton, a, b) ==>
            InBlock(pton, b.block, a.block, Compared(b, a)) && !ScoreLost(FamilyOf(b.block, a.block), Compared(b, a))
  {
    AtoiOfDigits(a.length.value);
    BlockTurned(pton, a.block, b.block, Compared(a, b));
  }

  // Two prefixes, whatever they say, are compared in the bits of the shorter one.
  lemma BothLengths(pton: Parser, a: Host, b: Host)
    requires IsParser(pton) && (a.length.Some? <==> b.length.Some?)
    ensures a.length.Some? ==> Compared(a, b) == Compared(b, a)
    ensures !OneSided(pton, a, b) && !OneSided(pton, b, a)
  {
  }

  /** The verdict on two hosts depends on their order exactly when one is an address and the other the
      same address with a prefix that is longer than it. */
  lemma HostsTurnedExactly(pton: Parser, r: string, s: string)
    requires IsParser(pton)
    ensures (HostsOverlap(pton, r, s) > 0 <==> HostsOverlap(pton, s, r) > 0) <==>
            !OneSided(pton, HostOf(r), HostOf(s)) && !OneSided(pton, HostOf(s), HostOf(r))
  {
    var a, b := HostOf(r), HostOf(s);
    if IsCidr(a) || IsCidr(b) {
      if a.length.Some? <==> b.length.Some? {
        BothLengths(pton, a, b);
        BlockTurned(pton, a.block, b.block, Compared(a, b));
      } else if IsCidr(a) {
        BlockFirst(pton, a, b);
      } else {
        BlockFirst(pton, b, a);
      }
    }
  }

  // The part of a mask behind its last '@', where masks are compared in parts.
  ghost predicate OneSidedMasks(pton: Parser, cidr: bool, m: string, n: string)
    requires IsParser(pton)
  {
    && cidr && Cut(Folded(m)).Some? && Cut(Folded(n)).Some?
    && var a, b := Cut(Folded(m)).value, Cut(Folded(n)).value;
       && EitherMatches(a.user, b.user)
       && (OneSided(pton, HostOf(a.host), HostOf(b.host)) || OneSided(pton, HostOf(b.host), HostOf(a.host)))
  }

  /** The verdict on two masks depends on their order exactly when they are cut into parts, their users
      match, and their hosts are an address and the same address with a prefix longer than it. */
  lemma OverlapTurned(pton: Parser, cidr: bool, m: string, n: string)
    requires IsParser(pton)
    ensures (MaskOverlap(pton, cidr, m, n) > 0 <==> MaskOverlap(pton, cidr, n, m) > 0) <==> !OneSidedMasks(pton, cidr, m, n)
  {
    if cidr && Cut(Folded(m)).Some? && Cut(Folded(n)).Some? {
      var a, b := Cut(Folded(m)).value, Cut(Folded(n)).value;
      HostsTurnedExactly(pton, a.host, b.host);
      if a.host == "" && b.host == "" {
        NoSlash("");
      }
    }
  }

  /** An instance: an address, and the same address with too long a prefix. */
  lemma LongPrefix(pton: Parser, block: string, length: string)
    requires IsParser(pton) && '/' !in block && pton(FamilyOf(block, block), block).Some?
    requires AllDigits(length) && '/' !in length && Decimal(length) > Width(block)
    ensures HostsOverlap(pton, block, block + "/" + length) > 0
    ensures HostsOverlap(pton, block + "/" + length, block) == 0
  {
    NoSlash(block);
    SlashAt(block, length);
    var a, b := Host(block, Some(length)), Host(block, None);
    assert SamePrefix(pton(FamilyOf(block, block), block).value, pton(FamilyOf(block, block), block).value, Width(block));
    assert OneSided(pton, a, b);
    BlockFirst(pton, a, b);
  }

  // ---- Soundness

  lemma BothMatch(m: string, n: string) returns (s: string)
    requires EitherMatches(m, n)
    ensures Score(m, s) > 0 && Score(n, s) > 0
  {
    if Score(m, n) > 0 {
      s := n;
      MatchesSelf(n);
    } else {
      s := m;
      MatchesSelf(m);
    }
  }

  // Blocks that match anything at all: cidr_match() scores IPv6 prefixes of 1 to 3 bits as no match.
  predicate Effective(h: Host) {
    Regular(h) && !(IsCidr(h) && Width(h.block) == 128 && 1 <= Decimal(h.length.value) < 4)
  }

  // How addr_match() matches a host against a text.
  lemma HostMatches(pton: Parser, r: string, text: string)
    requires IsParser(pton) && Regular(HostOf(r))
    ensures HostScore(pton, r, text, false) ==
            if IsCidr(HostOf(r)) then CidrScore(pton, HostOf(r).block, text, BitsOfHost(HostOf(r))) else Score(r, text)
  {
  }

  lemma BlockItself(pton: Parser, h: Host, f: Family)
    requires IsParser(pton) && Regular(h) && pton(f, h.block).Some? && f == FamilyOf(h.block, h.block)
    ensures InBlock(pton, h.block, h.block, BitsOfHost(h))
  {
  }

  // The empty text is no address.
  ghost predicate NoEmpty(pton: Parser) {
    forall f :: pton(f, "").None?
  }

  // The text of the longer block is matched by both.
  lemma BlocksShare(pton: Parser, r: string, s: string) returns (h: string)
    requires IsParser(pton) && NoEmpty(pton) && Effective(HostOf(r)) && Effective(HostOf(s))
    requires IsCidr(HostOf(r)) && HostsOverlap(pton, r, s) > 0
    ensures HostScore(pton, r, h, false) > 0 && HostScore(pton, s, h, false) > 0
  {
    var a, b := HostOf(r), HostOf(s);
    BlocksCompared(pton, a, b);
    ComparedIs(a, b);
    var f := FamilyOf(a.block, b.block);
    if BitsOfHost(b) < BitsOfHost(a) {
      h := a.block;
      BlockItself(pton, a, f);
      BlockTurned(pton, a.block, b.block, Compared(a, b));
    } else {
      h := b.block;
      BlockItself(pton, b, f);
    }
    HostMatches(pton, r, h);
    HostMatches(pton, s, h);
    MatchesSelf(h);
  }

  lemma HostsShare(pton: Parser, r: string, s: string) returns (h: string)
    requires IsParser(pton) && NoEmpty(pton) && Effective(HostOf(r)) && Effective(HostOf(s))
    requires HostsOverlap(pton, r, s) > 0
    ensures HostScore(pton, r, h, false) > 0 && HostScore(pton, s, h, false) > 0
  {
    if IsCidr(HostOf(r)) {
      h := BlocksShare(pton, r, s);
    } else if IsCidr(HostOf(s)) {
      HostsTurned(pton, r, s);
      h := BlocksShare(pton, s, r);
    } else {
      h := BothMatch(r, s);
    }
  }

  // No address has a slash in it.
  ghost predicate NoSlashes(pton: Parser) {
    forall f, s :: '/' in s ==> pton(f, s).None?
  }

  // Both are plain texts, or neither is a block that nothing matches or a text with a slash.
  predicate Trustworthy(a: Host, b: Host) {
    (!IsCidr(a) && !IsCidr(b)) || (Effective(a) && Effective(b))
  }

  ghost predicate Shared(pton: Parser, r: string, s: string, host: string)
    requires IsParser(pton)
  {
    HostScore(pton, r, host, false) > 0 && HostScore(pton, s, host, false) > 0
  }

  // What is no block is matched as a text.
  lemma TextHost(pton: Parser, r: string, text: string)
    requires IsParser(pton) && !IsCidr(HostOf(r))
    ensures HostScore(pton, r, text, false) == Score(r, text)
  {
  }

  // A block with a prefix that is too long, or of 1 to 3 bits of IPv6, matches nothing.
  lemma DeadBlock(pton: Parser, r: string, text: string)
    requires IsParser(pton) && IsCidr(HostOf(r)) && !Effective(HostOf(r))
    ensures HostScore(pton, r, text, false) == 0
  {
    var a := HostOf(r);
    assert HostScore(pton, r, text, false) == CidrScore(pton, a.block, text, Decimal(a.length.value));
  }

  lemma BlockMatches(pton: Parser, s: string, text: string)
    requires IsParser(pton) && IsCidr(HostOf(s)) && HostScore(pton, s, text, false) > 0
    ensures exists f :: pton(f, text).Some?
  {
    var b := HostOf(s);
    assert HostScore(pton, s, text, false) == CidrScore(pton, b.block, text, Decimal(b.length.value));
    assert pton(FamilyOf(b.block, text), text).Some?;
  }

  // A text with a slash matches no address.
  lemma SlashText(pton: Parser, r: string, s: string, text: string)
    requires IsParser(pton) && NoSlashes(pton) && !IsCidr(HostOf(r)) && HostOf(r).length.Some? && IsCidr(HostOf(s))
    ensures !Shared(pton, r, s, text)
  {
    TextHost(pton, r, text);
    assert '/' in r;
    if '/' !in text {
      LetterMissing(r, text, '/');
    } else if HostScore(pton, s, text, false) > 0 {
      BlockMatches(pton, s, text);
    }
  }

  lemma NothingShared(pton: Parser, r: string, s: string, text: string)
    requires IsParser(pton) && NoSlashes(pton) && (IsCidr(HostOf(r)) || IsCidr(HostOf(s))) && !Effective(HostOf(r))
    ensures !Shared(pton, r, s, text)
  {
    if IsCidr(HostOf(r)) {
      DeadBlock(pton, r, text);
    } else {
      SlashText(pton, r, s, text);
    }
  }

  /** An address and the same address with too long a prefix are said to overlap, and nothing matches both. */
  lemma NothingInCommon(pton: Parser, block: string, length: string)
    requires IsParser(pton) && '/' !in block && pton(FamilyOf(block, block), block).Some?
    requires AllDigits(length) && '/' !in length && Decimal(length) > Width(block)
    ensures HostsOverlap(pton, block, block + "/" + length) > 0
    ensures forall h :: !Shared(pton, block, block + "/" + length, h)
  {
    LongPrefix(pton, block, length);
    SlashAt(block, length);
    forall h ensures !Shared(pton, block, block + "/" + length, h) {
      DeadBlock(pton, block + "/" + length, h);
    }
  }

  lemma SharedExactly(pton: Parser, r: string, s: string)
    requires IsParser(pton) && NoEmpty(pton) && NoSlashes(pton) && HostsOverlap(pton, r, s) > 0
    ensures (exists h :: Shared(pton, r, s, h)) <==> Trustworthy(HostOf(r), HostOf(s))
  {
    var a, b := HostOf(r), HostOf(s);
    if !IsCidr(a) && !IsCidr(b) {
      var h := BothMatch(r, s);
      TextHost(pton, r, h);
      TextHost(pton, s, h);
      assert Shared(pton, r, s, h);
    } else if Effective(a) && Effective(b) {
      var h := HostsShare(pton, r, s);
      assert Shared(pton, r, s, h);
    } else {
      forall h ensures !Shared(pton, r, s, h) {
        if !Effective(a) {
          NothingShared(pton, r, s, h);
        } else {
          NothingShared(pton, s, r, h);
        }
      }
    }
  }

  // A user and a host that both match.
  ghost predicate BothMatched(pton: Parser, a: Parts, b: Parts, user: string, host: string)
    requires IsParser(pton)
  {
    && Score(a.user, user) > 0 && Score(b.user, user) > 0
    && ((a.host == "" && b.host == "" && host == "") || Shared(pton, a.host, b.host, host))
  }

  /** Masks said to overlap do: there is a user and a host that both masks match. */
  lemma OverlapSound(pton: Parser, m: string, n: string) returns (user: string, host: string)
    requires IsParser(pton) && NoEmpty(pton) && MaskOverlap(pton, true, m, n) > 0
    requires Cut(Folded(m)).Some? && Cut(Folded(n)).Some?
    requires Trustworthy(HostOf(Cut(Folded(m)).value.host), HostOf(Cut(Folded(n)).value.host))
    ensures BothMatched(pton, Cut(Folded(m)).value, Cut(Folded(n)).value, user, host)
  {
    var a, b := Cut(Folded(m)).value, Cut(Folded(n)).value;
    user := BothMatch(a.user, b.user);
    if a.host == "" && b.host == "" {
      host := "";
    } else if IsCidr(HostOf(a.host)) || IsCidr(HostOf(b.host)) {
      host := HostsShare(pton, a.host, b.host);
    } else {
      host := BothMatch(a.host, b.host);
      TextHost(pton, a.host, host);
      TextHost(pton, b.host, host);
    }
  }

  /** Of masks said to overlap, there is a user and a host that both match exactly when their hosts are
      two texts, or when neither is a block whose prefix is too long or one of 1 to 3 bits of IPv6, nor a
      text with a slash. */
  lemma OverlapSoundExactly(pton: Parser, m: string, n: string)
    requires IsParser(pton) && NoEmpty(pton) && NoSlashes(pton) && MaskOverlap(pton, true, m, n) > 0
    requires Cut(Folded(m)).Some? && Cut(Folded(n)).Some?
    ensures var a, b := Cut(Folded(m)).value, Cut(Folded(n)).value;
            (exists user, host :: BothMatched(pton, a, b, user, host)) <==> Trustworthy(HostOf(a.host), HostOf(b.host))
  {
    var a, b := Cut(Folded(m)).value, Cut(Folded(n)).value;
    var user := BothMatch(a.user, b.user);
    if a.host == "" && b.host == "" {
      NoSlash("");
      assert BothMatched(pton, a, b, user, "");
    } else {
      SharedExactly(pton, a.host, b.host);
      if h :| Shared(pton, a.host, b.host, h) {
        assert BothMatched(pton, a, b, user, h);
      }
    }
  }

  // An address that begins like both.
  ghost predicate Common(a: seq<Byte>, b: seq<Byte>, p: nat, q: nat)
    requires |a| == |b| && p <= 8 * |a| && q <= 8 * |b|
  {
    exists c: seq<Byte> :: |c| == |a| && SamePrefix(a, c, p) && SamePrefix(b, c, q)
  }

  lemma CommonIs(a: seq<Byte>, b: seq<Byte>, p: nat, q: nat)
    requires |a| == |b| && p <= 8 * |a| && q <= 8 * |b|
    ensures Common(a, b, p, q) <==> SamePrefix(a, b, if q < p then q else p)
  {
    if SamePrefix(a, b, if q < p then q else p) {
      if q < p {
        assert SamePrefix(a, a, p) && SamePrefix(b, a, q);
      } else {
        assert SamePrefix(a, b, p) && SamePrefix(b, b, q);
      }
    }
    forall c: seq<Byte> | |c| == |a| && SamePrefix(a, c, p) && SamePrefix(b, c, q)
      ensures SamePrefix(a, b, if q < p then q else p)
    {
      forall i: nat | i < if q < p then q else p ensures Bit(a, i) == Bit(b, i) {
        assert Bit(a, i) == Bit(c, i) && Bit(b, i) == Bit(c, i);
      }
    }
  }

  // A prefix asks for no more bits than the address has.
  function Capped(h: Host): nat
    requires IsCidr(h)
  {
    if Decimal(h.length.value) > Width(h.block) then Width(h.block) else Decimal(h.length.value)
  }

  /** The verdict on two blocks of one family is that they have an address in common, except that
      blocks are never found to overlap when the shorter prefix is one of 1 to 3 bits of IPv6, or both
      prefixes are longer than the address. */
  lemma BlocksOverlapExactly(pton: Parser, r: string, s: string)
    requires IsParser(pton) && IsCidr(HostOf(r)) && IsCidr(HostOf(s))
    requires FamilyOf(HostOf(r).block, HostOf(r).block) == FamilyOf(HostOf(s).block, HostOf(s).block)
    requires pton(FamilyOf(HostOf(r).block, HostOf(s).block), HostOf(r).block).Some?
    requires pton(FamilyOf(HostOf(r).block, HostOf(s).block), HostOf(s).block).Some?
    ensures var a, b := HostOf(r), HostOf(s);
            var f := FamilyOf(a.block, b.block);
            var p, q := Decimal(a.length.value), Decimal(b.length.value);
            var shorter := if q < p then q else p;
            HostsOverlap(pton, r, s) > 0 <==>
            && Common(pton(f, a.block).value, pton(f, b.block).value, Capped(a), Capped(b))
            && !ScoreLost(f, shorter) && shorter <= Width(a.block)
  {
    var a, b := HostOf(r), HostOf(s);
    var f := FamilyOf(a.block, b.block);
    AtoiOfDigits(a.length.value);
    AtoiOfDigits(b.length.value);
    CommonIs(pton(f, a.block).value, pton(f, b.block).value, Capped(a), Capped(b));
  }

  /** Blocks of different families, or of what is no address, do not overlap. */
  lemma NoBlocksNoOverlap(pton: Parser, r: string, s: string)
    requires IsParser(pton) && (IsCidr(HostOf(r)) || IsCidr(HostOf(s)))
    requires var a, b := HostOf(r).block, HostOf(s).block;
             FamilyOf(a, a) != FamilyOf(b, b) || pton(FamilyOf(a, b), a).None? || pton(FamilyOf(a, b), b).None?
    ensures HostsOverlap(pton, r, s) == 0
  {
  }

  lemma NoSlash(s: string)
    requires '/' !in s
    ensures HostOf(s) == Host(s, None)
  {
  }

  lemma SlashAt(block: string, length: string)
    requires '/' !in length
    ensures HostOf(block + "/" + length) == Host(block, Some(length))
  {
    var s := block + "/" + length;
    var i := Last(s, '/');
    assert s[|block|] == '/';
    assert forall k :: |block| < k < |s| ==> s[k] == length[k - |block| - 1];
    assert i == Some(|block|);
    assert s[..|block|] == block && s[|block| + 1..] == length;
  }

  // ---- Completeness

  // A mask that has a text in common with another one only if it matches that one, or is matched by it.
  ghost predicate CommonTextTells(m: string) {
    forall n, s :: Score(m, s) > 0 && Score(n, s) > 0 ==> EitherMatches(m, n)
  }

  // The masks of which that holds: those without wildcards, and stars with up to two '?'.
  predicate Telling(m: string) {
    Plain(m) || (Literals(m) == 0 && STAR in m && Count(ANY, m) <= 2)
  }

  lemma {:induction false} SameTextMatched(n: string, s: string, t: string)
    requires Matches(n, s) && SameText(s, t)
    ensures Matches(n, t)
    decreases |n|
  {
    if n != "" {
      if n[0] == STAR {
        var k :| 0 <= k <= |s| && Matches(n[1..], s[k..]);
        SameTextMatched(n[1..], s[k..], t[k..]);
      } else {
        SameTextMatched(n[1..], s[1..], t[1..]);
      }
    }
  }

  lemma PlainTells(m: string, n: string, s: string)
    requires Plain(m) && Score(m, s) > 0 && Score(n, s) > 0
    ensures EitherMatches(m, n)
  {
    PlainMatches(m, s);
    SameTextMatched(n, s, m);
  }

  lemma StarsTell(m: string, n: string, s: string)
    requires Literals(m) == 0 && STAR in m && Count(ANY, m) <= 2 && Score(m, s) > 0 && Score(n, s) > 0
    ensures EitherMatches(m, n)
  {
    if Count(ANY, m) <= |n| {
      OnlyWildcards(m, n);
    } else if n[0] == STAR {
      StarsMatchAll(n, m);
    } else {
      MatchesNeeds(m, s);
      OneForOne(n, s);
    }
  }

  lemma OneForOne(n: string, s: string)
    requires |n| == 1 && n[0] != STAR && Matches(n, s)
    ensures |s| == 1
  {
    assert n[1..] == "";
  }

  lemma {:induction false} NoLetters(m: string)
    ensures Literals(m) == 0 <==> forall i :: 0 <= i < |m| ==> !IsLiteral(m[i])
  {
    if m != "" {
      NoLetters(m[1..]);
      if forall i :: 0 <= i < |m[1..]| ==> !IsLiteral(m[1..][i]) {
        assert forall i :: 1 <= i < |m| ==> m[i] == m[1..][i - 1];
      } else {
        var i :| 0 <= i < |m[1..]| && IsLiteral(m[1..][i]);
        assert IsLiteral(m[i + 1]);
      }
    }
  }

  // Wildcards where the mask has letters, and a letter x where it has wildcards.
  function Inverse(m: string, x: char): (n: string)
    ensures |n| == |m| && forall i :: 0 <= i < |m| ==> n[i] == if IsLiteral(m[i]) then ANY else x
  {
    seq(|m|, i requires 0 <= i < |m| => if IsLiteral(m[i]) then ANY else x)
  }

  // The letters of the mask, and x for each wildcard.
  function Filled(m: string, x: char): (s: string)
    ensures |s| == |m| && forall i :: 0 <= i < |m| ==> s[i] == if IsLiteral(m[i]) then m[i] else x
  {
    seq(|m|, i requires 0 <= i < |m| => if IsLiteral(m[i]) then m[i] else x)
  }

  // A mask without stars matches place by place.
  lemma {:induction false} PlaceByPlace(n: string, s: string)
    requires STAR !in n
    ensures Matches(n, s) <==> |n| == |s| && forall i :: 0 <= i < |n| ==> n[i] == ANY || SameLetter(n[i], s[i])
    decreases |n|
  {
    if n != "" && s != "" {
      PlaceByPlace(n[1..], s[1..]);
      if |n| == |s| && (n[0] == ANY || SameLetter(n[0], s[0])) &&
         forall i :: 0 <= i < |n[1..]| ==> n[1..][i] == ANY || SameLetter(n[1..][i], s[1..][i])
      {
        forall i | 0 <= i < |n| ensures n[i] == ANY || SameLetter(n[i], s[i]) {
          if i > 0 {
            assert n[1..][i - 1] == ANY || SameLetter(n[1..][i - 1], s[1..][i - 1]);
          }
        }
      }
    }
  }

  // A star may stand for a single character.
  lemma {:induction false} FilledMatches(m: string, x: char)
    ensures Matches(m, Filled(m, x))
    decreases |m|
  {
    if m != "" {
      FilledMatches(m[1..], x);
      assert Filled(m, x)[1..] == Filled(m[1..], x);
    }
  }

  lemma {:induction false} LetterStays(m: string, s: string, c: char)
    requires Matches(m, s) && c in m && IsLiteral(c)
    ensures exists i :: 0 <= i < |s| && SameLetter(c, s[i])
    decreases |m|
  {
    var skip := 1;
    if m[0] == STAR {
      skip :| 0 <= skip <= |s| && Matches(m[1..], s[skip..]);
    }
    if m[0] == c {
      assert SameLetter(c, s[0]);
    } else {
      LetterStays(m[1..], s[skip..], c);
      var i :| 0 <= i < |s[skip..]| && SameLetter(c, s[skip..][i]);
      assert SameLetter(c, s[skip + i]);
    }
  }

  lemma LetterMissing(m: string, s: string, c: char)
    requires c in m && IsLiteral(c) && forall i :: 0 <= i < |s| ==> !SameLetter(c, s[i])
    ensures !Matches(m, s)
  {
    if Matches(m, s) {
      LetterStays(m, s, c);
      assert false;
    }
  }

  // A mask with letters and wildcards, and another one, that have a text in common unnoticed.
  lemma MixedMisses(m: string) returns (n: string, s: string)
    requires Literals(m) > 0 && !Plain(m)
    ensures Score(m, s) > 0 && Score(n, s) > 0 && !EitherMatches(m, n)
  {
    NoLetters(m);
    var j :| 0 <= j < |m| && IsLiteral(m[j]);
    var k :| 0 <= k < |m| && !IsLiteral(m[k]);
    var x := if SameLetter(m[j], 'a') then 'b' else 'a';
    n, s := Inverse(m, x), Filled(m, x);
    FilledMatches(m, x);
    PlaceByPlace(n, s);
    PlaceByPlace(n, m);
    assert n[k] == x && !SameLetter(x, m[k]);
    LetterMissing(m, n, m[j]);
  }

  // As many letters as are asked for.
  function LetterRun(k: nat): (s: string)
    ensures |s| == k && forall i :: 0 <= i < k ==> s[i] == 'a'
  {
    seq(k, i => 'a')
  }

  lemma {:induction false} AnysOnly(m: string)
    requires Literals(m) == 0 && STAR !in m
    ensures Count(ANY, m) == |m|
  {
    if m != "" {
      AnysOnly(m[1..]);
    }
  }

  // Question marks alone, or too many of them with a star.
  lemma AnysMiss(m: string) returns (n: string, s: string)
    requires m != "" && Literals(m) == 0 && (STAR !in m || Count(ANY, m) >= 3)
    ensures Score(m, s) > 0 && Score(n, s) > 0 && !EitherMatches(m, n)
  {
    var k := Count(ANY, m);
    NoLetters(m);
    if STAR !in m {
      AnysOnly(m);
      n, s := "*" + LetterRun(k), LetterRun(k);
      PlaceByPlace(m, s);
      PlaceByPlace(m, n);
      assert n[1..] == s && s[0..] == s;
      MatchesSelf(s);
      if Matches(n, m) {
        LastLetter(n, m);
        assert false;
      }
    } else {
      n, s := "a*", LetterRun(k);
      OnlyWildcards(m, s);
      assert n[1..] == "*" && s[1..][0..] == s[1..];
      StarsMatchAll("*", s[1..]);
      if Matches(m, n) {
        MatchesNeeds(m, n);
        assert false;
      }
    }
  }

  // A mask that ends in a letter matches texts that end in it.
  lemma {:induction false} LastLetter(n: string, s: string)
    requires n != "" && IsLiteral(n[|n| - 1]) && Matches(n, s)
    ensures s != "" && SameLetter(n[|n| - 1], s[|s| - 1])
    decreases |n|
  {
    if n[0] == STAR {
      var k :| 0 <= k <= |s| && Matches(n[1..], s[k..]);
      LastLetter(n[1..], s[k..]);
    } else if |n| > 1 {
      LastLetter(n[1..], s[1..]);
    } else {
      assert n[1..] == "";
    }
  }

  /** Comparing texts finds every mask that a mask has a text in common with exactly when the mask has
      no wildcards, or nothing but stars and up to two '?'. */
  lemma TellsExactly(m: string)
    ensures CommonTextTells(m) <==> Telling(m)
  {
    if Telling(m) {
      forall n, s | Score(m, s) > 0 && Score(n, s) > 0 ensures EitherMatches(m, n) {
        if Plain(m) {
          PlainTells(m, n, s);
        } else {
          StarsTell(m, n, s);
        }
      }
    } else if Literals(m) > 0 {
      var n, s := MixedMisses(m);
    } else {
      var n, s := AnysMiss(m);
    }
  }

  // ---- The verdict itself

  // One text is matched by the other.
  ghost predicate OneWay(m: string, n: string) {
    Globs(m, n) || Globs(n, m)
  }

  lemma NoBlock(host: string)
    ensures IsBlock(host) <==> IsCidr(HostOf(host))
  {
    BlockIsCidr(host);
  }

  lemma OverlapOfParts(pton: Parser, m: string, n: string, a: Parts, b: Parts)
    requires IsParser(pton) && InParts(m, n, a, b)
    ensures MaskOverlap(pton, true, m, n) == PartsOverlap(pton, a, b)
  {
    PartsAre(m, n, a, b);
  }

  lemma HostsNotEmpty(pton: Parser, m: string, n: string, a: Parts, b: Parts)
    requires IsParser(pton) && InParts(m, n, a, b) && (a.host != "" || b.host != "")
    ensures MaskOverlap(pton, true, m, n) > 0 <==> OneWay(a.user, b.user) && HostsOverlap(pton, a.host, b.host) > 0
  {
    OverlapOfParts(pton, m, n, a, b);
  }

  /** Hosts that are no blocks: masks are said to overlap exactly when one user matches the other, and one
      host does or both are empty. */
  lemma TextsOverlap(pton: Parser, m: string, n: string, a: Parts, b: Parts)
    requires IsParser(pton) && InParts(m, n, a, b) && !IsBlock(a.host) && !IsBlock(b.host)
    ensures MaskOverlap(pton, true, m, n) ==
            if OneWay(a.user, b.user) && ((a.host == "" && b.host == "") || OneWay(a.host, b.host)) then 1 else 0
  {
    OverlapOfParts(pton, m, n, a, b);
    NoBlock(a.host);
    NoBlock(b.host);
  }

  /** Without CIDR, or without an '@' in both: when one matches the other as a whole. */
  lemma WholesOverlap(pton: Parser, cidr: bool, m: string, n: string)
    requires IsParser(pton) && (!cidr || '@' !in Folded(m) || '@' !in Folded(n))
    ensures MaskOverlap(pton, cidr, m, n) == if OneWay(Folded(m), Folded(n)) then 1 else 0
  {
    assert !cidr || Cut(Folded(m)).None? || Cut(Folded(n)).None?;
  }

  // The first count bits agree, and they are not those that are lost.
  ghost predicate Agree(pton: Parser, block: string, other: string, count: int)
    requires IsParser(pton)
  {
    InBlock(pton, block, other, count) && !ScoreLost(FamilyOf(block, other), count)
  }

  lemma BlockHost(block: string, digits: string)
    requires AllDigits(digits)
    ensures HostOf(block + "/" + digits) == Host(block, Some(digits)) && Atoi(digits) == Decimal(digits)
  {
    DigitsHoldNoSlash(digits);
    SlashAt(block, digits);
    AtoiOfDigits(digits);
  }

  lemma BlockAndHost(pton: Parser, block: string, digits: string, other: string)
    requires IsParser(pton) && AllDigits(digits) && '/' !in other
    ensures HostsOverlap(pton, block + "/" + digits, other) > 0 <==> Agree(pton, block, other, Decimal(digits))
    ensures HostsOverlap(pton, other, block + "/" + digits) > 0 <==>
            Agree(pton, other, block, if Decimal(digits) < Width(other) then Decimal(digits) else Width(other))
  {
    BlockHost(block, digits);
    NoSlash(other);
  }

  /** A block and a host without a prefix: when the host is in the block. */
  lemma BlockAndAddress(pton: Parser, m: string, n: string, a: Parts, b: Parts, block: string, digits: string)
    requires IsParser(pton) && InParts(m, n, a, b) && a.host == block + "/" + digits && AllDigits(digits)
    requires '/' !in b.host
    ensures MaskOverlap(pton, true, m, n) > 0 <==>
            OneWay(a.user, b.user) && Agree(pton, block, b.host, Decimal(digits))
  {
    HostsNotEmpty(pton, m, n, a, b);
    BlockAndHost(pton, block, digits, b.host);
  }

  /** In the other order, a prefix that is too long counts as the whole address. */
  lemma AddressAndBlock(pton: Parser, m: string, n: string, a: Parts, b: Parts, block: string, digits: string)
    requires IsParser(pton) && InParts(m, n, a, b) && b.host == block + "/" + digits && AllDigits(digits)
    requires '/' !in a.host
    ensures MaskOverlap(pton, true, m, n) > 0 <==>
            OneWay(a.user, b.user) &&
            Agree(pton, a.host, block, if Decimal(digits) < Width(a.host) then Decimal(digits) else Width(a.host))
  {
    HostsNotEmpty(pton, m, n, a, b);
    BlockAndHost(pton, block, digits, a.host);
  }

  lemma SlashedHosts(pton: Parser, block: string, tail: string, other: string, more: string)
    requires IsParser(pton) && '/' !in tail && '/' !in more && (AllDigits(tail) || AllDigits(more))
    ensures HostsOverlap(pton, block + "/" + tail, other + "/" + more) > 0 <==>
            Agree(pton, block, other, if Atoi(more) < Atoi(tail) then Atoi(more) else Atoi(tail))
  {
    SlashAt(block, tail);
    SlashAt(other, more);
  }

  /** Two hosts with slashes, of which one is a block: when they agree in the bits of the smaller number. */
  lemma SlashesOverlap(pton: Parser, m: string, n: string, a: Parts, b: Parts, block: string, tail: string,
                       other: string, more: string)
    requires IsParser(pton) && InParts(m, n, a, b) && (AllDigits(tail) || AllDigits(more))
    requires a.host == block + "/" + tail && '/' !in tail && b.host == other + "/" + more && '/' !in more
    ensures MaskOverlap(pton, true, m, n) > 0 <==>
            OneWay(a.user, b.user) && Agree(pton, block, other, if Atoi(more) < Atoi(tail) then Atoi(more) else Atoi(tail))
  {
    HostsNotEmpty(pton, m, n, a, b);
    SlashedHosts(pton, block, tail, other, more);
  }

  lemma PartsRejoin(f: string, a: Parts)
    requires Cut(f) == Some(a)
    ensures '@' !in a.host && f == a.user + "@" + a.host
    ensures '/' !in f ==> '/' !in a.host
  {
    var i := Last(f, '@').value;
    assert forall k :: 0 <= k < |a.host| ==> a.host[k] == f[i + 1 + k];
  }

  lemma BlockRejoins(host: string) returns (block: string, digits: string)
    requires IsBlock(host)
    ensures host == block + "/" + digits && AllDigits(digits)
  {
    var i :| 0 <= i < |host| && host[i] == '/' && AllDigits(host[i + 1..]);
    block, digits := host[..i], host[i + 1..];
  }

  lemma MatchedInParts(pton: Parser, m: string, n: string, a: Parts, b: Parts)
    requires IsParser(pton) && InParts(m, n, a, b) && '/' !in b.host && AddrScore(pton, true, m, n, false) > 0
    ensures MaskOverlap(pton, true, m, n) > 0
  {
    if IsBlock(a.host) {
      var block, digits := BlockRejoins(a.host);
      BlockVerdict(pton, m, n, a, b, false, block, digits);
      BlockAndAddress(pton, m, n, a, b, block, digits);
    } else {
      TextVerdict(pton, m, n, a, b, false);
      TextsOverlap(pton, m, n, a, b);
    }
  }

  /** A mask is said to overlap every address without a slash that it matches. */
  lemma MatchedOverlaps(pton: Parser, cidr: bool, m: string, n: string)
    requires IsParser(pton) && '/' !in Folded(n) && AddrScore(pton, cidr, m, n, false) > 0
    ensures MaskOverlap(pton, cidr, m, n) > 0
  {
    var p, q := Cut(Folded(m)), Cut(Folded(n));
    if cidr && p.Some? && q.Some? {
      PartsRejoin(Folded(m), p.value);
      PartsRejoin(Folded(n), q.value);
      MatchedInParts(pton, m, n, p.value, q.value);
    } else {
      WholeVerdict(pton, cidr, m, n, false);
      WholesOverlap(pton, cidr, m, n);
    }
  }

  // ---- Prefixes that are no numbers

  lemma {:induction false} DigitsThen(digits: string, tail: string)
    requires (forall i :: 0 <= i < |digits| ==> IsDigit(digits[i])) && (tail == "" || !IsDigit(tail[0]))
    ensures DigitsEnd(digits + tail) == |digits| && (digits + tail)[..|digits|] == digits
  {
    if digits == "" {
      assert "" + tail == tail;
    } else {
      assert (digits + tail)[1..] == digits[1..] + tail;
      DigitsThen(digits[1..], tail);
    }
  }

  /** Blanks, a sign, and what follows the digits of a number. */
  lemma NumberIs(digits: string, tail: string)
    requires AllDigits(digits) && (tail == "" || !IsDigit(tail[0]))
    ensures Atoi(digits + tail) == Decimal(digits)
    ensures Atoi("-" + (digits + tail)) == 0 - Decimal(digits)
    ensures Atoi("+" + (digits + tail)) == Decimal(digits)
  {
    var s := digits + tail;
    DigitsThen(digits, tail);
    assert s[0] == digits[0] && IsDigit(s[0]) && !IsBlank(s[0]);
    assert ("-" + s)[1..] == s && ("+" + s)[1..] == s;
  }

  lemma BlankFirst(c: char, s: string)
    requires c == ' ' || '\t' <= c <= '\r'
    ensures Atoi([c] + s) == Atoi(s)
  {
    assert ([c] + s)[1..] == s;
  }

  lemma NoNumber(s: string)
    requires s == "" || !(s[0] == ' ' || '\t' <= s[0] <= '\r' || s[0] == '-' || s[0] == '+' || IsDigit(s[0]))
    ensures Atoi(s) == 0
  {
    assert s != "" ==> s[..0] == "";
  }
}
