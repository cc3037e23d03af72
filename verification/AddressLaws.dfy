/** match.c: when addr_match() answers with a match, and with which score. */
module AddressLaws {
  import opened Options
  import opened Chars
  import opened Glob
  import opened Address

  // A host that ends in a slash and digits.
  predicate IsBlock(host: string) {
    exists i :: 0 <= i < |host| && host[i] == '/' && AllDigits(host[i + 1..])
  }

  lemma BlockIsCidr(host: string)
    ensures IsBlock(host) <==> CidrOf(host).Some?
  {
    if i :| 0 <= i < |host| && host[i] == '/' && AllDigits(host[i + 1..]) {
      assert forall k :: i < k < |host| ==> host[k] == host[i + 1..][k - i - 1];
      assert Last(host, '/') == Some(i);
    }
  }

  lemma CutAt(user: string, host: string)
    requires '@' !in host
    ensures Cut(user + "@" + host) == Some(Parts(user, host))
  {
    var f := user + "@" + host;
    assert f[|user|] == '@' && forall k :: |user| < k < |f| ==> f[k] == host[k - |user| - 1];
    assert Last(f, '@') == Some(|user|);
    assert f[..|user|] == user && f[|user| + 1..] == host;
  }

  // The texts are compared in parts, as folded and cut at their last '@'.
  ghost predicate InParts(m: string, n: string, a: Parts, b: Parts) {
    && '@' !in a.host && '@' !in b.host
    && Folded(m) == a.user + "@" + a.host && Folded(n) == b.user + "@" + b.host
  }

  lemma PartsAre(m: string, n: string, a: Parts, b: Parts)
    requires InParts(m, n, a, b)
    ensures Cut(Folded(m)) == Some(a) && Cut(Folded(n)) == Some(b)
  {
    CutAt(a.user, a.host);
    CutAt(b.user, b.host);
  }

  // The score in terms of the two parts.
  lemma ScoreOfParts(pton: Parser, m: string, n: string, a: Parts, b: Parts, cmp: bool)
    requires IsParser(pton) && InParts(m, n, a, b)
    ensures var user, hosts := Score(a.user, b.user), HostScore(pton, a.host, b.host, cmp);
            AddrScore(pton, true, m, n, cmp) ==
            if user == 0 then 0
            else if a.host == "" && b.host == "" then user
            else if hosts == 0 then 0
            else user + hosts
  {
    PartsAre(m, n, a, b);
  }

  lemma TextHostScore(pton: Parser, h: string, g: string, cmp: bool)
    requires IsParser(pton) && !IsBlock(h)
    ensures HostScore(pton, h, g, cmp) == Score(h, g)
  {
    BlockIsCidr(h);
  }

  /** With a host that is no block: users match, and hosts do or are both empty; each part compared counts
      one and its letters. */
  lemma TextVerdict(pton: Parser, m: string, n: string, a: Parts, b: Parts, cmp: bool)
    requires IsParser(pton) && InParts(m, n, a, b) && !IsBlock(a.host)
    ensures var score := AddrScore(pton, true, m, n, cmp);
            && (score > 0 <==> Globs(a.user, b.user) && ((a.host == "" && b.host == "") || Globs(a.host, b.host)))
            && (score > 0 ==> score == 1 + Literals(a.user) + if a.host == "" then 0 else 1 + Literals(a.host))
  {
    ScoreOfParts(pton, m, n, a, b, cmp);
    TextHostScore(pton, a.host, b.host, cmp);
  }

  // The score for agreement in the first count bits.
  predicate BlockScore(f: Family, count: nat, score: int) {
    && (count == 0 ==> score == 1)
    && (count > 0 && (f == V4 || count % 8 == 0) ==> score == count)
    && (f == V6 && count % 8 != 0 ==> 4 * score <= count < 4 * score + 4)
  }

  lemma ScoreOfBlock(pton: Parser, block: string, n: string, count: nat)
    requires IsParser(pton)
    ensures var score := CidrScore(pton, block, n, count);
            score > 0 ==> BlockScore(FamilyOf(block, n), count, score)
  {
  }

  lemma DigitsHoldNoSlash(digits: string)
    requires AllDigits(digits)
    ensures '/' !in digits
  {
  }

  lemma BlockHostScore(pton: Parser, block: string, digits: string, g: string, cmp: bool)
    requires IsParser(pton) && AllDigits(digits) && (cmp ==> !IsBlock(g))
    ensures HostScore(pton, block + "/" + digits, g, cmp) == CidrScore(pton, block, g, Decimal(digits))
  {
    CidrAt(block, digits);
    BlockIsCidr(g);
  }

  lemma BlocksHostScore(pton: Parser, block: string, digits: string, inner: string, more: string)
    requires IsParser(pton) && AllDigits(digits) && AllDigits(more)
    ensures HostScore(pton, block + "/" + digits, inner + "/" + more, true) ==
            if Decimal(digits) > Decimal(more) then 0 else CidrScore(pton, block, inner, Decimal(digits))
  {
    CidrAt(block, digits);
    CidrAt(inner, more);
  }

  /** With a block for a host, and not as masks or with a host that is no block: users match, and the
      host agrees with the block in the bits of its prefix. */
  lemma BlockVerdict(pton: Parser, m: string, n: string, a: Parts, b: Parts, cmp: bool, block: string, digits: string)
    requires IsParser(pton) && InParts(m, n, a, b) && a.host == block + "/" + digits && AllDigits(digits)
    requires cmp ==> !IsBlock(b.host)
    ensures var score, count := AddrScore(pton, true, m, n, cmp), Decimal(digits);
            && (score > 0 <==> Globs(a.user, b.user) && InBlock(pton, block, b.host, count) &&
                               !ScoreLost(FamilyOf(block, b.host), count))
            && (score > 0 ==> BlockScore(FamilyOf(block, b.host), count, score - 1 - Literals(a.user)))
  {
    ScoreOfParts(pton, m, n, a, b, cmp);
    BlockHostScore(pton, block, digits, b.host, cmp);
    ScoreOfBlock(pton, block, b.host, Decimal(digits));
  }

  /** With two blocks, as masks: the first one is no longer, and the blocks agree in its bits. */
  lemma BlocksVerdict(pton: Parser, m: string, n: string, a: Parts, b: Parts, block: string, digits: string,
                      inner: string, more: string)
    requires IsParser(pton) && InParts(m, n, a, b) && a.host == block + "/" + digits && AllDigits(digits)
    requires b.host == inner + "/" + more && AllDigits(more)
    ensures var score, count := AddrScore(pton, true, m, n, true), Decimal(digits);
            && (score > 0 <==> Globs(a.user, b.user) && count <= Decimal(more) && InBlock(pton, block, inner, count) &&
                               !ScoreLost(FamilyOf(block, inner), count))
            && (score > 0 ==> BlockScore(FamilyOf(block, inner), count, score - 1 - Literals(a.user)))
  {
    ScoreOfParts(pton, m, n, a, b, true);
    BlocksHostScore(pton, block, digits, inner, more);
    ScoreOfBlock(pton, block, inner, Decimal(digits));
  }

  /** Without CIDR, or without an '@' in both: the texts match as wholes. */
  lemma WholeVerdict(pton: Parser, cidr: bool, m: string, n: string, cmp: bool)
    requires IsParser(pton) && (!cidr || '@' !in Folded(m) || '@' !in Folded(n))
    ensures var score := AddrScore(pton, cidr, m, n, cmp);
            && (score > 0 <==> Globs(Folded(m), Folded(n)))
            && (score > 0 ==> score == 1 + Literals(Folded(m)))
  {
    ScoreOfWhole(pton, cidr, m, n, cmp);
  }

  lemma ScoreOfWhole(pton: Parser, cidr: bool, m: string, n: string, cmp: bool)
    requires IsParser(pton) && (!cidr || '@' !in Folded(m) || '@' !in Folded(n))
    ensures AddrScore(pton, cidr, m, n, cmp) == Score(Folded(m), Folded(n))
  {
    assert !cidr || Cut(Folded(m)).None? || Cut(Folded(n)).None?;
  }
}
