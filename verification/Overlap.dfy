/** match.c: mask_match() tells whether two hostmasks overlap. */
module Overlap {
  import opened Options
  import opened Chars
  import opened Glob
  import opened Address
  import WildMatch

  // ---- Numbers in text

  function DigitsEnd(s: string): (n: nat)
    ensures n <= |s| && (forall i :: 0 <= i < n ==> IsDigit(s[i])) && (n < |s| ==> !IsDigit(s[n]))
  {
    if s == "" || !IsDigit(s[0]) then 0 else 1 + DigitsEnd(s[1..])
  }

  predicate IsBlank(c: char) {
    c == ' ' || '\t' <= c <= '\r'
  }

  // atoi(): blanks, a sign, and as many digits as follow.
  function Atoi(s: string): int
    decreases |s|
  {
    if s == "" then 0
    else if IsBlank(s[0]) then Atoi(s[1..])
    else if s[0] == '-' then 0 - Decimal(s[1..][..DigitsEnd(s[1..])])
    else if s[0] == '+' then Decimal(s[1..][..DigitsEnd(s[1..])])
    else Decimal(s[..DigitsEnd(s)])
  }

  lemma AtoiOfDigits(s: string)
    requires AllDigits(s)
    ensures Atoi(s) == Decimal(s)
  {
    DigitsEndAll(s);
    assert s[..|s|] == s && IsDigit(s[0]);
  }

  lemma DigitsEndAll(s: string)
    requires forall i :: 0 <= i < |s| ==> IsDigit(s[i])
    ensures DigitsEnd(s) == |s|
  {
  }

  // ---- Hosts

  // A host without its prefix length, and the text of that length.
  datatype Host = Host(block: string, length: Option<string>)

  function HostOf(h: string): Host {
    match Last(h, '/')
    case None => Host(h, None)
    case Some(i) => Host(h[..i], Some(h[i + 1..]))
  }

  predicate IsCidr(h: Host) {
    h.length.Some? && AllDigits(h.length.value)
  }

  function Width(block: string): nat {
    if ':' in block then 128 else 32
  }

  // The number of bits that are compared.
  function Compared(a: Host, b: Host): int {
    var prefix := if a.length.Some? then Atoi(a.length.value) else Width(a.block);
    if b.length.Some? && Atoi(b.length.value) < prefix then Atoi(b.length.value) else prefix
  }

  ghost function HostsOverlap(pton: Parser, r: string, s: string): nat
    requires IsParser(pton)
  {
    var a, b := HostOf(r), HostOf(s);
    if IsCidr(a) || IsCidr(b) then CidrScore(pton, a.block, b.block, Compared(a, b))
    else if Score(r, s) > 0 || Score(s, r) > 0 then 1
    else 0
  }

  ghost predicate EitherMatches(m: string, n: string) {
    Score(m, n) > 0 || Score(n, m) > 0
  }

  /** The verdict of mask_match(). */
  ghost function MaskOverlap(pton: Parser, cidr: bool, m: string, n: string): nat
    requires IsParser(pton)
  {
    var mu, nu := Folded(m), Folded(n);
    if !cidr || Cut(mu).None? || Cut(nu).None? then
      if EitherMatches(mu, nu) then 1 else 0
    else
      PartsOverlap(pton, Cut(mu).value, Cut(nu).value)
  }

  ghost function PartsOverlap(pton: Parser, a: Parts, b: Parts): nat
    requires IsParser(pton)
  {
    if !EitherMatches(a.user, b.user) then 0
    else if a.host == "" && b.host == "" then 1
    else HostsOverlap(pton, a.host, b.host)
  }

  method Either(m: string, n: string) returns (b: bool)
    ensures b == EitherMatches(m, n)
  {
    var x := WildMatch.WildMatch(m, n);
    if x > 0 {
      return true;
    }
    var y := WildMatch.WildMatch(n, m);
    return y > 0;
  }

  /** mask_match() */
  method MaskMatch(pton: Parser, cidrSupport: bool, m: string, n: string) returns (score: nat)
    requires IsParser(pton)
    ensures score == MaskOverlap(pton, cidrSupport, m, n)
  {
    var mu, r := Fold(m);
    var nu, s := Fold(n);
    if !cidrSupport || r.None? || s.None? {
      var either := Either(mu, nu);
      return if either then 1 else 0;
    }
    score := MatchParts(pton, Parts(mu[..r.value], mu[r.value + 1..]), Parts(nu[..s.value], nu[s.value + 1..]));
  }

  // The part of mask_match() behind the cut at the last '@'.
  method MatchParts(pton: Parser, m: Parts, n: Parts) returns (score: nat)
    requires IsParser(pton)
    ensures score == PartsOverlap(pton, m, n)
  {
    var users := Either(m.user, n.user);
    if !users {
      return 0;
    }
    if m.host == "" && n.host == "" {
      return 1;
    }
    score := MatchHosts(pton, m.host, n.host);
  }

  // The part of mask_match() that compares the hosts.
  method MatchHosts(pton: Parser, r: string, s: string) returns (score: nat)
    requires IsParser(pton)
    ensures score == HostsOverlap(pton, r, s)
  {
    var p, q := Last(r, '/'), Last(s, '/');
    if (p.None? || !AllDigits(r[p.value + 1..])) && (q.None? || !AllDigits(s[q.value + 1..])) {
      var either := Either(r, s);
      return if either then 1 else 0;
    }
    var rblock, sblock, prefix: int := r, s, 0;
    if p.Some? {
      rblock, prefix := r[..p.value], Atoi(r[p.value + 1..]);
    } else {
      prefix := if ':' in r then 128 else 32;
    }
    if q.Some? {
      sblock := s[..q.value];
      if Atoi(s[q.value + 1..]) < prefix {
        prefix := Atoi(s[q.value + 1..]);
      }
    }
    score := CidrMatch(pton, rblock, sblock, prefix);
  }
}
