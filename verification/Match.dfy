/** match.c: the greedy mask matcher. */
module WildMatch {
  import opened Chars
  import opened Glob

  // The first m characters of the mask match the first n characters of the text, read from the right.
  ghost predicate Fits(mask: string, m: int, text: string, n: int)
    requires 0 <= m <= |mask| && 0 <= n <= |text|
    decreases m
  {
    if m == 0 then
      n == 0
    else
      var m' := m - 1;
      if mask[m'] == STAR then
        exists k :: 0 <= k <= n && Fits(mask, m', text, k)
      else
        n > 0 && (mask[m'] == ANY || SameLetter(mask[m'], text[n - 1])) && Fits(mask, m', text, n - 1)
  }

  ghost predicate FitsWithin(mask: string, m: int, text: string, n: int)
    requires 0 <= m <= |mask| && 0 <= n <= |text|
  {
    exists k :: 0 <= k <= n && Fits(mask, m, text, k)
  }

  lemma LastStar(mask: string, m: int, text: string, n: int)
    requires 0 < m <= |mask| && 0 <= n <= |text| && mask[m - 1] == STAR
    ensures Fits(mask, m, text, n) <==> FitsWithin(mask, m - 1, text, n)
  {
    if Fits(mask, m, text, n) {
      LastStarRun(mask, m, text, n);
    }
  }

  lemma LastStarRun(mask: string, m: int, text: string, n: int)
    requires 0 < m <= |mask| && 0 <= n <= |text| && mask[m - 1] == STAR
    requires Fits(mask, m, text, n)
    ensures FitsWithin(mask, m - 1, text, n)
  {
  }

  ghost function LiteralsFrom(mask: string, i: nat): nat
    requires i <= |mask|
    decreases |mask| - i
  {
    if i == |mask| then 0 else (if IsLiteral(mask[i]) then 1 else 0) + LiteralsFrom(mask, i + 1)
  }

  lemma {:induction false} LiteralsFromIsLiterals(mask: string, i: nat)
    requires i <= |mask|
    ensures LiteralsFrom(mask, i) == Literals(mask[i..])
    decreases |mask| - i
  {
    if i < |mask| {
      assert mask[i..][1..] == mask[i + 1..];
      LiteralsFromIsLiterals(mask, i + 1);
    }
  }

  // Where the scan stands: mask[m] is compared with text[n] next. With lsm >= 0 it may return to
  // (lsm, lsn). Of the score, matched is settled and sofar is given up on such a return.
  datatype Scanner = Scanner(m: int, n: int, lsm: int, lsn: int, matched: nat, sofar: nat) {
    // goal is the answer to be found. The mask between m and lsm, matched since the last '*',
    // holds no '*' itself.
    ghost predicate Valid(mask: string, text: string, goal: bool) {
      && -1 <= m < |mask| && -1 <= n < |text| && -1 <= lsm < |mask| && -1 <= lsn < |text|
      && matched + sofar == 1 + LiteralsFrom(mask, m + 1)
      && (lsm < 0 ==> (goal <==> Fits(mask, m + 1, text, n + 1)))
      && (lsm >= 0 ==>
            && m <= lsm && lsn - n == lsm - m && 0 <= lsn && mask[lsm] != STAR
            && (forall i :: m < i <= lsm ==> mask[i] != STAR)
            && matched == 1 + LiteralsFrom(mask, lsm + 1)
            && (goal <==> FitsWithin(mask, lsm + 1, text, lsn + 1))
            && (Fits(mask, lsm + 1, text, lsn + 1) <==> Fits(mask, m + 1, text, n + 1)))
    }
  }

  lemma {:induction false} FitsIsMatches(mask: string, m: int, text: string, n: int)
    requires 0 <= m <= |mask| && 0 <= n <= |text|
    ensures Fits(mask, m, text, n) <==> Matches(mask[..m], text[..n])
    decreases m
  {
    if m > 0 {
      var m', c, part := m - 1, mask[m - 1], text[..n];
      assert mask[..m] == mask[..m'] + [c];
      MatchesSplit(mask[..m'], [c], part);
      forall k | 0 <= k <= n
        ensures part[..k] == text[..k]
        ensures Matches(mask[..m'], text[..k]) <==> Fits(mask, m', text, k)
        ensures Matches([c], part[k..]) <==>
                c == STAR || (k == n - 1 && (c == ANY || SameLetter(c, text[k])))
      {
        FitsIsMatches(mask, m', text, k);
        OneCharMask(c, part[k..]);
      }
      if c == STAR {
        LastStar(mask, m, text, n);
        if k :| 0 <= k <= n && Fits(mask, m', text, k) {
          assert Matches(mask[..m'], part[..k]);
        }
      } else if n > 0 {
        assert Matches(mask[..m'], part[..n - 1]) <==> Fits(mask, m', text, n - 1);
      }
    }
  }

  lemma OneCharMask(c: char, text: string)
    ensures Matches([c], text) <==> c == STAR || (|text| == 1 && (c == ANY || SameLetter(c, text[0])))
  {
    assert [c][1..] == "" && text[|text|..] == "";
    if c != STAR && |text| > 0 {
      assert text[1..] == "" <==> |text| == 1;
    }
  }

  lemma FitsIsMatch(mask: string, text: string)
    ensures Fits(mask, |mask|, text, |text|) <==> Matches(mask, text)
    ensures LiteralsFrom(mask, 0) == Literals(mask)
  {
    assert mask[..|mask|] == mask && text[..|text|] == text && mask[0..] == mask;
    LiteralsFromIsLiterals(mask, 0);
    FitsIsMatches(mask, |mask|, text, |text|);
  }

  // A '*'-free tail of a mask takes as many characters as it has itself.
  lemma {:induction false} TailFits(mask: string, star: int, m: int, text: string, k: int)
    requires 0 <= star <= m <= |mask| && 0 <= k <= |text|
    requires forall i :: star <= i < m ==> mask[i] != STAR
    requires Fits(mask, m, text, k)
    ensures m - star <= k && Fits(mask, star, text, k - (m - star))
    decreases m
  {
    if star < m {
      TailFits(mask, star, m - 1, text, k - 1);
    }
  }

  // Each mask character that is not '*' needs a character of the text.
  lemma {:induction false} FitsNeeds(mask: string, m: int, text: string, k: int)
    requires 0 <= m <= |mask| && 0 <= k <= |text| && Fits(mask, m, text, k)
    ensures (exists i :: 0 <= i < m && mask[i] != STAR) ==> k > 0
    decreases m
  {
    if m > 0 && mask[m - 1] == STAR {
      var j :| 0 <= j <= k && Fits(mask, m - 1, text, j);
      FitsNeeds(mask, m - 1, text, j);
    }
  }

  lemma {:induction false} StarsFit(mask: string, m: int, text: string)
    requires 0 <= m <= |mask| && forall i :: 0 <= i < m ==> mask[i] == STAR
    ensures Fits(mask, m, text, 0)
    decreases m
  {
    if m > 0 {
      StarsFit(mask, m - 1, text);
    }
  }

  // A run of stars ending at m is one star: some shorter text must fit what is left of them.
  lemma {:induction false} StarRun(mask: string, text: string, m: int, left: int, n: int)
    requires 0 <= left < m <= |mask| && 0 <= n <= |text|
    requires forall i :: left <= i < m ==> mask[i] == STAR
    ensures Fits(mask, m, text, n) <==> FitsWithin(mask, left, text, n)
    decreases m
  {
    LastStar(mask, m, text, n);
    if left < m - 1 {
      var m' := m - 1;
      if k :| 0 <= k <= n && Fits(mask, m', text, k) {
        StarRun(mask, text, m', left, k);
      }
      if j :| 0 <= j <= n && Fits(mask, left, text, j) {
        StarRun(mask, text, m - 1, left, j);
        assert FitsWithin(mask, left, text, j);
      }
    }
  }

  // Meeting a further '*' settles the segment just matched: its rightmost place is as good as any.
  lemma Commit(mask: string, text: string, goal: bool, s: Scanner)
    requires s.Valid(mask, text, goal) && 0 <= s.m && mask[s.m] == STAR
    ensures goal <==> Fits(mask, s.m + 1, text, s.n + 1)
  {
    if s.lsm >= 0 && goal {
      var k :| 0 <= k <= s.lsn + 1 && Fits(mask, s.lsm + 1, text, k);
      TailFits(mask, s.m + 1, s.lsm + 1, text, k);
      LastStar(mask, s.m + 1, text, k - (s.lsm - s.m));
      LastStar(mask, s.m + 1, text, s.n + 1);
    }
  }

  // The text ran out: the mask matches only if nothing but stars is left of it.
  lemma TextExhausted(mask: string, text: string, goal: bool, s: Scanner)
    requires s.Valid(mask, text, goal) && s.n == -1
    ensures goal <==> forall i :: 0 <= i <= s.m ==> mask[i] == STAR
  {
    if forall i :: 0 <= i <= s.m ==> mask[i] == STAR {
      StarsFit(mask, s.m + 1, text);
    } else {
      if Fits(mask, s.m + 1, text, 0) {
        FitsNeeds(mask, s.m + 1, text, 0);
      }
      if s.lsm >= 0 && goal {
        var k :| 0 <= k <= s.lsn + 1 && Fits(mask, s.lsm + 1, text, k);
        TailFits(mask, s.m + 1, s.lsm + 1, text, k);
      }
    }
  }

  // Zaps redundant stars: moves left over a run of '*'.
  method SkipStars(mask: string, from: int) returns (m: int)
    requires -1 <= from < |mask|
    ensures -1 <= m <= from
    ensures forall i :: m < i <= from ==> mask[i] == STAR
    ensures m >= 0 ==> mask[m] != STAR
    ensures LiteralsFrom(mask, m + 1) == LiteralsFrom(mask, from + 1)
  {
    m := from;
    while m >= 0 && mask[m] == STAR
      invariant -1 <= m <= from
      invariant forall i :: m < i <= from ==> mask[i] == STAR
      invariant LiteralsFrom(mask, m + 1) == LiteralsFrom(mask, from + 1)
    {
      m := m - 1;
    }
  }

  // Rewinds to the last '*', giving it one character more of the text.
  method FallBack(mask: string, text: string, ghost goal: bool, s: Scanner) returns (s': Scanner)
    requires s.Valid(mask, text, goal) && 0 <= s.lsm
    requires !Fits(mask, s.m + 1, text, s.n + 1)
    ensures s'.Valid(mask, text, goal)
    ensures s'.lsn == s'.n == s.lsn - 1 && s'.m == s.lsm
    ensures s'.lsm == if s'.n < 0 then -1 else s.lsm
  {
    s' := Scanner(s.lsm, s.lsn - 1, if s.lsn - 1 < 0 then -1 else s.lsm, s.lsn - 1, s.matched, 0);
    if goal {
      ghost var k :| 0 <= k <= s.lsn + 1 && Fits(mask, s.lsm + 1, text, k);
      assert k <= s.lsn;
    }
  }

  // A run of stars is passed: the scan may come back to the place left of it.
  method PassStars(mask: string, text: string, ghost goal: bool, s: Scanner) returns (s': Scanner)
    requires s.Valid(mask, text, goal) && 0 <= s.n && 0 <= s.m && mask[s.m] == STAR
    ensures s'.m >= 0 ==> s'.Valid(mask, text, goal) && s'.lsm == s'.m && s'.n == s'.lsn == s.n && s'.lsm < s.m
    ensures s'.m < 0 ==> goal && s'.matched + s'.sofar == 1 + LiteralsFrom(mask, 0)
  {
    var left := SkipStars(mask, s.m);
    s' := Scanner(left, s.n, left, s.n, s.matched + s.sofar, 0);
    Commit(mask, text, goal, s);
    StarRun(mask, text, s.m + 1, left + 1, s.n + 1);
    assert Fits(mask, 0, text, 0);
  }

  // One letter (or '?') is consumed on both sides, or the scan is at a dead end.
  lemma LetterStep(mask: string, text: string, goal: bool, s: Scanner)
    requires s.Valid(mask, text, goal) && 0 <= s.m && 0 <= s.n && mask[s.m] != STAR
    ensures mask[s.m] == ANY ==> s.(m := s.m - 1, n := s.n - 1).Valid(mask, text, goal)
    ensures mask[s.m] != ANY && SameLetter(mask[s.m], text[s.n]) ==>
            s.(m := s.m - 1, n := s.n - 1, sofar := s.sofar + 1).Valid(mask, text, goal)
    ensures mask[s.m] != ANY && !SameLetter(mask[s.m], text[s.n]) ==> !Fits(mask, s.m + 1, text, s.n + 1)
  {
  }

  /** _wild_match(): scans mask and text from their ends, with one place to fall back to. */
  method WildMatch(mask: string, text: string) returns (score: nat)
    ensures score == Score(mask, text)
  {
    if mask == "" || text == "" {
      return 0;
    }
    ghost var goal := Matches(mask, text);
    var s := Scanner(|mask| - 1, |text| - 1, -1, -1, 1, 0);
    FitsIsMatch(mask, text);
    while s.n >= 0
      invariant s.Valid(mask, text, goal)
      decreases if s.n < 0 then 0 else if s.lsm >= 0 then s.lsm + 1 else |mask| + 2, s.lsn + 1, s.n + 1
    {
      // The mask ran out before the text: fall back or fail.
      if s.m < 0 {
        if s.lsm < 0 {
          return 0;
        }
        s := FallBack(mask, text, goal, s);
      }
      if mask[s.m] == STAR {
        s := PassStars(mask, text, goal, s);
        if s.m < 0 {
          return s.matched + s.sofar;
        }
        continue;
      }
      LetterStep(mask, text, goal, s);
      if mask[s.m] == ANY {
        s := s.(m := s.m - 1, n := s.n - 1);
        continue;
      }
      if ToUpper(mask[s.m]) == ToUpper(text[s.n]) {
        s := s.(m := s.m - 1, n := s.n - 1, sofar := s.sofar + 1);
        continue;
      }
      if s.lsm < 0 {
        return 0;
      }
      s := FallBack(mask, text, goal, s);
    }
    TextExhausted(mask, text, goal, s);
    var m := SkipStars(mask, s.m);
    return if m >= 0 then 0 else s.matched + s.sofar;
  }
}
