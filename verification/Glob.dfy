/** The meaning of a mask: a declarative glob relation, and the laws the matcher and its callers rest on. */
module Glob {
  import opened Chars

  const STAR := '*'
  const ANY := '?'

  predicate IsLiteral(c: char) {
    c != STAR && c != ANY
  }

  /** A mask matches a text when each '*' can be given a run of the text, each '?' one
      character, and each other character its own letter in either case. */
  ghost predicate Matches(mask: string, text: string)
    decreases |mask|
  {
    if mask == "" then
      text == ""
    else if mask[0] == STAR then
      exists k :: 0 <= k <= |text| && Matches(mask[1..], text[k..])
    else
      text != "" && (mask[0] == ANY || SameLetter(mask[0], text[0])) && Matches(mask[1..], text[1..])
  }

  function Literals(mask: string): nat {
    if mask == "" then 0 else (if IsLiteral(mask[0]) then 1 else 0) + Literals(mask[1..])
  }

  function Count(c: char, s: string): nat {
    if s == "" then 0 else (if s[0] == c then 1 else 0) + Count(c, s[1..])
  }

  /** What the source's match score means: 0 for no match, else one more than the number of
      mask characters that are not wildcards. */
  ghost function Score(mask: string, text: string): nat {
    if mask != "" && text != "" && Matches(mask, text) then 1 + Literals(mask) else 0
  }

  // wild_match() never matches an empty mask or an empty text.
  ghost predicate Globs(mask: string, text: string) {
    mask != "" && text != "" && Matches(mask, text)
  }

  lemma {:induction false} LiteralsSplit(a: string, b: string)
    ensures Literals(a + b) == Literals(a) + Literals(b)
  {
    if a == "" {
      assert a + b == b;
    } else {
      assert (a + b)[1..] == a[1..] + b;
      LiteralsSplit(a[1..], b);
    }
  }

  // A mask made of two parts matches exactly the texts that can be cut between them.
  lemma {:induction false} MatchesSplit(a: string, b: string, text: string)
    ensures Matches(a + b, text) <==> exists k :: 0 <= k <= |text| && Matches(a, text[..k]) && Matches(b, text[k..])
    decreases |a|
  {
    if a == "" {
      assert a + b == b && text[0..] == text;
      if Matches(b, text) {
        assert Matches(a, text[..0]);
      }
      forall k | 0 <= k <= |text| && Matches(a, text[..k]) ensures k == 0 {}
    } else {
      assert (a + b)[1..] == a[1..] + b;
      if Matches(a + b, text) {
        var k := JoinSplit(a, b, text);
      }
      if k :| 0 <= k <= |text| && Matches(a, text[..k]) && Matches(b, text[k..]) {
        CutJoin(a, b, text, k);
      }
    }
  }

  lemma {:induction false} JoinSplit(a: string, b: string, text: string) returns (k: nat)
    requires a != "" && Matches(a + b, text)
    ensures k <= |text| && Matches(a, text[..k]) && Matches(b, text[k..])
    decreases |a|, 0
  {
    assert (a + b)[1..] == a[1..] + b;
    var skip := 1;
    if a[0] == STAR {
      skip :| 0 <= skip <= |text| && Matches(a[1..] + b, text[skip..]);
    }
    MatchesSplit(a[1..], b, text[skip..]);
    var j :| 0 <= j <= |text[skip..]| && Matches(a[1..], text[skip..][..j]) && Matches(b, text[skip..][j..]);
    k := skip + j;
    assert text[skip..][..j] == text[..k][skip..];
    assert text[skip..][j..] == text[k..];
  }

  lemma {:induction false} CutJoin(a: string, b: string, text: string, k: nat)
    requires a != "" && k <= |text| && Matches(a, text[..k]) && Matches(b, text[k..])
    ensures Matches(a + b, text)
    decreases |a|, 0
  {
    assert (a + b)[1..] == a[1..] + b;
    var skip := 1;
    if a[0] == STAR {
      skip :| 0 <= skip <= k && Matches(a[1..], text[..k][skip..]);
    }
    assert text[skip..][..k - skip] == text[..k][skip..];
    assert text[skip..][k - skip..] == text[k..];
    MatchesSplit(a[1..], b, text[skip..]);
  }

  // Any text is matched by a mask that keeps it letter for letter.
  lemma {:induction false} MatchesSelf(text: string)
    ensures Matches(text, text)
    decreases |text|
  {
    if text != "" {
      MatchesSelf(text[1..]);
    }
  }

  // No wildcards.
  predicate Plain(s: string) {
    STAR !in s && ANY !in s
  }

  // The same letters in either case.
  predicate SameText(a: string, b: string) {
    |a| == |b| && forall i :: 0 <= i < |a| ==> SameLetter(a[i], b[i])
  }

  lemma {:induction false} PlainMatches(p: string, s: string)
    requires Plain(p)
    ensures Matches(p, s) <==> SameText(p, s)
    decreases |p|
  {
    if p != "" && s != "" {
      PlainMatches(p[1..], s[1..]);
      if SameText(p[1..], s[1..]) && SameLetter(p[0], s[0]) {
        forall i | 0 <= i < |p| ensures SameLetter(p[i], s[i]) {
          if i > 0 {
            assert SameLetter(p[1..][i - 1], s[1..][i - 1]);
          }
        }
      }
    }
  }

  // A match needs at least one character for each mask character that is not '*'.
  lemma {:induction false} MatchesNeeds(mask: string, text: string)
    requires Matches(mask, text)
    ensures |text| >= Literals(mask) + Count(ANY, mask)
    ensures STAR !in mask ==> |text| == |mask|
    decreases |mask|
  {
    if mask != "" {
      if mask[0] == STAR {
        var k :| 0 <= k <= |text| && Matches(mask[1..], text[k..]);
        MatchesNeeds(mask[1..], text[k..]);
      } else {
        MatchesNeeds(mask[1..], text[1..]);
      }
    }
  }

  // A mask of stars alone matches everything; it is also the only kind that matches "".
  lemma {:induction false} MatchesEmpty(mask: string)
    ensures Matches(mask, "") <==> forall i :: 0 <= i < |mask| ==> mask[i] == STAR
    decreases |mask|
  {
    if mask != "" {
      MatchesEmpty(mask[1..]);
      if mask[0] == STAR {
        assert ""[0..] == "";
        forall i | 1 <= i < |mask| ensures mask[i] == mask[1..][i - 1] {}
      }
    }
  }

  lemma StarsMatchAll(mask: string, text: string)
    requires mask != "" && forall i :: 0 <= i < |mask| ==> mask[i] == STAR
    ensures Matches(mask, text)
    decreases |mask|
  {
    assert text[|text|..] == "";
    MatchesEmpty(mask[1..]);
  }
}
