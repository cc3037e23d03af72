/** When a mask that matches the text of another mask is at least as broad as it. */
module Covering {
  import opened Glob

  lemma {:induction false} CoverSound(m: string, n: string, s: string)
    requires ANY !in m && Matches(m, n) && Matches(n, s)
    ensures Matches(m, s)
    decreases |m|
  {
    if m == "" {
    } else if m[0] == STAR {
      var k :| 0 <= k <= |n| && Matches(m[1..], n[k..]);
      assert n[..k] + n[k..] == n;
      MatchesSplit(n[..k], n[k..], s);
      var j :| 0 <= j <= |s| && Matches(n[..k], s[..j]) && Matches(n[k..], s[j..]);
      CoverSound(m[1..], n[k..], s[j..]);
    } else {
      assert n[0] != STAR && n[0] != ANY;
      CoverSound(m[1..], n[1..], s[1..]);
    }
  }

  // Every '?' of the mask widened to '*'.
  function Widened(m: string): string {
    if m == "" then "" else [if m[0] == ANY then STAR else m[0]] + Widened(m[1..])
  }

  // The mask without its wildcards.
  function Letters(m: string): string {
    if m == "" then "" else (if IsLiteral(m[0]) then [m[0]] else "") + Letters(m[1..])
  }

  lemma {:induction false} WidenedIsBroader(m: string)
    ensures |Letters(m)| == Literals(m) && |Widened(m)| == |m|
    ensures Matches(m, Widened(m)) && Matches(Widened(m), Letters(m))
    ensures Literals(m) == 0 ==> forall i :: 0 <= i < |m| ==> Widened(m)[i] == STAR
  {
    if m != "" {
      WidenedIsBroader(m[1..]);
      var w, l := Widened(m), Letters(m);
      assert w[1..] == Widened(m[1..]);
      if m[0] == STAR || m[0] == ANY {
        assert l[0..] == Letters(m[1..]);
      } else {
        assert l[1..] == Letters(m[1..]);
      }
    }
  }

  // A mask without letters but with a '*' asks for as many characters as it has '?'.
  lemma {:induction false} OnlyWildcards(m: string, s: string)
    requires Literals(m) == 0 && STAR in m && Count(ANY, m) <= |s|
    ensures Matches(m, s)
    decreases |m|
  {
    if m[0] == STAR {
      if STAR in m[1..] {
        assert s[0..] == s;
        OnlyWildcards(m[1..], s);
      } else {
        var rest := s[|s| - Count(ANY, m)..];
        AllAny(m[1..], rest);
      }
    } else {
      OnlyWildcards(m[1..], s[1..]);
    }
  }

  lemma {:induction false} AllAny(m: string, s: string)
    requires Literals(m) == 0 && STAR !in m && Count(ANY, m) == |s|
    ensures Matches(m, s)
    decreases |m|
  {
    if m != "" {
      AllAny(m[1..], s[1..]);
    }
  }

  lemma {:induction false} CountAny(m: string)
    ensures Count(ANY, m) > 0 <==> ANY in m
  {
    if m != "" {
      CountAny(m[1..]);
    }
  }

  // m may be used to judge masks by their text: whatever n it matches, it also matches what n matches.
  ghost predicate JudgesMasks(m: string) {
    forall n, s :: Score(m, n) > 0 && Score(n, s) > 0 ==> Score(m, s) > 0
  }

  // The masks that can be trusted: no '?', or nothing but '*' and a single '?'.
  predicate Trusted(m: string) {
    ANY !in m || (Literals(m) == 0 && Count(ANY, m) == 1 && STAR in m)
  }

  lemma Overcovers(m: string) returns (n: string, s: string)
    requires !Trusted(m)
    ensures Score(m, n) > 0 && Score(n, s) > 0 && Score(m, s) == 0
  {
    CountAny(m);
    WidenedIsBroader(m);
    n := Widened(m);
    if Literals(m) > 0 {
      s := Letters(m);
    } else {
      s := if STAR in m then "a" else m + "a";
      StarsMatchAll(n, s);
    }
    if Matches(m, s) {
      MatchesNeeds(m, s);
      assert false;
    }
  }

  lemma TrustedCovers(m: string, n: string, s: string)
    requires Trusted(m) && Score(m, n) > 0 && Score(n, s) > 0
    ensures Score(m, s) > 0
  {
    if ANY !in m {
      CoverSound(m, n, s);
    } else {
      OnlyWildcards(m, s);
    }
  }

  /** Comparing masks by matching one against the text of the other is right exactly for trusted masks. */
  lemma CoverExact(m: string)
    ensures JudgesMasks(m) <==> Trusted(m)
  {
    if Trusted(m) {
      forall n, s | Score(m, n) > 0 && Score(n, s) > 0 ensures Score(m, s) > 0 {
        TrustedCovers(m, n, s);
      }
    } else {
      var n, s := Overcovers(m);
    }
  }
}
