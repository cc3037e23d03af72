/** misc.c: dumplots() breaks a long text into lines that fit. */
module Dumplots {
  import opened Options
  import opened Chars

  const WIDTH := 500

  // A line, and what stood in the text behind it.
  datatype Piece = Piece(text: string, sep: string)

  // The last blank among s[1..to], or 0.
  function LastBlank(s: string, to: nat): (q: nat)
    requires to < |s|
    ensures q <= to && (q > 0 ==> s[q] == ' ') && forall k :: q < k <= to ==> s[k] != ' '
  {
    if to == 0 || s[to] == ' ' then to else LastBlank(s, to - 1)
  }

  // What is short enough is only split at its line ends.
  function Tail(s: string): seq<Piece> {
    match First(s, '\n')
    case Some(n) => [Piece(s[..n], "\n")] + Tail(s[n + 1..])
    case None => if s == "" then [] else [Piece(s, "")]
  }

  // The front of a text that is too long: up to a line end that comes early enough, or as many
  // words as fit, or as much of a word as fits.
  function Front(s: string, max: nat): (p: Piece)
    requires 1 <= max < |s|
    ensures |p.text| + |p.sep| <= |s| && p.text + p.sep != ""
  {
    var n := First(s, '\n');
    var q := LastBlank(s, max);
    if n.Some? && n.value < max then Piece(s[..n.value], "\n")
    else if q > 0 then Piece(s[..q], " ")
    else Piece(s[..max], "")
  }

  function Pieces(s: string, max: nat): seq<Piece>
    requires max >= 1
    decreases |s|
  {
    if |s| <= max then Tail(s)
    else
      var p := Front(s, max);
      [p] + Pieces(s[|p.text| + |p.sep|..], max)
  }

  function Woven(ps: seq<Piece>): string {
    if ps == [] then "" else ps[0].text + ps[0].sep + Woven(ps[1..])
  }

  predicate Fits(p: Piece, max: nat) {
    '\n' !in p.text && |p.text| <= max && (p.sep == "" || p.sep == " " || p.sep == "\n")
  }

  // Only a line that is as long as can be is followed by the next one without anything between.
  predicate Broken(ps: seq<Piece>, max: nat) {
    && (forall i :: 0 <= i < |ps| ==> Fits(ps[i], max))
    && (forall i :: 0 <= i < |ps| - 1 && ps[i].sep == "" ==> |ps[i].text| == max)
  }

  lemma BrokenMore(p: Piece, ps: seq<Piece>, max: nat)
    requires Broken(ps, max) && Fits(p, max) && (ps != [] && p.sep == "" ==> |p.text| == max)
    ensures Broken([p] + ps, max)
    ensures Woven([p] + ps) == p.text + p.sep + Woven(ps)
  {
    assert ([p] + ps)[1..] == ps;
  }

  lemma {:induction false} TailIs(s: string, max: nat)
    requires |s| <= max
    ensures Broken(Tail(s), max) && Woven(Tail(s)) == s
    decreases |s|
  {
    match First(s, '\n')
    case Some(n) =>
      TailIs(s[n + 1..], max);
      BrokenMore(Piece(s[..n], "\n"), Tail(s[n + 1..]), max);
      assert s == s[..n] + "\n" + s[n + 1..];
    case None =>
      if s != "" {
        BrokenMore(Piece(s, ""), [], max);
        assert [Piece(s, "")] + [] == [Piece(s, "")] && s + "" + "" == s;
      }
  }

  lemma FrontIs(s: string, max: nat)
    requires 1 <= max < |s|
    ensures var p := Front(s, max);
            && Fits(p, max) && (p.sep == "" ==> |p.text| == max)
            && s == p.text + p.sep + s[|p.text| + |p.sep|..]
  {
    var p := Front(s, max);
    var n := |p.text|;
    if p.sep != "" {
      assert p.sep == [s[n]];
      assert s == s[..n] + [s[n]] + s[n + 1..];
    } else {
      assert s == s[..n] + "" + s[n..];
    }
  }

  /** The lines are whole, fit, hold no line end, and give the text back. */
  lemma {:induction false} PiecesAre(s: string, max: nat)
    requires max >= 1
    ensures Broken(Pieces(s, max), max) && Woven(Pieces(s, max)) == s
    decreases |s|
  {
    if |s| <= max {
      TailIs(s, max);
    } else {
      var p := Front(s, max);
      var rest := s[|p.text| + |p.sep|..];
      FrontIs(s, max);
      PiecesAre(rest, max);
      BrokenMore(p, Pieces(rest, max), max);
    }
  }

  // Nothing that could come first in a text that is too long is left for the next line: an early line
  // end divides, or else the last blank that fits, or else the line is full.
  ghost predicate Greedy(p: Piece, rest: string, max: nat) {
    var s := p.text + p.sep + rest;
    if |s| <= max then
      p.sep != " " && (p.sep == "" ==> rest == "")
    else
      && (p.sep != "\n" ==> forall k :: 0 <= k < max ==> s[k] != '\n')
      && (p.sep == " " ==> p.text != "" && forall k :: |p.text| < k <= max ==> s[k] != ' ')
      && (p.sep == "" ==> |p.text| == max && forall k :: 0 < k <= max ==> s[k] != ' ')
      && (p.sep == "\n" ==> |p.text| < max)
  }

  ghost predicate AllGreedy(ps: seq<Piece>, max: nat) {
    ps == [] || (Greedy(ps[0], Woven(ps[1..]), max) && AllGreedy(ps[1..], max))
  }

  lemma {:induction false} TailGreedy(s: string, max: nat)
    requires |s| <= max
    ensures AllGreedy(Tail(s), max)
    decreases |s|
  {
    var n := First(s, '\n');
    if n.Some? {
      var rest := s[n.value + 1..];
      TailGreedy(rest, max);
      FirstLineGreedy(s, n.value, max);
    } else if s != "" {
      OneLineGreedy(s, max);
    }
  }

  lemma FirstLineGreedy(s: string, n: nat, max: nat)
    requires n < |s| <= max && First(s, '\n') == Some(n) && AllGreedy(Tail(s[n + 1..]), max)
    ensures AllGreedy([Piece(s[..n], "\n")] + Tail(s[n + 1..]), max)
  {
    TailIs(s[n + 1..], max);
    OneMoreGreedy(Piece(s[..n], "\n"), Tail(s[n + 1..]), s[n + 1..], max);
  }

  lemma OneLineGreedy(s: string, max: nat)
    requires |s| <= max
    ensures AllGreedy([Piece(s, "")], max)
  {
    OneMoreGreedy(Piece(s, ""), [], "", max);
    assert [Piece(s, "")] + [] == [Piece(s, "")];
  }

  lemma OneMoreGreedy(p: Piece, ps: seq<Piece>, rest: string, max: nat)
    requires AllGreedy(ps, max) && Woven(ps) == rest && |p.text + p.sep + rest| <= max
    requires p.sep == "\n" || (p.sep == "" && rest == "")
    ensures AllGreedy([p] + ps, max)
  {
    assert ([p] + ps)[1..] == ps;
  }

  lemma FrontGreedy(s: string, max: nat)
    requires 1 <= max < |s|
    ensures var p := Front(s, max); Greedy(p, s[|p.text| + |p.sep|..], max)
  {
    FrontIs(s, max);
  }

  /** The pieces are as long as they can be: a text is divided at early line ends, and only then at blanks,
      the last one that fits, and inside a word only where it has none; one that fits is divided at line
      ends alone. */
  lemma {:induction false} PiecesGreedy(s: string, max: nat)
    requires max >= 1
    ensures AllGreedy(Pieces(s, max), max)
    decreases |s|
  {
    if |s| <= max {
      TailGreedy(s, max);
    } else {
      var p := Front(s, max);
      var rest := s[|p.text| + |p.sep|..];
      FrontGreedy(s, max);
      PiecesAre(rest, max);
      PiecesGreedy(rest, max);
      assert Pieces(s, max)[1..] == Pieces(rest, max);
    }
  }

  function Texts(prefix: string, ps: seq<Piece>): (lines: seq<string>)
    ensures |lines| == |ps| && forall i :: 0 <= i < |ps| ==> lines[i] == prefix + ps[i].text
  {
    seq(|ps|, i requires 0 <= i < |ps| => prefix + ps[i].text)
  }

  lemma TextsMore(prefix: string, p: Piece, ps: seq<Piece>)
    ensures Texts(prefix, [p] + ps) == [prefix + p.text] + Texts(prefix, ps)
  {
  }

  // The text behind its front.
  function Behind(s: string, max: nat): string
    requires 1 <= max < |s|
  {
    s[|Front(s, max).text| + |Front(s, max).sep|..]
  }

  lemma OneMore(prefix: string, lines: seq<string>, p: Piece, ps: seq<Piece>)
    ensures lines + Texts(prefix, [p] + ps) == lines + [prefix + p.text] + Texts(prefix, ps)
  {
    TextsMore(prefix, p, ps);
  }

  method TakeFront(p: string, max: nat) returns (line: string, rest: string)
    requires 1 <= max < |p|
    ensures line == Front(p, max).text && rest == Behind(p, max)
  {
    var n := First(p, '\n');
    if n.Some? && n.value < max {
      return p[..n.value], p[n.value + 1..];
    }
    var q := max;
    while p[q] != ' ' && q != 0
      invariant 0 <= q <= max && LastBlank(p, q) == LastBlank(p, max)
      invariant forall k :: q < k <= max ==> p[k] != ' '
      decreases q
    {
      q := q - 1;
    }
    if q == 0 {
      q := max;
    }
    return p[..q], if p[q] == ' ' then p[q + 1..] else p[q..];
  }

  // The loop over what is short enough.
  method DumpTail(prefix: string, data: string) returns (lines: seq<string>)
    ensures lines == Texts(prefix, Tail(data))
  {
    lines := [];
    var p := data;
    assert [] + Texts(prefix, Tail(p)) == Texts(prefix, Tail(data));
    var n := First(p, '\n');
    while n.Some?
      invariant n == First(p, '\n')
      invariant lines + Texts(prefix, Tail(p)) == Texts(prefix, Tail(data))
      decreases |p|
    {
      OneMore(prefix, lines, Piece(p[..n.value], "\n"), Tail(p[n.value + 1..]));
      lines := lines + [prefix + p[..n.value]];
      p := p[n.value + 1..];
      n := First(p, '\n');
    }
    assert lines + [] == lines;
    if p != "" {
      assert Texts(prefix, [Piece(p, "")]) == [prefix + p];
      lines := lines + [prefix + p];
    }
  }

  /** dumplots(), with the lines that it prints. With a prefix that takes up a whole line, and a text,
      it need not come to an end; with a longer one the room left wraps around, and any text fits. */
  method Dumplots(prefix: string, data: string) returns (lines: seq<string>)
    requires |prefix| == WIDTH ==> data == ""
    ensures data == "" ==> lines == [prefix]
    ensures data != "" ==> lines == Texts(prefix, if |prefix| > WIDTH then Tail(data) else Pieces(data, WIDTH - |prefix|))
  {
    if data == "" {
      return [prefix];
    }
    if |prefix| > 500 {
      lines := DumpTail(prefix, data);
      return;
    }
    lines := [];
    var p := data;
    var max := 500 - |prefix|;
    assert [] + Texts(prefix, Pieces(p, max)) == Texts(prefix, Pieces(data, max));
    while |p| > max
      invariant lines + Texts(prefix, Pieces(p, max)) == Texts(prefix, Pieces(data, max))
      decreases |p|
    {
      OneMore(prefix, lines, Front(p, max), Pieces(Behind(p, max), max));
      var line, rest := TakeFront(p, max);
      lines := lines + [prefix + line];
      p := rest;
    }
    var tail := DumpTail(prefix, p);
    lines := lines + tail;
  }
}
