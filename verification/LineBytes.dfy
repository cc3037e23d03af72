/** net.c: which line a call of sockgets() hands out, blank ones too, and which bytes are lost. */
module LineBytes {
  import opened Options
  import opened Lines

  // ---- One call

  predicate HoldsEol(s: string) {
    exists i :: 0 <= i < |s| && Eol(s[i])
  }

  // What is searched: the text that is kept, if it holds a line end, or else with what a read brings.
  function Searched(r: Reader, chunk: string): string {
    if HoldsEol(r.inbuf) then r.inbuf else r.inbuf + TextOf(chunk)
  }

  lemma HoldsIsHas(s: string)
    ensures HoldsEol(s) <==> HasLine(s)
  {
    if HasLine(s) {
      assert Eol(s[LineEnd(s)]);
    }
  }

  /** A call hands out a line exactly when the text searched holds a line end or has 510 bytes, and a blank
      one exactly when the text begins with a line end; a line is a front of the text without line ends. */
  lemma OneCall(r: Reader, chunk: string)
    ensures var r', s := Gets(r, chunk), Searched(r, chunk);
            if HoldsEol(s) || |s| >= 510
            then exists line :: && r'.lines == r.lines + [line] && line <= s && !HoldsEol(line)
                                && (line == "" <==> Eol(s[0]))
            else r'.lines == r.lines && r'.inbuf == s
  {
    var s := Searched(r, chunk);
    HoldsIsHas(r.inbuf);
    HoldsIsHas(s);
    if HasLine(r.inbuf) {
      var line := Cut(r.inbuf[..LineEnd(r.inbuf)]);
      assert Gets(r, chunk).lines == r.lines + [line] && line <= s;
    } else if HoldsEol(s) || |s| >= 510 {
      ReadHandsOut(s);
      assert Gets(r, chunk).lines == r.lines + [TakeRead(s).line.value];
    } else {
      assert s[..|s|] == s;
    }
  }

  lemma ReadHandsOut(s: string)
    requires HoldsEol(s) || |s| >= 510
    ensures var got := TakeRead(s);
            got.line.Some? && got.line.value <= s && !HoldsEol(got.line.value) && (got.line.value == "" <==> Eol(s[0]))
  {
    var n := if |s| < ROOM then |s| else LINE;
    var front := s[..n];
    if LineEnd(front) == |front| && |s| < ROOM {
      HoldsIsHas(s);
    }
  }

  /** The line goes on to the first line end and to no more than 510 bytes, or 511 where a read makes up
      that many. */
  lemma LineOf(r: Reader, chunk: string, e: nat)
    requires var s := Searched(r, chunk); e < |s| && Eol(s[e]) && forall k :: 0 <= k < e ==> !Eol(s[k])
    ensures Gets(r, chunk).lines == r.lines + [Searched(r, chunk)[..if e > 510 then 510 else e]]
  {
    var s := Searched(r, chunk);
    HoldsIsHas(r.inbuf);
    if HasLine(r.inbuf) {
      LineEndIs(s, e);
      assert e > 510 ==> s[..e][..510] == s[..510];
    } else {
      ReadLine(s, e);
    }
  }

  lemma ReadLine(s: string, e: nat)
    requires e < |s| && Eol(s[e]) && forall k :: 0 <= k < e ==> !Eol(s[k])
    ensures TakeRead(s).line == Some(s[..if e > 510 then 510 else e])
  {
    if |s| < ROOM {
      assert s[..|s|] == s;
      LineEndIs(s, e);
    } else {
      LineEndIs(s[..510], if e < 510 then e else 510);
      assert e < 510 ==> s[..510][..e] == s[..e];
    }
  }

  lemma LongLine(r: Reader, chunk: string)
    requires |Searched(r, chunk)| >= 510 && !HoldsEol(Searched(r, chunk))
    ensures var s := Searched(r, chunk);
            Gets(r, chunk).lines == r.lines + [if |s| < 512 then s else s[..510]]
  {
    var s := Searched(r, chunk);
    HoldsIsHas(r.inbuf);
    if |s| < 512 {
      assert s[..|s|] == s;
      LineEndIs(s, |s|);
    } else {
      LineEndIs(s[..510], 510);
    }
  }

  // ---- A read for every line

  // A line as it is read: with line ends behind it, in one piece.
  predicate OneRead(line: string, chunk: string) {
    && |line| < |chunk| <= 511 && chunk[..|line|] == line
    && (forall i :: 0 <= i < |line| ==> !Eol(line[i]))
    && (forall i :: |line| <= i < |chunk| ==> Eol(chunk[i]))
    && '\0' !in chunk
  }

  /** Lines that are read one by one are handed out as they are, the blank ones too. */
  lemma {:induction false} LineByLine(lines: seq<string>, chunks: seq<string>)
    requires |lines| == |chunks| && forall i :: 0 <= i < |lines| ==> OneRead(lines[i], chunks[i])
    ensures GetsAll(chunks).lines == lines && GetsAll(chunks).inbuf == ""
  {
    if lines != [] {
      var n := |lines| - 1;
      LineByLine(lines[..n], chunks[..n]);
      assert lines == lines[..n] + [lines[n]];
      OneLine(GetsAll(chunks[..n]), lines[n], chunks[n]);
    }
  }

  lemma OneLine(r: Reader, line: string, chunk: string)
    requires r.inbuf == "" && OneRead(line, chunk)
    ensures Gets(r, chunk).lines == r.lines + [line] && Gets(r, chunk).inbuf == ""
  {
    WholeText(chunk);
    assert "" + chunk == chunk;
    LineEndIs("", 0);
    LineTaken(line, chunk);
  }

  lemma LineTaken(line: string, chunk: string)
    requires OneRead(line, chunk)
    ensures TakeRead(chunk) == Got(Some(line), "")
  {
    assert chunk[..|chunk|] == chunk && chunk[|chunk|..] == "";
    LineEndIs(chunk, |line|);
    OnlyEols(chunk[|line| + 1..]);
    assert "" + "" == "";
  }

  lemma {:induction false} WholeText(chunk: string)
    requires '\0' !in chunk
    ensures TextOf(chunk) == chunk
  {
    if chunk != "" {
      WholeText(chunk[1..]);
      assert chunk == [chunk[0]] + chunk[1..];
    }
  }

  lemma {:induction false} OnlyEols(s: string)
    requires forall i :: 0 <= i < |s| ==> Eol(s[i])
    ensures SkipEols(s) == ""
  {
    if s != "" {
      OnlyEols(s[1..]);
    }
  }

  // ---- Bytes

  // A text without its line ends.
  function NoEols(s: string): string {
    if s == "" then "" else NoEols(s[..|s| - 1]) + if Eol(s[|s| - 1]) then "" else [s[|s| - 1]]
  }

  // What was handed out and what is kept.
  function Held(r: Reader): string {
    NoEols(Flat(r.lines)) + NoEols(r.inbuf)
  }

  lemma {:induction false} BytesJoin(a: string, b: string)
    ensures NoEols(a + b) == NoEols(a) + NoEols(b)
    decreases |b|
  {
    if b == "" {
      assert a + b == a;
    } else {
      var front, c := b[..|b| - 1], b[|b| - 1];
      BytesJoin(a, front);
      assert (a + b)[..|a + b| - 1] == a + front;
    }
  }

  lemma {:induction false} BytesOfPlain(s: string)
    requires forall i :: 0 <= i < |s| ==> !Eol(s[i])
    ensures NoEols(s) == s
  {
    if s != "" {
      BytesOfPlain(s[..|s| - 1]);
      assert s == s[..|s| - 1] + [s[|s| - 1]];
    }
  }

  lemma {:induction false} BytesOfEols(s: string)
    requires forall i :: 0 <= i < |s| ==> Eol(s[i])
    ensures NoEols(s) == ""
  {
    if s != "" {
      BytesOfEols(s[..|s| - 1]);
    }
  }

  lemma BytesSkipped(s: string)
    ensures NoEols(SkipEols(s)) == NoEols(s)
  {
    var ends := SkippedEols(s);
    BytesJoin(ends, SkipEols(s));
    BytesOfEols(ends);
    assert "" + NoEols(SkipEols(s)) == NoEols(SkipEols(s));
  }

  lemma FlatMore(lines: seq<string>, line: string)
    ensures Flat(lines + [line]) == Flat(lines) + line
  {
    assert (lines + [line])[..|lines|] == lines;
  }

  // A text with a line end, without it.
  lemma BytesAround(s: string, e: nat)
    requires e < |s| && Eol(s[e])
    ensures NoEols(s) == NoEols(s[..e]) + NoEols(SkipEols(s[e + 1..]))
  {
    assert s == s[..e] + ([s[e]] + s[e + 1..]);
    BytesJoin(s[..e], [s[e]] + s[e + 1..]);
    BytesJoin([s[e]], s[e + 1..]);
    BytesOfEols([s[e]]);
    BytesSkipped(s[e + 1..]);
    assert "" + NoEols(s[e + 1..]) == NoEols(s[e + 1..]);
  }

  // ---- What one call does with them

  // A stored line of more than 510 bytes.
  predicate Overlong(s: string) {
    exists e :: 510 < e < |s| && Eol(s[e]) && forall k :: 0 <= k < e ==> !Eol(s[k])
  }

  lemma OverlongIs(s: string)
    ensures Overlong(s) <==> HasLine(s) && LineEnd(s) > 510
  {
    if e :| 510 < e < |s| && Eol(s[e]) && forall k :: 0 <= k < e ==> !Eol(s[k]) {
      LineEndIs(s, e);
    }
    if HasLine(s) && LineEnd(s) > 510 {
      var e := LineEnd(s);
      assert Eol(s[e]) && forall k :: 0 <= k < e ==> !Eol(s[k]);
    }
  }

  lemma FrontBytes(front: string, back: string)
    requires HasLine(front)
    ensures var e := LineEnd(front);
            NoEols(front[..e]) + NoEols(SkipEols(front[e + 1..]) + back) == NoEols(front + back)
  {
    var e := LineEnd(front);
    BytesJoin(front, back);
    BytesAround(front, e);
    BytesJoin(SkipEols(front[e + 1..]), back);
  }

  lemma ReadBytes(all: string)
    ensures var got := TakeRead(all);
            NoEols(if got.line.None? then "" else got.line.value) + NoEols(got.rest) == NoEols(all)
  {
    var n := if |all| < ROOM then |all| else LINE;
    var front, back := all[..n], all[n..];
    assert all == front + back;
    if HasLine(front) {
      FrontBytes(front, back);
    } else if |front| >= LINE {
      BytesJoin(front, back);
    } else {
      BytesJoin("", all);
      assert "" + all == all;
    }
  }

  lemma StoredBytes(s: string)
    requires HasLine(s)
    ensures var got := TakeStored(s);
            && |NoEols(got.line.value)| + |NoEols(got.rest)| <= |NoEols(s)|
            && (NoEols(got.line.value) + NoEols(got.rest) == NoEols(s) <==> LineEnd(s) <= 510)
            && (LineEnd(s) > 510 ==> |NoEols(got.line.value)| + |NoEols(got.rest)| < |NoEols(s)|)
  {
    var e := LineEnd(s);
    BytesAround(s, e);
    BytesOfPlain(s[..e]);
    BytesOfPlain(Cut(s[..e]));
  }

  // Lines handed out, and one more.
  lemma HeldMore(lines: seq<string>, line: string, rest: string)
    ensures NoEols(Flat(lines + [line])) + NoEols(rest) == NoEols(Flat(lines)) + (NoEols(line) + NoEols(rest))
  {
    FlatMore(lines, line);
    BytesJoin(Flat(lines), line);
  }

  // What a read makes of what is held.
  lemma HeldRead(lines: seq<string>, got: Got)
    ensures NoEols(Flat(lines + if got.line.Some? then [got.line.value] else [])) + NoEols(got.rest) ==
            NoEols(Flat(lines)) + (NoEols(if got.line.None? then "" else got.line.value) + NoEols(got.rest))
  {
    if got.line.Some? {
      HeldMore(lines, got.line.value, got.rest);
    } else {
      assert lines + [] == lines && NoEols("") + NoEols(got.rest) == NoEols(got.rest);
    }
  }

  lemma ReadKeeps(r: Reader, chunk: string)
    requires !HasLine(r.inbuf)
    ensures Held(Gets(r, chunk)) == Held(r) + NoEols(TextOf(chunk))
    ensures NoEols(Gets(r, chunk).stream) == NoEols(r.stream) + NoEols(TextOf(chunk))
  {
    var all := r.inbuf + TextOf(chunk);
    ReadBytes(all);
    HeldRead(r.lines, TakeRead(all));
    BytesJoin(r.inbuf, TextOf(chunk));
    BytesJoin(r.stream, TextOf(chunk));
    AssocBytes(NoEols(Flat(r.lines)), NoEols(r.inbuf), NoEols(TextOf(chunk)));
  }

  lemma AssocBytes(a: string, b: string, c: string)
    ensures a + (b + c) == (a + b) + c
  {
  }

  lemma StoredKeeps(r: Reader, chunk: string)
    requires HasLine(r.inbuf)
    ensures var r' := Gets(r, chunk);
            && r'.stream == r.stream && |Held(r')| <= |Held(r)|
            && (LineEnd(r.inbuf) <= 510 ==> Held(r') == Held(r))
            && (LineEnd(r.inbuf) > 510 ==> |Held(r')| < |Held(r)|)
  {
    var got := TakeStored(r.inbuf);
    StoredBytes(r.inbuf);
    HeldMore(r.lines, got.line.value, got.rest);
    assert r.stream + "" == r.stream;
  }

  // ---- Runs

  // No call finds a stored line that is too long.
  predicate NeverOverlong(chunks: seq<string>) {
    forall i :: 0 <= i < |chunks| ==> !Overlong(GetsAll(chunks[..i]).inbuf)
  }

  lemma NeverMore(chunks: seq<string>)
    requires chunks != []
    ensures var front := chunks[..|chunks| - 1];
            NeverOverlong(chunks) <==> NeverOverlong(front) && !Overlong(GetsAll(front).inbuf)
  {
    var front := chunks[..|chunks| - 1];
    forall i | 0 <= i < |front| ensures chunks[..i] == front[..i] {}
  }

  lemma {:induction false} Balance(chunks: seq<string>)
    ensures var r := GetsAll(chunks);
            && |Held(r)| <= |NoEols(r.stream)|
            && (NeverOverlong(chunks) ==> Held(r) == NoEols(r.stream))
            && (!NeverOverlong(chunks) ==> |Held(r)| < |NoEols(r.stream)|)
  {
    if chunks != [] {
      var front, last := chunks[..|chunks| - 1], chunks[|chunks| - 1];
      var r := GetsAll(front);
      Balance(front);
      NeverMore(chunks);
      OverlongIs(r.inbuf);
      if HasLine(r.inbuf) {
        StoredKeeps(r, last);
      } else {
        ReadKeeps(r, last);
      }
    }
  }

  /** Whatever the stream and the reads are: what is handed out and what is kept are the bytes of the
      stream, less line ends, in order, exactly as long as no call finds a stored line of more than 510
      bytes. */
  lemma NothingLost(chunks: seq<string>)
    ensures var r := GetsAll(chunks);
            NoEols(Flat(r.lines)) + NoEols(r.inbuf) == NoEols(r.stream) <==> NeverOverlong(chunks)
  {
    Balance(chunks);
  }

  // ---- A byte is lost

  function Run(n: nat): (s: string)
    ensures |s| == n && forall i :: 0 <= i < n ==> s[i] == 'a'
  {
    seq(n, i => 'a')
  }

  lemma RunRead(r: Reader, k: nat, n: nat)
    requires r.inbuf == Run(k) && k + n >= 512
    ensures Gets(r, Run(n)).inbuf == Run(k + n - 510)
  {
    var all := r.inbuf + Run(n);
    LineEndIs(r.inbuf, k);
    WholeText(Run(n));
    LineEndIs(all[..510], 510);
    assert all[510..] == Run(k + n - 510);
  }

  lemma FirstRead(r: Reader, n: nat)
    requires r.inbuf == "" && n < 510
    ensures Gets(r, Run(n)).inbuf == Run(n)
  {
    WholeText(Run(n));
    LineEndIs("", 0);
    assert "" + Run(n) == Run(n) && Run(n)[..n] == Run(n);
    LineEndIs(Run(n), n);
  }

  lemma EndRead(r: Reader)
    requires r.inbuf == Run(511)
    ensures Overlong(Gets(r, Run(510) + "\n").inbuf)
  {
    var chunk := Run(510) + "\n";
    var all := r.inbuf + chunk;
    LineEndIs(r.inbuf, 511);
    WholeText(chunk);
    LineEndIs(all[..510], 510);
    var rest := all[510..];
    assert Gets(r, chunk).inbuf == rest;
    assert |rest| == 512 && rest[511] == '\n' && forall i :: 0 <= i < 511 ==> rest[i] == 'a';
  }

  // Three reads without a line end, and one that ends with it.
  predicate FillsUp(chunks: seq<string>) {
    && |chunks| == 5 && chunks[0] == Run(509) && chunks[1] == Run(511) && chunks[2] == Run(511)
    && chunks[3] == Run(510) + "\n"
  }

  lemma FilledUp(chunks: seq<string>)
    requires FillsUp(chunks)
    ensures Overlong(GetsAll(chunks[..4]).inbuf)
  {
    FourReads(chunks);
    FirstRead(GetsAll([]), 509);
    RunRead(GetsAll(chunks[..1]), 509, 511);
    RunRead(GetsAll(chunks[..2]), 510, 511);
    EndRead(GetsAll(chunks[..3]));
  }

  /** Four reads, and a call that finds one byte too many. */
  lemma ByteLost(chunks: seq<string>)
    requires FillsUp(chunks)
    ensures AllReads(chunks[..4])
    ensures NoEols(Flat(GetsAll(chunks).lines)) + NoEols(GetsAll(chunks).inbuf) != NoEols(GetsAll(chunks).stream)
  {
    Sized(chunks);
    Found(chunks, 4);
    NothingLost(chunks);
  }

  lemma Sized(chunks: seq<string>)
    requires FillsUp(chunks)
    ensures AllReads(chunks[..4])
  {
    forall i | 0 <= i < 4 ensures 1 <= |chunks[..4][i]| <= 511 {
      assert chunks[..4][i] == chunks[i];
    }
  }

  lemma Found(chunks: seq<string>, i: nat)
    requires FillsUp(chunks) && i == 4
    ensures !NeverOverlong(chunks)
  {
    FilledUp(chunks);
    assert Overlong(GetsAll(chunks[..i]).inbuf);
  }

  lemma FourReads(chunks: seq<string>)
    requires |chunks| >= 4
    ensures GetsAll(chunks[..1]) == Gets(GetsAll([]), chunks[0])
    ensures GetsAll(chunks[..2]) == Gets(GetsAll(chunks[..1]), chunks[1])
    ensures GetsAll(chunks[..3]) == Gets(GetsAll(chunks[..2]), chunks[2])
    ensures GetsAll(chunks[..4]) == Gets(GetsAll(chunks[..3]), chunks[3])
  {
    assert chunks[..0] == [];
    OneMore(chunks, 0);
    OneMore(chunks, 1);
    OneMore(chunks, 2);
    OneMore(chunks, 3);
  }

  lemma OneMore(chunks: seq<string>, i: nat)
    requires i < |chunks|
    ensures GetsAll(chunks[..i + 1]) == Gets(GetsAll(chunks[..i]), chunks[i])
  {
    assert chunks[..i + 1][..i] == chunks[..i];
  }
}
