/** net.c: what sockgets() makes of a stream of bytes that comes in pieces. */
module Lines {
  import opened Options

  predicate Eol(c: char) {
    c == '\r' || c == '\n'
  }

  // No line end in s[i..j].
  predicate Plain(s: string, i: nat, j: nat)
    requires i <= j <= |s|
  {
    forall k :: i <= k < j ==> !Eol(s[k])
  }

  // Where the first line end is, or the end of the text.
  function LineEnd(s: string): (n: nat)
    ensures n <= |s| && Plain(s, 0, n) && (n < |s| ==> Eol(s[n]))
  {
    if s == "" || Eol(s[0]) then 0 else 1 + LineEnd(s[1..])
  }

  function SkipEols(s: string): string {
    if s != "" && Eol(s[0]) then SkipEols(s[1..]) else s
  }

  /** What the stream is made of: its lines, less the empty ones, and the last one, ended or not. */
  function Runs(s: string): seq<string>
    decreases |s|
  {
    if s == "" then []
    else if Eol(s[0]) then Runs(s[1..])
    else [s[..LineEnd(s)]] + Runs(s[LineEnd(s)..])
  }

  // ---- Reading

  // Bytes that fit into a line, and into the buffer it is looked for in.
  const LINE: nat := 510
  const ROOM: nat := 512

  // A line, if there is one, and what is kept for later.
  datatype Got = Got(line: Option<string>, rest: string)

  predicate HasLine(inbuf: string) {
    LineEnd(inbuf) < |inbuf|
  }

  function Cut(s: string): string {
    if |s| <= LINE then s else s[..LINE]
  }

  // A stored line is handed out, without reading.
  function TakeStored(inbuf: string): Got
    requires HasLine(inbuf)
  {
    var n := LineEnd(inbuf);
    Got(Some(Cut(inbuf[..n])), SkipEols(inbuf[n + 1..]))
  }

  // Bytes come in: the front of what there is now is searched for a line.
  function TakeRead(all: string): Got {
    var n := if |all| < ROOM then |all| else LINE;
    var front, back := all[..n], all[n..];
    var e := LineEnd(front);
    if e < |front| then Got(Some(front[..e]), SkipEols(front[e + 1..]) + back)
    else if |front| >= LINE then Got(Some(front), back)
    else Got(None, all)
  }

  // read() stops at nothing, but the text of a read stops at the first NUL.
  function TextOf(chunk: string): string {
    if chunk == "" || chunk[0] == '\0' then "" else [chunk[0]] + TextOf(chunk[1..])
  }

  // What has been read so far, what was handed out, and what is kept.
  datatype Reader = Reader(stream: string, lines: seq<string>, inbuf: string)

  // One call of sockgets(); chunk is what a read brings, if there is one.
  function Gets(r: Reader, chunk: string): Reader {
    var empty := !HasLine(r.inbuf);
    var got := if empty then TakeRead(r.inbuf + TextOf(chunk)) else TakeStored(r.inbuf);
    Reader(r.stream + if empty then TextOf(chunk) else "",
           r.lines + if got.line.Some? then [got.line.value] else [],
           got.rest)
  }

  function GetsAll(chunks: seq<string>): Reader {
    if chunks == [] then Reader("", [], "")
    else Gets(GetsAll(chunks[..|chunks| - 1]), chunks[|chunks| - 1])
  }

  function NonEmpty(lines: seq<string>): seq<string> {
    if lines == [] then []
    else NonEmpty(lines[..|lines| - 1]) + if lines[|lines| - 1] == "" then [] else [lines[|lines| - 1]]
  }

  // Nothing lost, doubled or moved: the lines handed out and those kept are those of the stream.
  predicate Exact(r: Reader) {
    NonEmpty(r.lines) + Runs(r.inbuf) == Runs(r.stream)
  }

  // Lines put together.
  function Flat(lines: seq<string>): string {
    if lines == [] then "" else Flat(lines[..|lines| - 1]) + lines[|lines| - 1]
  }

  // No line is longer than 510 bytes.
  ghost predicate Short(s: string) {
    forall i: nat, j: nat {:trigger Plain(s, i, j)} :: i <= j <= |s| && Plain(s, i, j) ==> j - i <= LINE
  }

  // ---- Lines of texts put together

  lemma LineEndIs(s: string, n: nat)
    requires n <= |s| && Plain(s, 0, n) && (n < |s| ==> Eol(s[n]))
    ensures LineEnd(s) == n
  {
  }

  // Two texts do not grow together where they meet.
  predicate Apart(a: string, b: string) {
    a == "" || b == "" || Eol(a[|a| - 1]) || Eol(b[0])
  }

  lemma {:induction false} RunsJoin(a: string, b: string)
    requires Apart(a, b)
    ensures Runs(a + b) == Runs(a) + Runs(b)
    decreases |a|
  {
    if a == "" {
      assert a + b == b;
    } else if b == "" {
      assert a + b == a;
    } else if Eol(a[0]) {
      assert (a + b)[1..] == a[1..] + b;
      RunsJoin(a[1..], b);
    } else {
      LineOver(a, b);
      RunsJoin(a[LineEnd(a)..], b);
      LineJoins(a, b);
    }
  }

  lemma LineJoins(a: string, b: string)
    requires a != "" && b != "" && !Eol(a[0]) && Apart(a, b)
    requires Runs(a[LineEnd(a)..] + b) == Runs(a[LineEnd(a)..]) + Runs(b)
    ensures Runs(a + b) == Runs(a) + Runs(b)
  {
    LineOver(a, b);
    var line, rest := a[..LineEnd(a)], a[LineEnd(a)..];
    OneBefore(line, Runs(rest), Runs(b));
    assert (a + b)[0] == a[0];
    assert Runs(a + b) == [line] + Runs(rest + b);
    assert Runs(a) == [line] + Runs(rest);
  }

  lemma OneBefore(line: string, xs: seq<string>, ys: seq<string>)
    ensures [line] + (xs + ys) == ([line] + xs) + ys
  {
  }

  // The first line of a text, with another text behind it.
  lemma LineOver(a: string, b: string)
    requires a != "" && b != "" && Apart(a, b)
    ensures var n := LineEnd(a);
            && LineEnd(a + b) == n && (a + b)[..n] == a[..n] && (a + b)[n..] == a[n..] + b
            && Apart(a[n..], b)
  {
    var n := LineEnd(a);
    LineEndIs(a + b, n);
    assert n < |a| ==> a[n..][|a[n..]| - 1] == a[|a| - 1];
  }

  lemma {:induction false} RunsOfEols(s: string)
    requires forall i :: 0 <= i < |s| ==> Eol(s[i])
    ensures Runs(s) == []
  {
    if s != "" {
      RunsOfEols(s[1..]);
    }
  }

  // A line with the line ends behind it.
  lemma RunsOfLine(line: string, ends: string)
    requires Plain(line, 0, |line|) && forall i :: 0 <= i < |ends| ==> Eol(ends[i])
    ensures Runs(line + ends) == if line == "" then [] else [line]
  {
    RunsOfEols(ends);
    if line == "" {
      assert line + ends == ends;
    } else {
      LineEndIs(line + ends, |line|);
      assert (line + ends)[..|line|] == line && (line + ends)[|line|..] == ends;
    }
  }

  // The line ends skipped.
  lemma {:induction false} SkippedEols(s: string) returns (ends: string)
    ensures s == ends + SkipEols(s) && forall i :: 0 <= i < |ends| ==> Eol(ends[i])
  {
    if s != "" && Eol(s[0]) {
      var more := SkippedEols(s[1..]);
      ends := [s[0]] + more;
      assert s == [s[0]] + s[1..];
    } else {
      ends := "";
    }
  }

  lemma NonEmptyMore(lines: seq<string>, line: string)
    ensures NonEmpty(lines + [line]) == NonEmpty(lines) + if line == "" then [] else [line]
  {
    assert (lines + [line])[..|lines|] == lines;
  }

  // ---- Reading is exact

  // The text before the buffer is settled: it is not continued in what is to come.
  ghost predicate Settled(past: string) {
    past == "" || Eol(past[|past| - 1]) || (|past| >= LINE && Plain(past, |past| - LINE, |past|))
  }

  // All that was read is what has been settled and what is kept.
  ghost predicate Reading(r: Reader, past: string) {
    r.stream == past + r.inbuf && Settled(past) && NonEmpty(r.lines) == Runs(past)
  }

  // What goes on behind a settled text without a line end is too long a line.
  lemma TooLong(past: string, next: string)
    requires Settled(past) && past != "" && next != "" && !Eol(past[|past| - 1]) && !Eol(next[0])
    ensures !Short(past + next)
  {
    assert Plain(past + next, |past| - LINE, |past| + 1);
  }

  lemma SettledApart(past: string, next: string)
    requires Settled(past) && Short(past + next)
    ensures Apart(past, next)
  {
    if past != "" && next != "" && !Eol(past[|past| - 1]) && !Eol(next[0]) {
      TooLong(past, next);
    }
  }

  lemma ShortFront(a: string, b: string)
    requires Short(a + b)
    ensures Short(a)
  {
    forall i: nat, j: nat | i <= j <= |a| && Plain(a, i, j) ensures j - i <= LINE {
      assert Plain(a + b, i, j);
    }
  }

  // A line is taken off, with line ends behind it or as long as a line can be.
  lemma LineTaken(past: string, line: string, ends: string, rest: string)
    requires Settled(past) && Short(past + (line + ends + rest))
    requires Plain(line, 0, |line|) && forall i :: 0 <= i < |ends| ==> Eol(ends[i])
    requires ends != "" || |line| == LINE
    ensures Settled(past + (line + ends)) && |line| <= LINE
    ensures Runs(past + (line + ends)) == Runs(past) + if line == "" then [] else [line]
  {
    var next := line + ends;
    assert past + (line + ends + rest) == past + next + rest;
    ShortFront(past + next, rest);
    SettledApart(past, next);
    RunsJoin(past, next);
    RunsOfLine(line, ends);
    assert Plain(past + next, |past|, |past| + |line|);
  }

  // A text with a line in it, in three parts.
  lemma LineSplit(s: string) returns (ends: string)
    requires HasLine(s)
    ensures s == s[..LineEnd(s)] + ends + SkipEols(s[LineEnd(s) + 1..])
    ensures ends != "" && forall i :: 0 <= i < |ends| ==> Eol(ends[i])
  {
    var n := LineEnd(s);
    var more := SkippedEols(s[n + 1..]);
    ends := [s[n]] + more;
    Rejoin(s, n, more, SkipEols(s[n + 1..]));
  }

  lemma Rejoin(s: string, n: nat, more: string, rest: string)
    requires n < |s| && s[n + 1..] == more + rest
    ensures s == s[..n] + ([s[n]] + more) + rest
  {
    assert s == s[..n] + ([s[n]] + s[n + 1..]);
  }

  lemma StoredTaken(r: Reader, past: string, chunk: string) returns (past': string)
    requires Reading(r, past) && HasLine(r.inbuf) && Short(r.stream)
    ensures Reading(Gets(r, chunk), past')
  {
    assert r.inbuf + "" == r.inbuf;
    past' := FrontTaken(past, r.inbuf, "");
    var line, rest := r.inbuf[..LineEnd(r.inbuf)], SkipEols(r.inbuf[LineEnd(r.inbuf) + 1..]);
    assert rest + "" == rest;
    NonEmptyMore(r.lines, line);
    assert Plain(r.stream, |past|, |past| + |line|);
    assert Gets(r, chunk) == Reader(r.stream, r.lines + [line], rest);
  }

  ghost predicate Taken(past: string, stream: string, got: Got, past': string) {
    && stream == past' + got.rest && Settled(past')
    && Runs(past') == Runs(past) + if got.line.None? || got.line.value == "" then [] else [got.line.value]
  }

  lemma FrontTaken(past: string, front: string, back: string) returns (past': string)
    requires Settled(past) && Short(past + (front + back)) && HasLine(front)
    ensures Taken(past, past + (front + back), Got(Some(front[..LineEnd(front)]), SkipEols(front[LineEnd(front) + 1..]) + back), past')
  {
    var line, after := front[..LineEnd(front)], SkipEols(front[LineEnd(front) + 1..]);
    var ends := LineSplit(front);
    Regroup(past, line, ends, after, back);
    LineTaken(past, line, ends, after + back);
    past' := past + (line + ends);
  }

  lemma Regroup(past: string, line: string, ends: string, after: string, back: string)
    ensures line + ends + after + back == line + ends + (after + back)
    ensures past + (line + ends + after + back) == past + (line + ends) + (after + back)
  {
  }

  lemma LongTaken(past: string, front: string, back: string) returns (past': string)
    requires Settled(past) && Short(past + (front + back)) && !HasLine(front) && |front| >= LINE
    ensures Taken(past, past + (front + back), Got(Some(front), back), past')
  {
    assert Plain(past + (front + back), |past|, |past| + |front|);
    assert front + back == front + "" + back;
    LineTaken(past, front, "", back);
    past' := past + (front + "");
    assert past + (front + back) == past' + back;
  }

  lemma ReadTaken(past: string, all: string) returns (past': string)
    requires Settled(past) && Short(past + all)
    ensures Taken(past, past + all, TakeRead(all), past')
  {
    var n := if |all| < ROOM then |all| else LINE;
    var front, back := all[..n], all[n..];
    assert all == front + back;
    if HasLine(front) {
      past' := FrontTaken(past, front, back);
    } else if |front| >= LINE {
      past' := LongTaken(past, front, back);
    } else {
      past' := past;
    }
  }

  lemma GetsKeeps(r: Reader, past: string, chunk: string) returns (past': string)
    requires Reading(r, past) && Short(Gets(r, chunk).stream)
    ensures Reading(Gets(r, chunk), past')
  {
    if HasLine(r.inbuf) {
      assert r.stream + "" == r.stream;
      past' := StoredTaken(r, past, chunk);
    } else {
      var all := r.inbuf + TextOf(chunk);
      assert r.stream + TextOf(chunk) == past + all;
      past' := ReadTaken(past, all);
      var got := TakeRead(all);
      if got.line.Some? {
        NonEmptyMore(r.lines, got.line.value);
      } else {
        assert r.lines + [] == r.lines;
      }
    }
  }

  lemma {:induction false} ReadsSettle(chunks: seq<string>) returns (past: string)
    requires Short(GetsAll(chunks).stream)
    ensures Reading(GetsAll(chunks), past)
  {
    if chunks == [] {
      past := "";
    } else {
      var front, last := chunks[..|chunks| - 1], chunks[|chunks| - 1];
      var r := GetsAll(front);
      ShortFront(r.stream, Gets(r, last).stream[|r.stream|..]);
      assert Gets(r, last).stream == r.stream + Gets(r, last).stream[|r.stream|..];
      past := ReadsSettle(front);
      past := GetsKeeps(r, past, last);
    }
  }

  /** However a stream of short lines is cut into reads, and whenever sockgets() is called: the lines
      handed out, less the empty ones, and those kept are exactly the lines of the stream. */
  lemma ShortIsExact(chunks: seq<string>)
    requires Short(GetsAll(chunks).stream)
    ensures Exact(GetsAll(chunks))
  {
    var r := GetsAll(chunks);
    var past := ReadsSettle(chunks);
    SettledApart(past, r.inbuf);
    RunsJoin(past, r.inbuf);
  }

  // ---- Longer lines are not read exactly

  // A read for every byte.
  function Bytes(s: string): seq<string> {
    if s == "" then [] else Bytes(s[..|s| - 1]) + [[s[|s| - 1]]]
  }

  ghost predicate LinesShort(lines: seq<string>) {
    forall i :: 0 <= i < |lines| ==> |lines[i]| <= LINE
  }

  // No line is kept, and none is long.
  ghost predicate Steady(r: Reader) {
    !HasLine(r.inbuf) && |r.inbuf| < LINE && LinesShort(r.lines)
  }

  lemma OneByte(r: Reader, c: char)
    requires c != '\0' && Steady(r)
    ensures Gets(r, [c]).stream == r.stream + [c] && Steady(Gets(r, [c]))
  {
    var all := r.inbuf + [c];
    assert [c][1..] == "" && TextOf([c]) == [c];
    assert all[..|all|] == all && all[|all|..] == "";
    if Eol(c) {
      LineEndIs(all, |r.inbuf|);
      assert all[..|r.inbuf|] == r.inbuf && all[|r.inbuf| + 1..] == "";
    } else {
      LineEndIs(all, |all|);
    }
  }

  lemma {:induction false} ByteByByte(s: string)
    requires '\0' !in s
    ensures GetsAll(Bytes(s)).stream == s && Steady(GetsAll(Bytes(s)))
  {
    if s != "" {
      var front, last := s[..|s| - 1], s[|s| - 1];
      assert s == front + [last];
      ByteByByte(front);
      var r := GetsAll(Bytes(front));
      OneByte(r, last);
      BytesMore(s);
    }
  }

  lemma BytesMore(s: string)
    requires s != ""
    ensures GetsAll(Bytes(s)) == Gets(GetsAll(Bytes(s[..|s| - 1])), [s[|s| - 1]])
  {
    assert Bytes(s)[..|Bytes(s)| - 1] == Bytes(s[..|s| - 1]);
  }

  lemma {:induction false} BytesAreReads(s: string)
    ensures AllReads(Bytes(s))
  {
    if s != "" {
      BytesAreReads(s[..|s| - 1]);
    }
  }

  // Reads bring something, and no more than asked for.
  ghost predicate AllReads(chunks: seq<string>) {
    forall i :: 0 <= i < |chunks| ==> 1 <= |chunks[i]| <= 511
  }

  lemma {:induction false} NonEmptyShort(lines: seq<string>)
    requires LinesShort(lines)
    ensures LinesShort(NonEmpty(lines))
  {
    if lines != [] {
      NonEmptyShort(lines[..|lines| - 1]);
    }
  }

  lemma {:induction false} RunsShort(s: string)
    requires LinesShort(Runs(s))
    ensures Short(s)
    decreases |s|
  {
    if s != "" {
      var n := if Eol(s[0]) then 1 else LineEnd(s);
      assert Eol(s[0]) || (Runs(s)[0] == s[..n] && Runs(s)[1..] == Runs(s[n..]));
      RunsShort(s[n..]);
      forall i: nat, j: nat | i <= j <= |s| && Plain(s, i, j) ensures j - i <= LINE {
        if i >= n {
          assert Plain(s[n..], i - n, j - n);
        }
      }
    }
  }

  /** Reading is exact whatever the reads are, for a stream of short lines and for no other. */
  lemma ExactIffShort(s: string)
    requires '\0' !in s
    ensures Short(s) <==> forall chunks :: AllReads(chunks) && GetsAll(chunks).stream == s ==> Exact(GetsAll(chunks))
  {
    if Short(s) {
      forall chunks | AllReads(chunks) && GetsAll(chunks).stream == s ensures Exact(GetsAll(chunks)) {
        ShortIsExact(chunks);
      }
    } else {
      var r := GetsAll(Bytes(s));
      ByteByByte(s);
      BytesAreReads(s);
      if Exact(r) {
        NonEmptyShort(r.lines);
        KeptShort(r.inbuf);
        RunsShort(s);
        assert false;
      }
    }
  }

  lemma {:induction false} KeptShort(s: string)
    requires !HasLine(s) && |s| <= LINE
    ensures LinesShort(Runs(s))
  {
    if s != "" {
      assert s[..|s|] == s && s[|s|..] == "";
    }
  }
}
