/** From one bot's list to its neighbour's: the dump as it is queued, sent, read in pieces and heard. */
module BotDelivery {
  import opened Options
  import opened BotTree
  import opened BotState
  import opened BotRuns
  import opened BotReplay
  import opened Net
  import Wire
  import Lines

  function Chomps(lines: seq<string>): seq<string>
    requires forall i :: 0 <= i < |lines| ==> lines[i] != ""
  {
    if lines == [] then [] else Chomps(Front(lines)) + [Chomp(Back(lines))]
  }

  // A linked bot's lines, as handed out by sockgets().
  function Hear(st: State, idx: nat, lines: seq<string>, isolated: bool): State {
    if lines == [] then st
    else Step(Hear(st, idx, Front(lines), isolated), BotLine(idx, Back(lines), false, isolated, 0))
  }

  // ---- What is heard

  lemma EmptyLine(st: State, idx: nat, isolated: bool)
    ensures Step(st, BotLine(idx, "", false, isolated, 0)) == st
  {
    assert CodeOf("") == "";
  }

  lemma {:induction false} EmptyLinesUnheard(st: State, idx: nat, lines: seq<string>, isolated: bool)
    ensures Hear(st, idx, lines, isolated) == Hear(st, idx, Lines.NonEmpty(lines), isolated)
  {
    if lines != [] {
      var front, line := Front(lines), Back(lines);
      EmptyLinesUnheard(st, idx, front, isolated);
      assert lines == front + [line];
      HeardMore(st, idx, front, line, isolated);
      Lines.NonEmptyMore(front, line);
      HeardOrEmpty(st, idx, Lines.NonEmpty(front), line, isolated);
    }
  }

  lemma HeardOrEmpty(st: State, idx: nat, lines: seq<string>, line: string, isolated: bool)
    ensures Hear(st, idx, lines + if line == "" then [] else [line], isolated) ==
            Step(Hear(st, idx, lines, isolated), BotLine(idx, line, false, isolated, 0))
  {
    if line == "" {
      EmptyLine(Hear(st, idx, lines, isolated), idx, isolated);
      assert lines + [] == lines;
    } else {
      HeardMore(st, idx, lines, line, isolated);
    }
  }

  lemma HeardMore(st: State, idx: nat, lines: seq<string>, line: string, isolated: bool)
    ensures Hear(st, idx, lines + [line], isolated) ==
            Step(Hear(st, idx, lines, isolated), BotLine(idx, line, false, isolated, 0))
  {
    assert Front(lines + [line]) == lines && Back(lines + [line]) == line;
  }

  lemma {:induction false} HeardIsReplayed(st: State, idx: nat, lines: seq<string>, isolated: bool)
    requires forall i :: 0 <= i < |lines| ==> lines[i] != ""
    ensures Hear(st, idx, Chomps(lines), isolated) == Replay(st, idx, lines, isolated)
  {
    if lines != [] {
      HeardIsReplayed(st, idx, Front(lines), isolated);
      HeardMore(st, idx, Chomps(Front(lines)), Chomp(Back(lines)), isolated);
    }
  }

  // ---- What is on the wire

  // A line of a dump: some text without line ends, and a line end.
  predicate Ended(line: string) {
    && 1 < |line| <= 76 && line[|line| - 1] == '\n'
    && forall i :: 0 <= i < |line| - 1 ==> !Lines.Eol(line[i])
  }

  predicate AllEnded(lines: seq<string>): (b: bool)
    ensures b ==> forall i :: 0 <= i < |lines| ==> lines[i] != ""
  {
    forall i :: 0 <= i < |lines| ==> Ended(lines[i])
  }

  lemma {:induction false} DumpEnded(us: string, bots: seq<Bot>)
    requires NameOk(us) && Tree(us, bots) && AllSendable(bots)
    ensures AllEnded(DumpLinks(us, bots))
  {
    if bots != [] {
      var b := Back(bots);
      var line := Wire.LinkLine(b.name, UplinkName(us, b), b.share, b.ver);
      DumpEnded(us, Front(bots));
      LinkLineFits(us, bots, b);
      LinkLineText(b.name, UplinkName(us, b), b.share, b.ver);
      assert forall i :: 0 <= i < |line| - 1 ==> line[i] !in "\0\r\n";
    }
  }

  lemma FlatEnds(lines: seq<string>)
    requires AllEnded(lines)
    ensures lines == [] <==> Lines.Flat(lines) == ""
    ensures lines != [] ==> Lines.Flat(lines)[|Lines.Flat(lines)| - 1] == '\n'
  {
  }

  // The lines of the text are the lines it was made of.
  lemma {:induction false} RunsOfFlat(lines: seq<string>)
    requires AllEnded(lines)
    ensures Lines.Runs(Lines.Flat(lines)) == Chomps(lines)
  {
    if lines != [] {
      var front, line := Front(lines), Back(lines);
      RunsOfFlat(front);
      FlatEnds(front);
      Lines.RunsJoin(Lines.Flat(front), line);
      Lines.RunsOfLine(Chomp(line), "\n");
      assert line == Chomp(line) + "\n";
    }
  }

  lemma {:induction false} ChompAt(lines: seq<string>, i: nat)
    requires i < |lines| && forall j :: 0 <= j < |lines| ==> lines[j] != ""
    ensures |Chomps(lines)| == |lines| && Chomps(lines)[i] == Chomp(lines[i])
  {
    if i < |lines| - 1 {
      ChompAt(Front(lines), i);
    } else if i > 0 {
      ChompAt(Front(lines), i - 1);
    }
  }

  lemma FlatShort(lines: seq<string>)
    requires AllEnded(lines)
    ensures Lines.Short(Lines.Flat(lines))
  {
    RunsOfFlat(lines);
    forall i | 0 <= i < |Chomps(lines)| ensures |Chomps(lines)[i]| <= Lines.LINE {
      if lines != [] {
        ChompAt(lines, 0);
        ChompAt(lines, i);
      }
    }
    Lines.RunsShort(Lines.Flat(lines));
  }

  // ---- What has arrived

  // What follows the last line end is empty.
  lemma LastKept(past: string, next: string)
    requires past + next == "" || (past + next)[|past + next| - 1] == '\n'
    ensures next == "" || Lines.HasLine(next)
  {
    if next != "" {
      assert (past + next)[|past + next| - 1] == next[|next| - 1];
    }
  }

  // However much of a text has been read, and however it was cut: the lines handed out so far are
  // the first ones of the text, and all of them once all is read and no line is kept.
  lemma FirstLines(chunks: seq<string>, lines: seq<string>)
    requires AllEnded(lines) && Lines.GetsAll(chunks).stream <= Lines.Flat(lines)
    ensures var r := Lines.GetsAll(chunks);
            && Lines.NonEmpty(r.lines) <= Chomps(lines)
            && (r.stream == Lines.Flat(lines) && !Lines.HasLine(r.inbuf) ==> Lines.NonEmpty(r.lines) == Chomps(lines))
  {
    FlatShort(lines);
    FlatEnds(lines);
    RunsOfFlat(lines);
    ReadSoFar(chunks, Lines.Flat(lines));
  }

  lemma {:induction false} ReadSoFar(chunks: seq<string>, text: string)
    requires Lines.Short(text) && (text == "" || text[|text| - 1] == '\n') && Lines.GetsAll(chunks).stream <= text
    ensures var r := Lines.GetsAll(chunks);
            && Lines.NonEmpty(r.lines) <= Lines.Runs(text)
            && (r.stream == text && !Lines.HasLine(r.inbuf) ==> Lines.NonEmpty(r.lines) == Lines.Runs(text))
  {
    var r := Lines.GetsAll(chunks);
    assert text == r.stream + text[|r.stream|..];
    Lines.ShortFront(r.stream, text[|r.stream|..]);
    var past := Lines.ReadsSettle(chunks);
    SettledRuns(text, past);
    if r.stream == text && !Lines.HasLine(r.inbuf) {
      LastKept(past, r.inbuf);
      assert text[|past|..] == "";
    }
  }

  lemma SettledRuns(text: string, past: string)
    requires Lines.Short(text) && Lines.Settled(past) && past <= text
    ensures Lines.Runs(text) == Lines.Runs(past) + Lines.Runs(text[|past|..])
  {
    var next := text[|past|..];
    assert text == past + next;
    Lines.SettledApart(past, next);
    Lines.RunsJoin(past, next);
  }

  lemma {:induction false} ChompsFirst(lines: seq<string>, k: nat)
    requires k <= |lines| && forall j :: 0 <= j < |lines| ==> lines[j] != ""
    ensures |Chomps(lines)| == |lines| && Chomps(lines)[..k] == Chomps(lines[..k])
  {
    if k < |lines| {
      ChompsFirst(Front(lines), k);
      assert Front(lines)[..k] == lines[..k];
    } else if lines != [] {
      ChompAt(lines, 0);
      assert lines[..k] == lines;
    }
  }

  lemma {:induction false} DumpFirst(us: string, bots: seq<Bot>, k: nat)
    requires k <= |bots|
    ensures DumpLinks(us, bots)[..k] == DumpLinks(us, bots[..k])
  {
    if k < |bots| {
      DumpFirst(us, Front(bots), k);
      assert Front(bots)[..k] == bots[..k];
    } else {
      assert bots[..k] == bots;
    }
  }

  lemma FirstReplayed(st: State, idx: nat, us: string, bots: seq<Bot>, k: nat, isolated: bool)
    requires ReadyFor(st, idx, us, bots) && NameOk(us) && Tree(us, bots) && AllSendable(bots) && k <= |bots|
    ensures |Chomps(DumpLinks(us, bots))| == |bots|
    ensures Hear(st, idx, Chomps(DumpLinks(us, bots))[..k], isolated) == Received(st, us, bots[..k])
  {
    var lines := DumpLinks(us, bots);
    ChompsFirst(lines, k);
    HeardIsReplayed(st, idx, lines[..k], isolated);
    DumpFirst(us, bots, k);
    TreeFirst(us, bots, k);
    DumpReplayed(st, idx, us, bots[..k], isolated);
  }

  // What the dump has led to so far.
  ghost predicate Taken(st: State, idx: nat, us: string, bots: seq<Bot>, lines: seq<string>, isolated: bool, k: nat)
    requires Listed(st.bots, us)
  {
    k <= |bots| && Hear(st, idx, lines, isolated) == Received(st, us, bots[..k])
  }

  /** A dump is queued, written in whatever pieces the socket takes and read in whatever pieces the
      neighbour gets: at every moment the neighbour has taken over the first so many bots, and once
      the queue is empty, all of the wire is read and no line is kept, all of them. */
  lemma DumpDelivered(st: State, idx: nat, us: string, bots: seq<Bot>, es: seq<Output>, chunks: seq<string>,
                      isolated: bool)
    requires ReadyFor(st, idx, us, bots) && NameOk(us) && Tree(us, bots) && AllSendable(bots)
    requires Passed(es) == Lines.Flat(DumpLinks(us, bots))
    requires Lines.GetsAll(chunks).stream <= WriteAll(es).wire
    ensures var r, w := Lines.GetsAll(chunks), WriteAll(es);
            && Taken(st, idx, us, bots, r.lines, isolated, |Lines.NonEmpty(r.lines)|)
            && (w.outbuf.None? && r.stream == w.wire && !Lines.HasLine(r.inbuf) ==>
                Hear(st, idx, r.lines, isolated) == Received(st, us, bots))
  {
    var r, w, lines := Lines.GetsAll(chunks), WriteAll(es), DumpLinks(us, bots);
    SentInOrder(es);
    DumpEnded(us, bots);
    assert w.wire <= Lines.Flat(lines);
    FirstLines(chunks, lines);
    EmptyLinesUnheard(st, idx, r.lines, isolated);
    HeardSoFar(st, idx, us, bots, Lines.NonEmpty(r.lines), isolated);
    SameHeard(st, idx, us, bots, r.lines, isolated);
  }

  lemma HeardSoFar(st: State, idx: nat, us: string, bots: seq<Bot>, heard: seq<string>, isolated: bool)
    requires ReadyFor(st, idx, us, bots) && NameOk(us) && Tree(us, bots) && AllSendable(bots)
    requires heard <= Chomps(DumpLinks(us, bots))
    ensures Taken(st, idx, us, bots, heard, isolated, |heard|)
    ensures heard == Chomps(DumpLinks(us, bots)) ==> Hear(st, idx, heard, isolated) == Received(st, us, bots)
  {
    FirstReplayed(st, idx, us, bots, 0, isolated);
    FirstReplayed(st, idx, us, bots, |heard|, isolated);
    assert Chomps(DumpLinks(us, bots))[..|heard|] == heard;
    assert |heard| == |bots| ==> bots[..|heard|] == bots;
  }

  lemma SameHeard(st: State, idx: nat, us: string, bots: seq<Bot>, lines: seq<string>, isolated: bool)
    requires Listed(st.bots, us)
    requires Hear(st, idx, lines, isolated) == Hear(st, idx, Lines.NonEmpty(lines), isolated)
    ensures forall k :: Taken(st, idx, us, bots, Lines.NonEmpty(lines), isolated, k) ==> Taken(st, idx, us, bots, lines, isolated, k)
  {
  }

  /** Two bots after any two runs: the neighbour that has linked the first one and knows none of its
      bots hears the dump as it is sent, and ends up with the whole tree. */
  lemma RunsDelivered(us: string, mine: State, before: seq<Event>, them: string, theirs: State, after: seq<Event>,
                      idx: nat, es: seq<Output>, chunks: seq<string>, isolated: bool)
    requires NameOk(us) && mine == After(us, before) && theirs == After(them, after)
    requires forall i :: 0 <= i < |before| ==> EventOk(before[i]) && EventClean(before[i])
    requires forall i :: 0 <= i < |after| ==> EventOk(after[i])
    requires idx < |theirs.dcc| && Listed(theirs.bots, us) && NextBot(theirs, us) == idx
    requires Find(theirs.bots, us).value.uplink.None?
    requires forall b :: b in mine.bots ==> !InChain(theirs, b.name)
    requires Passed(es) == Lines.Flat(DumpLinks(us, mine.bots)) && WriteAll(es).outbuf.None?
    requires Lines.GetsAll(chunks).stream == WriteAll(es).wire && !Lines.HasLine(Lines.GetsAll(chunks).inbuf)
    ensures Hear(theirs, idx, Lines.GetsAll(chunks).lines, isolated) == Received(theirs, us, mine.bots)
  {
    RunKeeps(us, before);
    RunKeeps(them, after);
    RunSendable(us, before);
    DumpDelivered(theirs, idx, us, mine.bots, es, chunks, isolated);
  }
}
