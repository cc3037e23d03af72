/** What a neighbour makes of our list of links when it knows one of the bots already. */
module BotRefusal {
  import opened Options
  import opened Chars
  import opened BotTree
  import opened Wire
  import opened BotState
  import opened BotRuns
  import opened BotReplay

  // ---- The lines

  predicate Filled(lines: seq<string>) {
    forall i :: 0 <= i < |lines| ==> lines[i] != ""
  }

  lemma {:induction false} ReplayJoin(st: State, idx: nat, a: seq<string>, b: seq<string>, isolated: bool)
    requires Filled(a) && Filled(b)
    ensures Filled(a + b)
    ensures Replay(st, idx, a + b, isolated) == Replay(Replay(st, idx, a, isolated), idx, b, isolated)
    decreases |b|
  {
    if b == [] {
      assert a + b == a;
    } else {
      var front, line := Front(b), Back(b);
      assert b == front + [line];
      ReplayJoin(st, idx, a, front, isolated);
      OneMoreLine(st, idx, a, front, line, isolated);
    }
  }

  lemma OneMoreLine(st: State, idx: nat, a: seq<string>, b: seq<string>, line: string, isolated: bool)
    requires Filled(a) && Filled(b) && Filled(a + b) && line != ""
    requires Replay(st, idx, a + b, isolated) == Replay(Replay(st, idx, a, isolated), idx, b, isolated)
    ensures Filled(b + [line]) && Filled(a + (b + [line]))
    ensures Replay(st, idx, a + (b + [line]), isolated) == Replay(Replay(st, idx, a, isolated), idx, b + [line], isolated)
  {
    assert a + (b + [line]) == (a + b) + [line];
    ReplayMore(st, idx, a + b, line, isolated);
    ReplayMore(Replay(st, idx, a, isolated), idx, b, line, isolated);
  }

  // Nothing is heard on a connection that is no link.
  lemma {:induction false} Unheard(st: State, idx: nat, lines: seq<string>, isolated: bool)
    requires Filled(lines) && idx < |st.dcc| && st.dcc[idx].kind != Up
    ensures Replay(st, idx, lines, isolated) == st
  {
    if lines != [] {
      Unheard(st, idx, Front(lines), isolated);
    }
  }

  lemma {:induction false} DumpSplit(us: string, bots: seq<Bot>, k: nat) returns (rest: seq<string>)
    requires k < |bots|
    ensures Filled(rest)
    ensures DumpLinks(us, bots) ==
            DumpLinks(us, bots[..k]) + [LinkLine(bots[k].name, UplinkName(us, bots[k]), bots[k].share, bots[k].ver)] + rest
    decreases |bots|
  {
    var front, b := Front(bots), Back(bots);
    if k == |bots| - 1 {
      rest := [];
      assert bots[..k] == front;
    } else {
      var line := LinkLine(b.name, UplinkName(us, b), b.share, b.ver);
      var before := DumpSplit(us, front, k);
      assert front[..k] == bots[..k];
      rest := before + [line];
      assert DumpLinks(us, bots)[|bots| - 1] == line;
    }
  }

  lemma UplinkOk(us: string, bots: seq<Bot>, b: Bot)
    requires NameOk(us) && Tree(us, bots) && b in bots
    ensures NameOk(b.name) && NameOk(UplinkName(us, b))
  {
    NameOfListed(us, bots, b);
    if b.uplink.Some? {
      var p := UplinkOf(us, bots, b);
      NameOfListed(us, bots, p);
    }
  }

  // A line about a bot that is known costs the sender its link.
  lemma KnownLine(st: State, idx: nat, us: string, b: Bot, isolated: bool)
    requires idx < |st.dcc| && st.dcc[idx].kind == Up && InChain(st, b.name)
    requires NameOk(b.name) && NameOk(UplinkName(us, b)) && Sendable(b)
    ensures var line := LinkLine(b.name, UplinkName(us, b), b.share, b.ver);
            line != "" && Step(st, BotLine(idx, Chomp(line), false, isolated, 0)) == Lose(st, idx)
  {
    var next := UplinkName(us, b);
    var rest := b.name + " " + (next + " " + ([b.share] + ToBase64(b.ver % 0x1_0000_0000)));
    LinkLineText(b.name, next, b.share, b.ver);
    LinkLineRead(b.name, next, b.share, b.ver);
    LineIsNlinked(st, idx, rest, isolated);
  }

  lemma StillKnown(st: State, us: string, bots: seq<Bot>, who: string)
    requires Listed(st.bots, us) && InChain(st, who)
    ensures InChain(Received(st, us, bots), who)
  {
    ListedJoin(st.bots, Graft(bots, Find(st.bots, us).value.name), who);
  }

  lemma LostIs(st: State, idx: nat)
    requires Tree(st.us, st.bots) && idx < |st.dcc|
    ensures Lose(st, idx).dcc == st.dcc[idx := Dcc("", Lost)]
  {
    CutOffIs(st, st.dcc[idx].nick);
  }

  // ---- The loss of the link takes back what was taken over

  // The bots taken over are behind the sender.
  lemma {:induction false} GraftBelow(theirs: seq<Bot>, us: string, bots: seq<Bot>, sender: string)
    requires Tree(us, bots)
    ensures Below(theirs + Graft(bots, sender), sender) == Below(theirs, sender) + Names(bots)
  {
    if bots == [] {
      assert theirs + Graft(bots, sender) == theirs;
    } else {
      var front, b := Front(bots), Back(bots);
      assert bots == front + [b];
      GraftBelow(theirs, us, front, sender);
      GraftOneMore(theirs, us, front, b, sender);
    }
  }

  lemma GraftOneMore(theirs: seq<Bot>, us: string, bots: seq<Bot>, b: Bot, sender: string)
    requires Fits(us, bots, b)
    requires Below(theirs + Graft(bots, sender), sender) == Below(theirs, sender) + Names(bots)
    ensures Below(theirs + Graft(bots + [b], sender), sender) == Below(theirs, sender) + Names(bots + [b])
  {
    var all, g := theirs + Graft(bots, sender), Grafted(b, sender);
    UplinkNamed(us, bots, b);
    BelowOneMore(all, g, sender);
    NamesMore(bots, b);
    GraftMore(theirs, bots, b, sender);
    assert Below(theirs + Graft(bots + [b], sender), sender) == Below(all, sender) + {b.name};
  }

  lemma GraftMore(theirs: seq<Bot>, bots: seq<Bot>, b: Bot, sender: string)
    ensures theirs + Graft(bots + [b], sender) == theirs + Graft(bots, sender) + [Grafted(b, sender)]
  {
    NamesMore(bots, b);
  }

  function Names(bots: seq<Bot>): set<string> {
    set b | b in bots :: b.name
  }

  lemma NamesMore(bots: seq<Bot>, b: Bot)
    ensures bots + [b] != [] && Names(bots + [b]) == Names(bots) + {b.name}
    ensures Front(bots + [b]) == bots && Back(bots + [b]) == b
  {
    assert b in bots + [b];
  }

  lemma UplinkNamed(us: string, bots: seq<Bot>, b: Bot)
    requires Fits(us, bots, b)
    ensures b.uplink.Some? ==> b.uplink.value in Names(bots)
  {
  }

  lemma BelowOneMore(bs: seq<Bot>, b: Bot, who: string)
    requires b.uplink.Some? && (b.uplink.value == who || b.uplink.value in Below(bs, who))
    ensures Below(bs + [b], who) == Below(bs, who) + {b.name}
  {
    assert Front(bs + [b]) == bs && Back(bs + [b]) == b;
  }

  lemma {:induction false} WithoutGraft(theirs: seq<Bot>, bots: seq<Bot>, sender: string, gone: set<string>)
    requires forall b :: b in bots ==> b.name in gone
    ensures Without(theirs + Graft(bots, sender), gone) == Without(theirs, gone)
  {
    if bots == [] {
      assert theirs + Graft(bots, sender) == theirs;
    } else {
      var front, b := Front(bots), Back(bots);
      WithoutGraft(theirs, front, sender, gone);
      var all := theirs + Graft(front, sender) + [Grafted(b, sender)];
      assert all == theirs + Graft(bots, sender);
      assert Front(all) == theirs + Graft(front, sender) && Back(all) == Grafted(b, sender);
      assert b in bots;
    }
  }

  // Names that no listed bot has make no difference.
  lemma WithoutStrangers(bs: seq<Bot>, gone: set<string>, more: set<string>)
    requires forall b :: b in bs ==> b.name !in more
    ensures Without(bs, gone + more) == Without(bs, gone)
  {
    WithoutIs(bs, gone);
    WithoutNone(Without(bs, gone), more);
    WithoutTwice(bs, gone, more);
  }

  lemma {:induction false} WithoutNone(bs: seq<Bot>, gone: set<string>)
    requires forall b :: b in bs ==> b.name !in gone
    ensures Without(bs, gone) == bs
  {
    if bs != [] {
      var front, b := Front(bs), Back(bs);
      assert bs == front + [b];
      WithoutNone(front, gone);
      assert Without(bs, gone) == Without(front, gone) + [b];
    }
  }

  lemma PartyStrangers(st: State, gone: set<string>, more: set<string>)
    requires Inv(st) && forall n :: n in more ==> !Listed(st.bots, n)
    ensures PartyWithout(st.party, gone + more) == PartyWithout(st.party, gone)
  {
    forall k | k in st.party ensures k.0 in Handles(gone + more) <==> k.0 in Handles(gone) {
      if k.0 in Handles(gone + more) {
        var n :| n in gone + more && HandleOf(n) == k.0;
        if n in more {
          SameListed(st.bots, st.party[k].bot, n);
        }
      }
      if k.0 in Handles(gone) {
        var n :| n in gone && HandleOf(n) == k.0;
        assert n in gone + more;
      }
    }
  }

  lemma SameListed(bs: seq<Bot>, a: string, b: string)
    requires Listed(bs, a) && SameName(a, b)
    ensures Listed(bs, b)
  {
    var i :| 0 <= i < |bs| && SameName(bs[i].name, a);
    assert SameName(bs[i].name, b);
  }

  // The connection is named for the sender.
  lemma NickIsSender(st: State, idx: nat, us: string)
    requires Neighbour(st, idx, us)
    ensures SameName(st.dcc[idx].nick, Find(st.bots, us).value.name)
  {
    NameOfListed(st.us, st.bots, Find(st.bots, us).value);
  }

  lemma SenderFound(st: State, idx: nat, us: string, bots: seq<Bot>)
    requires Neighbour(st, idx, us) && Tree(st.us, Received(st, us, bots).bots)
    ensures Find(st.bots, st.dcc[idx].nick) == Find(st.bots, us)
    ensures Find(Received(st, us, bots).bots, st.dcc[idx].nick) == Find(st.bots, us)
  {
    var root := Find(st.bots, us).value;
    NickIsSender(st, idx, us);
    FindIs(st.us, st.bots, root, st.dcc[idx].nick);
    assert root in Received(st, us, bots).bots;
    FindIs(st.us, Received(st, us, bots).bots, root, st.dcc[idx].nick);
  }

  lemma NamesUnlisted(st: State, bots: seq<Bot>)
    requires Strangers(st, bots)
    ensures forall n :: n in Names(bots) ==> !Listed(st.bots, n)
    ensures forall b :: b in st.bots ==> b.name !in Names(bots)
  {
    forall b | b in st.bots ensures b.name !in Names(bots) {
      var i :| 0 <= i < |st.bots| && st.bots[i] == b;
      assert Listed(st.bots, st.bots[i].name);
    }
  }

  // What is left of the bots and of the party line when the sender goes.
  lemma BranchTakesBack(st: State, us: string, bots: seq<Bot>, sender: string)
    requires Inv(st) && Strangers(st, bots) && Tree(us, bots)
    ensures var all, gone := st.bots + Graft(bots, sender), Branch(st.bots, sender);
            && Without(all, Branch(all, sender)) == Without(st.bots, gone)
            && PartyWithout(st.party, Branch(all, sender)) == PartyWithout(st.party, gone)
  {
    var more, gone := Names(bots), Branch(st.bots, sender);
    GraftBelow(st.bots, us, bots, sender);
    assert Branch(st.bots + Graft(bots, sender), sender) == gone + more;
    NamesUnlisted(st, bots);
    WithoutGraft(st.bots, bots, sender, gone + more);
    WithoutStrangers(st.bots, gone, more);
    PartyStrangers(st, gone, more);
  }

  lemma CutTakesBack(st: State, idx: nat, us: string, bots: seq<Bot>)
    requires Neighbour(st, idx, us) && Strangers(st, bots) && Tree(us, bots) && Tree(st.us, Received(st, us, bots).bots)
    ensures CutOff(Received(st, us, bots), st.dcc[idx].nick) == CutOff(st, st.dcc[idx].nick)
  {
    SenderFound(st, idx, us, bots);
    CutOffIs(st, st.dcc[idx].nick);
    CutOffIs(Received(st, us, bots), st.dcc[idx].nick);
    BranchTakesBack(st, us, bots, Find(st.bots, us).value.name);
  }

  lemma LossTakesBack(st: State, idx: nat, us: string, bots: seq<Bot>)
    requires Neighbour(st, idx, us) && Strangers(st, bots) && Tree(us, bots) && Tree(st.us, Received(st, us, bots).bots)
    ensures Lose(Received(st, us, bots), idx) == Lose(st, idx)
  {
    CutTakesBack(st, idx, us, bots);
  }

  // ---- The dump

  // Up to the first bot that is known, the dump is taken over; the rest goes unheard.
  lemma RefusedAt(st: State, idx: nat, us: string, bots: seq<Bot>, k: nat, isolated: bool)
    requires Neighbour(st, idx, us) && NameOk(us) && Tree(us, bots) && AllSendable(bots)
    requires k < |bots| && Strangers(st, bots[..k]) && InChain(st, bots[k].name)
    ensures Replay(st, idx, DumpLinks(us, bots), isolated) == Lose(st, idx)
  {
    var first, b := bots[..k], bots[k];
    TreeFirst(us, bots, k);
    DumpReplayed(st, idx, us, first, isolated);
    var st' := Received(st, us, first);
    UplinkOk(us, bots, b);
    StillKnown(st, us, first, b.name);
    KnownLine(st', idx, us, b, isolated);
    LossTakesBack(st, idx, us, first);
    var line := LinkLine(b.name, UplinkName(us, b), b.share, b.ver);
    var rest := DumpSplit(us, bots, k);
    LostIs(st, idx);
    AfterLine(st, idx, DumpLinks(us, first), line, isolated, Lose(st, idx));
    NothingMore(st, idx, DumpLinks(us, first) + [line], rest, isolated, Lose(st, idx));
  }

  lemma AfterLine(st: State, idx: nat, lines: seq<string>, line: string, isolated: bool, st': State)
    requires Filled(lines) && line != ""
    requires Step(Replay(st, idx, lines, isolated), BotLine(idx, Chomp(line), false, isolated, 0)) == st'
    ensures Filled(lines + [line]) && Replay(st, idx, lines + [line], isolated) == st'
  {
    ReplayMore(st, idx, lines, line, isolated);
  }

  lemma NothingMore(st: State, idx: nat, lines: seq<string>, rest: seq<string>, isolated: bool, lost: State)
    requires Filled(lines) && Filled(rest) && idx < |lost.dcc| && lost.dcc[idx].kind != Up
    requires Replay(st, idx, lines, isolated) == lost
    ensures Filled(lines + rest) && Replay(st, idx, lines + rest, isolated) == lost
  {
    ReplayJoin(st, idx, lines, rest, isolated);
    Unheard(lost, idx, rest, isolated);
  }

  lemma {:induction false} FirstKnown(st: State, bots: seq<Bot>) returns (k: nat)
    requires !Strangers(st, bots)
    ensures k < |bots| && Strangers(st, bots[..k]) && InChain(st, bots[k].name)
  {
    var front := Front(bots);
    if Strangers(st, front) {
      k := |bots| - 1;
      assert bots == front + [Back(bots)] && bots[..k] == front;
    } else {
      k := FirstKnown(st, front);
      assert front[..k] == bots[..k];
    }
  }

  /** A dump is taken over as a whole exactly when the neighbour knows none of the names in it. With one
      that it knows, the dump ends as if the link had been lost at once: what came before is dropped with
      the sender, and what follows goes unheard. */
  lemma DumpExactly(st: State, idx: nat, us: string, bots: seq<Bot>, isolated: bool)
    requires Neighbour(st, idx, us) && NameOk(us) && Tree(us, bots) && AllSendable(bots)
    ensures Replay(st, idx, DumpLinks(us, bots), isolated) == Received(st, us, bots) <==> Strangers(st, bots)
    ensures !Strangers(st, bots) ==> Replay(st, idx, DumpLinks(us, bots), isolated) == Lose(st, idx)
  {
    if Strangers(st, bots) {
      DumpReplayed(st, idx, us, bots, isolated);
    } else {
      var k := FirstKnown(st, bots);
      RefusedAt(st, idx, us, bots, k, isolated);
      LostIs(st, idx);
    }
  }
}
