/** What a new neighbour makes of our list of links, carried to it as text. */
module BotReplay {
  import opened Options
  import opened Chars
  import opened BotTree
  import opened Wire
  import opened BotState
  import opened BotRuns

  // ---- What goes on the wire

  // The bot a line of the dump is about is linked to us or to its uplink.
  function UplinkName(us: string, b: Bot): string {
    if b.uplink.None? then us else b.uplink.value
  }

  // dump_links(), one line for each listed bot.
  function DumpLinks(us: string, bots: seq<Bot>): (lines: seq<string>)
    ensures |lines| == |bots| && forall i :: 0 <= i < |lines| ==> lines[i] != ""
  {
    if bots == [] then []
    else
      var b := Back(bots);
      DumpLinks(us, Front(bots)) + [LinkLine(b.name, UplinkName(us, b), b.share, b.ver)]
  }

  // The letter and the version fit into a line and into an int.
  predicate Sendable(b: Bot) {
    b.share !in "\0\r\n" && -0x8000_0000 <= b.ver < 0x8000_0000
  }

  ghost predicate AllSendable(bots: seq<Bot>) {
    forall b :: b in bots ==> Sendable(b)
  }

  // A line without its end.
  function Chomp(line: string): string
    requires line != ""
  {
    line[..|line| - 1]
  }

  /** A line of the dump is never cut short, and holds no line end but its own. */
  lemma {:induction false} LinkLineFits(us: string, bots: seq<Bot>, b: Bot)
    requires NameOk(us) && Tree(us, bots) && b in bots && Sendable(b)
    ensures var line := LinkLine(b.name, UplinkName(us, b), b.share, b.ver);
            && 1 <= |line| <= 76 && Cut(line) == line && line[|line| - 1] == '\n'
            && forall i :: 0 <= i < |line| - 1 ==> line[i] !in "\0\r\n"
  {
    var up := UplinkName(us, b);
    assert NameOk(up) by {
      if b.uplink.Some? {
        var p := UplinkOf(us, bots, b);
        NameOfListed(us, bots, p);
      }
    }
    NameOfListed(us, bots, b);
    var digits := ToBase64(b.ver % 0x1_0000_0000);
    SixDigits();
    Base64Text(b.ver % 0x1_0000_0000, 6);
    LineParts(b.name, up, b.share, digits);
    assert LinkLine(b.name, up, b.share, b.ver) == "n " + b.name + " " + up + " " + [b.share] + digits + "\n";
  }

  // The text of a line is short, whatever the letter and the version.
  lemma LineFits(name: string, up: string, share: char, ver: int)
    requires |name| <= HANDLEN && |up| <= HANDLEN
    ensures |LinkLine(name, up, share, ver)| <= 76
    ensures Cut(LinkLine(name, up, share, ver)) == LinkLine(name, up, share, ver)
  {
    SixDigits();
    Base64Text(ver % 0x1_0000_0000, 6);
  }

  predicate Printable(s: string) {
    forall i :: 0 <= i < |s| ==> s[i] !in "\0\r\n"
  }

  lemma LineParts(name: string, up: string, share: char, digits: string)
    requires Printable(name) && Printable(up) && Printable(digits) && share !in "\0\r\n"
    ensures Printable("n " + name + " " + up + " " + [share] + digits)
  {
  }

  // ---- What the neighbour reads

  lemma CodeN(rest: string)
    ensures CodeOf("n " + rest) == "N" && MessageOf("n " + rest) == rest
  {
    var text := "n " + rest;
    assert text[..1] == "n" && "n"[1..] == "";
    assert FirstFrom(text, ' ', 1) == Some(1);
  }

  // A line with the code "n" goes to bot_nlinked().
  lemma LineIsNlinked(st: State, idx: nat, rest: string, isolated: bool)
    requires idx < |st.dcc| && st.dcc[idx].kind == Up
    ensures Step(st, BotLine(idx, "n " + rest, false, isolated, 0)) == Nlinked(st, idx, rest, false)
  {
    CodeN(rest);
  }

  lemma LinkLineText(name: string, up: string, share: char, ver: int)
    ensures Chomp(LinkLine(name, up, share, ver)) ==
            "n " + (name + " " + (up + " " + ([share] + ToBase64(ver % 0x1_0000_0000))))
  {
  }

  lemma LinkLineRead(name: string, up: string, share: char, ver: int)
    requires NameOk(name) && NameOk(up) && -0x8000_0000 <= ver < 0x8000_0000
    ensures ParseLink(name + " " + (up + " " + ([share] + ToBase64(ver % 0x1_0000_0000)))) ==
            Announcement(name, up, if share == '!' then '-' else share, ver)
  {
    var tail := [share] + ToBase64(ver % 0x1_0000_0000);
    WordFirst(name, up + " " + tail);
    WordFirst(up, tail);
    assert tail[1..] == ToBase64(ver % 0x1_0000_0000);
    Base64RoundTrip(ver);
  }

  // ---- Replaying

  // The sender's list as the neighbour files it: under the sender, and reached through it.
  function Graft(bots: seq<Bot>, sender: string): seq<Bot> {
    if bots == [] then []
    else
      var b := Back(bots);
      Graft(Front(bots), sender) + [Grafted(b, sender)]
  }

  // The neighbour reads the lines, one after the other.
  function Replay(st: State, idx: nat, lines: seq<string>, isolated: bool): State
    requires forall i :: 0 <= i < |lines| ==> lines[i] != ""
  {
    if lines == [] then st
    else Step(Replay(st, idx, Front(lines), isolated), BotLine(idx, Chomp(Back(lines)), false, isolated, 0))
  }

  // The sender is listed as a direct neighbour on that very connection.
  ghost predicate Neighbour(st: State, idx: nat, us: string) {
    && Inv(st) && idx < |st.dcc| && st.dcc[idx].kind == Up
    && Listed(st.bots, us) && Find(st.bots, us).value.uplink.None? && NextBot(st, us) == idx
  }

  // None of these bots is known.
  predicate Strangers(st: State, bots: seq<Bot>) {
    forall b :: b in bots ==> !InChain(st, b.name)
  }

  ghost predicate ReadyFor(st: State, idx: nat, us: string, bots: seq<Bot>) {
    Neighbour(st, idx, us) && Strangers(st, bots)
  }

  lemma {:induction false} GraftNames(bots: seq<Bot>, sender: string)
    ensures |Graft(bots, sender)| == |bots|
    ensures forall i :: 0 <= i < |bots| ==> Graft(bots, sender)[i].name == bots[i].name && Graft(bots, sender)[i].via == sender
  {
    if bots != [] {
      GraftNames(Front(bots), sender);
    }
  }

  lemma ListedJoin(a: seq<Bot>, b: seq<Bot>, who: string)
    ensures Listed(a + b, who) <==> Listed(a, who) || Listed(b, who)
  {
    if i :| 0 <= i < |a| && SameName(a[i].name, who) {
      assert (a + b)[i] == a[i];
    }
    if i :| 0 <= i < |b| && SameName(b[i].name, who) {
      assert (a + b)[|a| + i] == b[i];
    }
    if i :| 0 <= i < |a + b| && SameName((a + b)[i].name, who) {
      assert (a + b)[i] == if i < |a| then a[i] else b[i - |a|];
    }
  }

  // How the neighbour files one bot of the sender.
  function Grafted(b: Bot, sender: string): Bot {
    Bot(b.name, Some(if b.uplink.None? then sender else b.uplink.value), sender,
        if b.share == '!' then '-' else b.share, b.ver)
  }

  // One more line of the dump is accepted, after those before it.
  lemma ReplayStep(st: State, idx: nat, us: string, bots: seq<Bot>, b: Bot, isolated: bool)
    requires ReadyFor(st, idx, us, bots) && !InChain(st, b.name)
    requires NameOk(us) && Tree(us, bots) && Fits(us, bots, b) && Sendable(b)
    requires Inv(st.(bots := st.bots + Graft(bots, Find(st.bots, us).value.name)))
    ensures var sender := Find(st.bots, us).value.name;
            var st' := st.(bots := st.bots + Graft(bots, sender));
            var line := LinkLine(b.name, UplinkName(us, b), b.share, b.ver);
            && Step(st', BotLine(idx, Chomp(line), false, isolated, 0)) == st'.(bots := st'.bots + [Grafted(b, sender)])
            && Inv(st'.(bots := st'.bots + [Grafted(b, sender)]))
  {
    var sender, next := Find(st.bots, us).value.name, UplinkName(us, b);
    var st' := st.(bots := st.bots + Graft(bots, sender));
    var rest := b.name + " " + (next + " " + ([b.share] + ToBase64(b.ver % 0x1_0000_0000)));
    GraftFinds(st, us, bots, b);
    LinkLineText(b.name, next, b.share, b.ver);
    LinkLineRead(b.name, next, b.share, b.ver);
    Unknown(st, us, bots, b, sender);
    LineAccepted(st', idx, rest, Announcement(b.name, next, Grafted(b, sender).share, b.ver), isolated);
  }

  lemma LineAccepted(st: State, idx: nat, rest: string, a: Announcement, isolated: bool)
    requires Inv(st) && idx < |st.dcc| && st.dcc[idx].kind == Up && ParseLink(rest) == a
    requires a.next != "" && !InChain(st, a.newbot) && NameOk(a.newbot) && NextBot(st, a.next) == idx
    ensures var up := Find(st.bots, a.next).value;
            var st' := st.(bots := st.bots + [Bot(a.newbot, Some(up.name), up.via, a.share, a.ver)]);
            Step(st, BotLine(idx, "n " + rest, false, isolated, 0)) == st' && Inv(st')
  {
    LineIsNlinked(st, idx, rest, isolated);
    Accepted(st, idx, rest, a);
  }

  lemma Accepted(st: State, idx: nat, rest: string, a: Announcement)
    requires Inv(st) && idx < |st.dcc| && ParseLink(rest) == a
    requires a.next != "" && !InChain(st, a.newbot) && NameOk(a.newbot) && NextBot(st, a.next) == idx
    ensures var up := Find(st.bots, a.next).value;
            && Nlinked(st, idx, rest, false)
               == st.(bots := st.bots + [Bot(a.newbot, Some(up.name), up.via, a.share, a.ver)])
            && Inv(Nlinked(st, idx, rest, false))
  {
    AnnouncedBot(st, idx, a.newbot, a.next, a.share, a.ver);
    AnnouncedKeeps(st, idx, a.newbot, a.next, a.share, a.ver);
  }

  // The uplink a line names is found, and is reached through the sender.
  lemma GraftFinds(st: State, us: string, bots: seq<Bot>, b: Bot)
    requires Inv(st) && Listed(st.bots, us) && Find(st.bots, us).value.uplink.None?
    requires NameOk(us) && Tree(us, bots) && Fits(us, bots, b)
    requires Inv(st.(bots := st.bots + Graft(bots, Find(st.bots, us).value.name)))
    ensures var sender := Find(st.bots, us).value.name;
            var st' := st.(bots := st.bots + Graft(bots, sender));
            var next := UplinkName(us, b);
            && NameOk(next)
            && Find(st'.bots, next).Some? && Find(st'.bots, next).value.via == sender
            && Find(st'.bots, next).value.name == (if b.uplink.None? then sender else next)
            && NextBot(st', next) == NextBot(st, us)
  {
    var root := Find(st.bots, us).value;
    NameOfListed(st.us, st.bots, root);
    if b.uplink.None? {
      GraftFindsRoot(st.us, st.bots, Graft(bots, root.name), us, root);
    } else {
      GraftFindsBot(st.us, st.bots, us, bots, b.uplink.value, root.name);
    }
  }

  lemma GraftFindsRoot(them: string, theirs: seq<Bot>, graft: seq<Bot>, us: string, root: Bot)
    requires Tree(them, theirs + graft) && root in theirs && SameName(root.name, us)
    ensures Find(theirs + graft, us) == Some(root)
  {
    assert root in theirs + graft;
    FindIs(them, theirs + graft, root, us);
  }

  lemma GraftFindsBot(them: string, theirs: seq<Bot>, us: string, bots: seq<Bot>, up: string, sender: string)
    requires Tree(us, bots) && (exists p :: p in bots && p.name == up) && Tree(them, theirs + Graft(bots, sender))
    ensures NameOk(up)
    ensures var f := Find(theirs + Graft(bots, sender), up); f.Some? && f.value.via == sender && f.value.name == up
  {
    var p :| p in bots && p.name == up;
    var i :| 0 <= i < |bots| && bots[i] == p;
    NameOfListed(us, bots, p);
    GraftNames(bots, sender);
    var g := Graft(bots, sender)[i];
    assert (theirs + Graft(bots, sender))[|theirs| + i] == g;
    FindIs(them, theirs + Graft(bots, sender), g, up);
  }

  lemma NameOfListed(us: string, bots: seq<Bot>, b: Bot)
    requires Tree(us, bots) && b in bots
    ensures NameOk(b.name) && (b.uplink.None? ==> b.via == b.name)
  {
    var i :| 0 <= i < |bots| && bots[i] == b;
    TreeAt(us, bots, i);
  }

  lemma Unknown(st: State, us: string, bots: seq<Bot>, b: Bot, sender: string)
    requires Fits(us, bots, b) && !InChain(st, b.name)
    ensures !InChain(st.(bots := st.bots + Graft(bots, sender)), b.name)
  {
    GraftNames(bots, sender);
    var graft := Graft(bots, sender);
    forall i | 0 <= i < |graft| ensures !SameName(graft[i].name, b.name) {
      assert !SameName(bots[i].name, b.name);
    }
    ListedJoin(st.bots, graft, b.name);
  }

  // The neighbour's state once the sender's bots are filed under the sender.
  ghost function Received(st: State, us: string, bots: seq<Bot>): State
    requires Listed(st.bots, us)
  {
    st.(bots := st.bots + Graft(bots, Find(st.bots, us).value.name))
  }

  lemma ReceivedMore(st: State, us: string, bots: seq<Bot>, b: Bot)
    requires Listed(st.bots, us)
    ensures var st' := Received(st, us, bots);
            Received(st, us, bots + [b]) == st'.(bots := st'.bots + [Grafted(b, Find(st.bots, us).value.name)])
    ensures DumpLinks(us, bots + [b]) == DumpLinks(us, bots) + [LinkLine(b.name, UplinkName(us, b), b.share, b.ver)]
  {
    var sender := Find(st.bots, us).value.name;
    assert Front(bots + [b]) == bots && Back(bots + [b]) == b;
    assert st.bots + Graft(bots + [b], sender) == (st.bots + Graft(bots, sender)) + [Grafted(b, sender)];
  }

  /** The dump of a bot, read line by line by a new neighbour that knows none of its names, is
      accepted throughout and puts the same tree under the sender: same names, order, letters,
      versions and uplinks, all reached through the sender. */
  lemma {:induction false} DumpReplayed(st: State, idx: nat, us: string, bots: seq<Bot>, isolated: bool)
    requires ReadyFor(st, idx, us, bots) && NameOk(us) && Tree(us, bots) && AllSendable(bots)
    ensures Replay(st, idx, DumpLinks(us, bots), isolated) == Received(st, us, bots)
    ensures Inv(Received(st, us, bots))
    decreases |bots|
  {
    if bots == [] {
      assert Received(st, us, bots) == st;
    } else {
      var front, b := Front(bots), Back(bots);
      assert bots == front + [b];
      DumpReplayed(st, idx, us, front, isolated);
      ReplayStep(st, idx, us, front, b, isolated);
      ReceivedMore(st, us, front, b);
      ReplayMore(st, idx, DumpLinks(us, front), LinkLine(b.name, UplinkName(us, b), b.share, b.ver), isolated);
    }
  }

  lemma ReplayMore(st: State, idx: nat, lines: seq<string>, line: string, isolated: bool)
    requires line != "" && forall i :: 0 <= i < |lines| ==> lines[i] != ""
    ensures forall i :: 0 <= i < |lines + [line]| ==> (lines + [line])[i] != ""
    ensures Replay(st, idx, lines + [line], isolated) ==
            Step(Replay(st, idx, lines, isolated), BotLine(idx, Chomp(line), false, isolated, 0))
  {
    assert Front(lines + [line]) == lines && Back(lines + [line]) == line;
  }

  // ---- What runs put on the wire

  // Lines hold no line ends, and version numbers are ints.
  predicate EventClean(e: Event) {
    && (e.BotLine? ==> Printable(e.text))
    && (e.VersionLine? ==> -0x8000_0000 <= e.numver < 0x8000_0000)
  }

  lemma NewSplitClean(s: string)
    requires Printable(s)
    ensures Printable(NewSplit(s).rest)
  {
    SkipBlanksClean(s);
  }

  lemma {:induction false} SkipBlanksClean(s: string)
    requires Printable(s)
    ensures Printable(SkipBlanks(s))
  {
    if s != "" && s[0] == ' ' {
      SkipBlanksClean(s[1..]);
    }
  }

  lemma FromBase64Fits(s: string)
    ensures -0x8000_0000 <= FromBase64(s) < 0x8000_0000
  {
  }

  lemma {:induction false} UpdateSendable(bs: seq<Bot>, who: string, share: Option<char>, ver: int)
    requires AllSendable(bs) && (share.Some? ==> share.value !in "\0\r\n") && -0x8000_0000 <= ver < 0x8000_0000
    ensures AllSendable(UpdateBot(bs, who, share, ver))
  {
    if bs != [] {
      assert bs[0] in bs && forall b :: b in bs[1..] ==> b in bs;
      UpdateSendable(bs[1..], who, share, ver);
    }
  }

  lemma LessSendable(bs: seq<Bot>, gone: set<string>)
    requires AllSendable(bs)
    ensures AllSendable(Without(bs, gone))
  {
    WithoutIs(bs, gone);
  }

  lemma CutOffSendable(st: State, who: string)
    requires Tree(st.us, st.bots) && AllSendable(st.bots)
    ensures AllSendable(CutOff(st, who).bots)
  {
    CutOffIs(st, who);
    if Listed(st.bots, who) {
      LessSendable(st.bots, Branch(st.bots, Find(st.bots, who).value.name));
    }
  }

  lemma ParseClean(par: string)
    requires Printable(par)
    ensures ParseLink(par).share !in "\0\r\n" && -0x8000_0000 <= ParseLink(par).ver < 0x8000_0000
  {
    var rest := NewSplit(NewSplit(par).rest).rest;
    NewSplitClean(par);
    NewSplitClean(NewSplit(par).rest);
    FromBase64Fits(if rest == "" then "" else rest[1..]);
  }

  lemma AddSendable(st: State, who: string, from: string, next: string, share: char, ver: int)
    requires AllSendable(st.bots) && share !in "\0\r\n" && -0x8000_0000 <= ver < 0x8000_0000
    ensures AllSendable(AddBot(st, who, from, next, share, ver).bots)
  {
  }

  lemma LoseSendable(st: State, idx: nat)
    requires Tree(st.us, st.bots) && idx < |st.dcc| && AllSendable(st.bots)
    ensures AllSendable(Lose(st, idx).bots)
  {
    CutOffSendable(st, st.dcc[idx].nick);
  }

  lemma NlinkedSendable(st: State, idx: nat, par: string, leaf: bool)
    requires Tree(st.us, st.bots) && idx < |st.dcc| && Printable(par) && AllSendable(st.bots)
    ensures AllSendable(Nlinked(st, idx, par, leaf).bots)
  {
    var a := ParseLink(par);
    ParseClean(par);
    LoseSendable(st, idx);
    AddSendable(st, a.newbot, st.dcc[idx].nick, a.next, a.share, a.ver);
  }

  lemma UpdateLineSendable(st: State, par: string)
    requires Printable(par) && AllSendable(st.bots)
    ensures AllSendable(Update(st, par).bots)
  {
    NewSplitClean(par);
    var c, rest := ParseUpdate(par), NewSplit(par).rest;
    FromBase64Fits(if rest == "" then "" else rest[1..]);
    UpdateSendable(st.bots, c.bot, c.share, c.ver);
  }

  lemma LineSendable(st: State, idx: nat, code: string, msg: string, leaf: bool, isolated: bool, grabbed: int)
    requires Inv(st) && idx < |st.dcc| && Printable(msg) && AllSendable(st.bots)
    ensures AllSendable(Dispatch(st, idx, code, msg, leaf, isolated, grabbed).bots)
  {
    if code == "N" || code == "NLINKED" {
      NlinkedSendable(st, idx, msg, leaf);
    } else if code == "UN" || code == "UNLINKED" {
      CutOffSendable(st, NewSplit(msg).first);
    } else if code == "U" || code == "UPDATE" {
      UpdateLineSendable(st, msg);
    } else if code == "TB" || code == "THISBOT" {
      ThisBotSendable(st, idx, msg);
    } else if code == "BYE" || code == "LINKED" {
      LoseSendable(st, idx);
    }
  }

  lemma ThisBotSendable(st: State, idx: nat, par: string)
    requires Inv(st) && idx < |st.dcc| && AllSendable(st.bots)
    ensures AllSendable(ThisBot(st, idx, par).bots)
  {
    CutOffSendable(st, st.dcc[idx].nick);
    if Listed(st.bots, st.dcc[idx].nick) {
      var b := Find(st.bots, st.dcc[idx].nick).value;
      UnviaKeeps(st, b);
      CutOffSendable(Unvia(st, b.name), st.dcc[idx].nick);
    }
  }

  /** Whatever a bot has learnt in a run, it can pass on: its list can always be dumped in text. */
  lemma {:induction false} RunSendable(us: string, es: seq<Event>)
    requires forall i :: 0 <= i < |es| ==> EventOk(es[i]) && EventClean(es[i])
    ensures AllSendable(Run(State(us, [], map[], []), es).bots)
    decreases |es|
  {
    if es != [] {
      var before := es[..|es| - 1];
      RunSendable(us, before);
      RunKeeps(us, before);
      StepSendable(Run(State(us, [], map[], []), before), es[|es| - 1]);
    }
  }

  lemma StepSendable(st: State, e: Event)
    requires Inv(st) && EventClean(e) && AllSendable(st.bots)
    ensures AllSendable(Step(st, e).bots)
  {
    match e
    case BotLine(idx, text, leaf, isolated, grabbed) =>
      if idx < |st.dcc| && st.dcc[idx].kind == Up {
        LineSendable(st, idx, CodeOf(text), MessageOf(text), leaf, isolated, grabbed);
      }
    case VersionLine(idx, numver, handlen) =>
      if idx < |st.dcc| && st.dcc[idx].kind == Linking {
        var nick := st.dcc[idx].nick;
        LoseSendable(st, idx);
        AddSendable(st.(dcc := st.dcc[idx := Dcc(nick, Up)]), nick, nick, st.us, '-', numver);
      }
    case Loss(idx) =>
      if idx < |st.dcc| {
        LoseSendable(st, idx);
      }
    case _ =>
  }

  // The state of a bot that started out alone.
  function After(us: string, es: seq<Event>): State {
    Run(State(us, [], map[], []), es)
  }

  /** Two bots after any two runs: once the second has linked the first and knows none of its bots,
      it takes over the first one's whole tree from the dump. */
  lemma RunsReplayed(us: string, es: seq<Event>, mine: State, them: string, fs: seq<Event>, theirs: State,
                     idx: nat, isolated: bool)
    requires NameOk(us) && mine == After(us, es) && theirs == After(them, fs)
    requires forall i :: 0 <= i < |es| ==> EventOk(es[i]) && EventClean(es[i])
    requires forall i :: 0 <= i < |fs| ==> EventOk(fs[i])
    requires idx < |theirs.dcc| && Listed(theirs.bots, us) && NextBot(theirs, us) == idx
    requires Find(theirs.bots, us).value.uplink.None?
    requires forall b :: b in mine.bots ==> !InChain(theirs, b.name)
    ensures Replay(theirs, idx, DumpLinks(us, mine.bots), isolated) == Received(theirs, us, mine.bots)
  {
    RunKeeps(us, es);
    RunKeeps(them, fs);
    RunSendable(us, es);
    DumpReplayed(theirs, idx, us, mine.bots, isolated);
  }
}
