/** Which runs keep a list entry for every live link, and how one is lost. */
module BotBacked {
  import opened Options
  import opened Chars
  import opened BotTree
  import opened Wire
  import opened BotState
  import opened BotRuns

  // How many live links carry this name.
  function Links(dcc: seq<Dcc>, h: Handle): nat {
    if dcc == [] then 0 else Links(Front(dcc), h) + One(Back(dcc), h)
  }

  function One(d: Dcc, h: Handle): nat {
    if d.kind == Up && HandleOf(d.nick) == h then 1 else 0
  }

  // The bot of that name is listed as linked to us.
  ghost predicate Direct(bots: seq<Bot>, nick: string) {
    exists b :: b in bots && SameName(b.name, nick) && b.uplink.None?
  }

  /** Every live link is that of a listed direct neighbour, and no two are of one neighbour. */
  ghost predicate Backed(st: State) {
    && (forall j :: 0 <= j < |st.dcc| && st.dcc[j].kind == Up ==> Direct(st.bots, st.dcc[j].nick))
    && (forall h :: Links(st.dcc, h) <= 1)
  }

  // ---- Counting links

  lemma {:induction false} LinksSet(dcc: seq<Dcc>, i: nat, d: Dcc, h: Handle)
    requires i < |dcc|
    ensures Links(dcc[i := d], h) == Links(dcc, h) - One(dcc[i], h) + One(d, h)
    ensures One(dcc[i], h) <= Links(dcc, h)
    decreases |dcc|
  {
    if i == |dcc| - 1 {
      assert Front(dcc[i := d]) == Front(dcc);
    } else {
      LinksSet(Front(dcc), i, d, h);
      assert Front(dcc[i := d]) == Front(dcc)[i := d];
    }
  }

  lemma LinksMore(dcc: seq<Dcc>, d: Dcc, h: Handle)
    ensures Links(dcc + [d], h) == Links(dcc, h) + One(d, h)
  {
    assert Front(dcc + [d]) == dcc;
  }

  lemma {:induction false} LinksSwept(dcc: seq<Dcc>, i: nat, h: Handle)
    requires i <= |dcc|
    ensures Links(Sweep(dcc, i), h) == Links(dcc, h)
    decreases |dcc| - i
  {
    if i < |dcc| {
      if dcc[i].kind == Lost {
        var last := |dcc| - 1;
        var filled := dcc[i := dcc[last]];
        LinksSet(dcc, i, dcc[last], h);
        assert Front(filled) == filled[..last] && Back(filled) == dcc[last];
        LinksSwept(filled[..last], i, h);
      } else {
        LinksSwept(dcc, i + 1, h);
      }
    }
  }

  // Two live links of one name are one link.
  lemma OneLink(dcc: seq<Dcc>, i: nat, j: nat)
    requires i < |dcc| && j < |dcc| && dcc[i].kind == Up && dcc[j].kind == Up && SameName(dcc[i].nick, dcc[j].nick)
    requires Links(dcc, HandleOf(dcc[i].nick)) <= 1
    ensures i == j
    decreases |dcc|
  {
    if i != j {
      var h := HandleOf(dcc[i].nick);
      LinksSet(dcc, i, Dcc("", Lost), h);
      LinksSet(dcc[i := Dcc("", Lost)], j, Dcc("", Lost), h);
      assert false;
    }
  }

  // ---- What a cut leaves

  // The bot cut off is the only direct neighbour among those that go.
  lemma CutLeavesDirect(st: State, who: string, nick: string)
    requires Tree(st.us, st.bots) && Direct(st.bots, nick)
    ensures Direct(CutOff(st, who).bots, nick) <==> !SameName(who, nick)
  {
    CutOffIs(st, who);
    var b :| b in st.bots && SameName(b.name, nick) && b.uplink.None?;
    if Listed(st.bots, who) {
      var f := Find(st.bots, who).value;
      var gone := Branch(st.bots, f.name);
      WithoutIs(st.bots, gone);
      BelowCloses(st.us, st.bots, f.name, b);
      if SameName(who, nick) {
        OneOfAName(st.us, st.bots, b, f);
        forall c | c in Without(st.bots, gone) ensures !SameName(c.name, nick) {
          if SameName(c.name, nick) {
            OneOfAName(st.us, st.bots, b, c);
            assert false;
          }
        }
      } else {
        assert b.name != f.name;
        assert b in Without(st.bots, gone);
      }
    } else {
      var i :| 0 <= i < |st.bots| && st.bots[i] == b;
      assert !SameName(st.bots[i].name, who);
    }
  }

  // A link's own name is reached over that link.
  lemma OwnLink(st: State, idx: nat)
    requires Inv(st) && Backed(st) && idx < |st.dcc| && st.dcc[idx].kind == Up
    ensures forall who :: SameName(who, st.dcc[idx].nick) ==> NextBot(st, who) == idx
    ensures forall who :: NextBot(st, who) == idx && Direct(st.bots, who) ==> SameName(who, st.dcc[idx].nick)
  {
    var b :| b in st.bots && SameName(b.name, st.dcc[idx].nick) && b.uplink.None?;
    DirectVia(st, b);
    forall who | SameName(who, st.dcc[idx].nick) ensures NextBot(st, who) == idx {
      FindIs(st.us, st.bots, b, who);
      LinkOfReached(st.dcc, b.name);
      assert Reached(st.dcc, b.name);
      OneLink(st.dcc, LinkFrom(st.dcc, b.name, 0), idx);
    }
    forall who | NextBot(st, who) == idx && Direct(st.bots, who) ensures SameName(who, st.dcc[idx].nick) {
      var c :| c in st.bots && SameName(c.name, who) && c.uplink.None?;
      DirectVia(st, c);
      FindIs(st.us, st.bots, c, who);
    }
  }

  lemma DirectVia(st: State, b: Bot)
    requires Tree(st.us, st.bots) && b in st.bots && b.uplink.None?
    ensures b.via == b.name
  {
    var i :| 0 <= i < |st.bots| && st.bots[i] == b;
    TreeAt(st.us, st.bots, i);
  }

  // ---- What each event keeps

  // Neighbours that stay listed as such keep backing links that stay as they are.
  lemma StillBacked(st: State, st': State)
    requires Backed(st) && st'.dcc == st.dcc
    requires forall nick :: Direct(st.bots, nick) ==> Direct(st'.bots, nick)
    ensures Backed(st')
  {
  }

  lemma LoseBacked(st: State, idx: nat)
    requires Tree(st.us, st.bots) && Backed(st) && idx < |st.dcc|
    ensures Backed(Lose(st, idx))
  {
    var st', lost := Lose(st, idx), Dcc("", Lost);
    forall h ensures Links(st'.dcc, h) <= 1 {
      LinksSet(st.dcc, idx, lost, h);
    }
    forall j | 0 <= j < |st'.dcc| && st'.dcc[j].kind == Up ensures Direct(st'.bots, st'.dcc[j].nick) {
      if st.dcc[idx].kind == Up {
        CutLeavesDirect(st, st.dcc[idx].nick, st.dcc[j].nick);
        if SameName(st.dcc[idx].nick, st.dcc[j].nick) {
          OneLink(st.dcc, idx, j);
          assert false;
        }
      }
    }
  }

  /** An `unlinked` keeps every live link listed exactly when it names another bot than its sender. */
  lemma UnlinkedBacked(st: State, idx: nat, bot: string)
    requires Inv(st) && Backed(st) && idx < |st.dcc| && st.dcc[idx].kind == Up
    ensures Backed(UnlinkedAs(st, idx, bot)) <==> !SameName(bot, st.dcc[idx].nick)
  {
    OwnLink(st, idx);
    if NextBot(st, bot) == idx {
      CutLeavesDirect(st, bot, st.dcc[idx].nick);
      if !SameName(bot, st.dcc[idx].nick) {
        forall j | 0 <= j < |st.dcc| && st.dcc[j].kind == Up ensures Direct(CutOff(st, bot).bots, st.dcc[j].nick) {
          CutLeavesDirect(st, bot, st.dcc[j].nick);
          assert SameName(bot, st.dcc[j].nick) ==> Direct(st.bots, bot);
        }
      }
    }
  }

  lemma UnviaBacked(st: State, b: Bot)
    requires Tree(st.us, st.bots) && Backed(st) && b in st.bots
    ensures Backed(Unvia(st, b.name))
  {
    var st' := Unvia(st, b.name);
    WithoutIs(st.bots, Below(st.bots, b.name));
    forall nick | Direct(st.bots, nick) ensures Direct(st'.bots, nick) {
      var c :| c in st.bots && SameName(c.name, nick) && c.uplink.None?;
      BelowCloses(st.us, st.bots, b.name, c);
      assert c in st'.bots;
    }
    StillBacked(st, st');
  }

  lemma RespeltBacked(st: State, idx: nat, par: string)
    requires Backed(st) && idx < |st.dcc| && st.dcc[idx].kind == Up && SameName(par, st.dcc[idx].nick)
    ensures Backed(st.(dcc := st.dcc[idx := Dcc(par, Up)]))
  {
    var dcc := st.dcc[idx := Dcc(par, Up)];
    forall h ensures Links(dcc, h) <= 1 {
      LinksSet(st.dcc, idx, Dcc(par, Up), h);
    }
    forall j | 0 <= j < |dcc| && dcc[j].kind == Up ensures Direct(st.bots, dcc[j].nick) {
      assert Direct(st.bots, st.dcc[j].nick);
    }
  }

  lemma ImpostorBacked(st: State, idx: nat, b: Bot)
    requires Inv(st) && Backed(st) && idx < |st.dcc| && b in st.bots
    ensures Backed(Lose(Unvia(st, b.name), idx))
  {
    UnviaBacked(st, b);
    UnviaKeeps(st, b);
    LoseBacked(Unvia(st, b.name), idx);
  }

  lemma ThisBotBacked(st: State, idx: nat, par: string)
    requires Inv(st) && Backed(st) && idx < |st.dcc| && st.dcc[idx].kind == Up
    ensures Backed(ThisBot(st, idx, par))
  {
    var nick := st.dcc[idx].nick;
    if SameName(par, nick) {
      RespeltBacked(st, idx, par);
    } else {
      assert Direct(st.bots, nick);
      ImpostorBacked(st, idx, Find(st.bots, nick).value);
    }
  }

  lemma AppendedBacked(st: State, b: Bot)
    requires Backed(st)
    ensures Backed(st.(bots := st.bots + [b]))
  {
    var st' := st.(bots := st.bots + [b]);
    forall nick | Direct(st.bots, nick) ensures Direct(st'.bots, nick) {
      var c :| c in st.bots && SameName(c.name, nick) && c.uplink.None?;
      assert c in st'.bots;
    }
    StillBacked(st, st');
  }

  // A name that is not listed has no link.
  lemma NoLink(st: State, nick: string)
    requires Backed(st) && !Listed(st.bots, nick)
    ensures Links(st.dcc, HandleOf(nick)) == 0
  {
    forall c | c in st.bots ensures !SameName(c.name, nick) {
      var i :| 0 <= i < |st.bots| && st.bots[i] == c;
    }
    forall j | 0 <= j < |st.dcc| ensures One(st.dcc[j], HandleOf(nick)) == 0 {
      assert st.dcc[j].kind == Up && SameName(st.dcc[j].nick, nick) ==> Direct(st.bots, nick);
    }
    NoneLinked(st.dcc, HandleOf(nick));
  }

  lemma {:induction false} NoneLinked(dcc: seq<Dcc>, h: Handle)
    requires forall j :: 0 <= j < |dcc| ==> One(dcc[j], h) == 0
    ensures Links(dcc, h) == 0
  {
    if dcc != [] {
      NoneLinked(Front(dcc), h);
    }
  }

  lemma VersionBacked(st: State, idx: nat, numver: int, handlen: int)
    requires Inv(st) && Backed(st) && idx < |st.dcc| && st.dcc[idx].kind == Linking
    ensures Backed(Version(st, idx, numver, handlen))
  {
    var nick := st.dcc[idx].nick;
    if InChain(st, nick) || numver < NEAT_BOTNET || handlen != HANDLEN {
      LoseBacked(st, idx);
    } else {
      var b := Bot(nick, None, nick, '-', numver);
      var st' := Version(st, idx, numver, handlen);
      assert st' == st.(bots := st.bots + [b], dcc := st.dcc[idx := Dcc(nick, Up)]);
      NoLink(st, nick);
      forall h ensures Links(st'.dcc, h) <= 1 {
        LinksSet(st.dcc, idx, Dcc(nick, Up), h);
      }
      AppendedBacked(st, b);
      assert b in st'.bots;
    }
  }

  lemma NlinkedBacked(st: State, idx: nat, par: string, leaf: bool)
    requires Inv(st) && Backed(st) && idx < |st.dcc|
    ensures Backed(Nlinked(st, idx, par, leaf))
  {
    var a := ParseLink(par);
    if Refused(st, idx, a, leaf) {
      LoseBacked(st, idx);
    } else {
      AnnouncedBot(st, idx, a.newbot, a.next, a.share, a.ver);
      var up := Find(st.bots, a.next).value;
      AppendedBacked(st, Bot(a.newbot, Some(up.name), up.via, a.share, a.ver));
    }
  }

  lemma UpdateBacked(st: State, par: string)
    requires Backed(st)
    ensures Backed(Update(st, par))
  {
    var st', c := Update(st, par), ParseUpdate(par);
    UpdateShape(st.bots, c.bot, c.share, c.ver);
    forall nick | Direct(st.bots, nick) ensures Direct(st'.bots, nick) {
      var b :| b in st.bots && SameName(b.name, nick) && b.uplink.None?;
      var i :| 0 <= i < |st.bots| && st.bots[i] == b;
      assert st'.bots[i] in st'.bots;
    }
    StillBacked(st, st');
  }

  lemma ConnectBacked(st: State, d: Dcc)
    requires Backed(st) && d.kind != Up
    ensures Backed(st.(dcc := st.dcc + [d]))
  {
    forall h ensures Links(st.dcc + [d], h) <= 1 {
      LinksMore(st.dcc, d, h);
    }
  }

  lemma SweepBacked(st: State)
    requires Backed(st)
    ensures Backed(Step(st, SweepLost))
  {
    var dcc := Sweep(st.dcc, 0);
    SweepKeeps(st.dcc, 0);
    forall h ensures Links(dcc, h) <= 1 {
      LinksSwept(st.dcc, 0, h);
    }
    forall e | e in dcc ensures e in st.dcc {
      assert multiset(dcc)[e] > 0;
      assert e in multiset(st.dcc);
    }
  }

  // ---- Steps and runs

  // An `unlinked` in which a linked bot names itself.
  predicate SelfUnlinked(st: State, e: Event) {
    && e.BotLine? && e.idx < |st.dcc| && st.dcc[e.idx].kind == Up
    && (CodeOf(e.text) == "UN" || CodeOf(e.text) == "UNLINKED")
    && SameName(NewSplit(MessageOf(e.text)).first, st.dcc[e.idx].nick)
  }

  // Joins and parts change the party line alone.
  lemma SameLinks(st: State, st': State)
    requires st'.bots == st.bots && st'.dcc == st.dcc
    ensures Backed(st) <==> Backed(st')
  {
  }

  lemma MembersBacked(st: State, idx: nat, msg: string, isolated: bool, grabbed: int)
    requires Backed(st)
    ensures Backed(Join(st, idx, msg, isolated, grabbed)) && Backed(Part(st, msg, isolated, grabbed))
  {
    SameLinks(st, Join(st, idx, msg, isolated, grabbed));
    SameLinks(st, Part(st, msg, isolated, grabbed));
  }

  // What a line leads to that is no `unlinked`.
  ghost predicate Outcome(st: State, idx: nat, msg: string, leaf: bool, isolated: bool, grabbed: int, st': State)
    requires idx < |st.dcc|
  {
    || st' == Nlinked(st, idx, msg, leaf)
    || st' == Update(st, msg)
    || st' == Join(st, idx, msg, isolated, grabbed)
    || st' == Part(st, msg, isolated, grabbed)
    || st' == ThisBot(st, idx, msg)
    || st' == Lose(st, idx)
    || st' == st
  }

  lemma OutcomeOf(st: State, idx: nat, code: string, msg: string, leaf: bool, isolated: bool, grabbed: int)
    requires idx < |st.dcc| && code != "UN" && code != "UNLINKED"
    ensures Outcome(st, idx, msg, leaf, isolated, grabbed, Dispatch(st, idx, code, msg, leaf, isolated, grabbed))
  {
  }

  lemma OutcomeBacked(st: State, idx: nat, msg: string, leaf: bool, isolated: bool, grabbed: int, st': State)
    requires Inv(st) && Backed(st) && idx < |st.dcc| && st.dcc[idx].kind == Up
    requires Outcome(st, idx, msg, leaf, isolated, grabbed, st')
    ensures Backed(st')
  {
    NlinkedBacked(st, idx, msg, leaf);
    UpdateBacked(st, msg);
    MembersBacked(st, idx, msg, isolated, grabbed);
    ThisBotBacked(st, idx, msg);
    LoseBacked(st, idx);
  }

  lemma LineBacked(st: State, idx: nat, code: string, msg: string, leaf: bool, isolated: bool, grabbed: int)
    requires Inv(st) && Backed(st) && idx < |st.dcc| && st.dcc[idx].kind == Up
    ensures Backed(Dispatch(st, idx, code, msg, leaf, isolated, grabbed)) <==>
            !((code == "UN" || code == "UNLINKED") && SameName(NewSplit(msg).first, st.dcc[idx].nick))
  {
    if code == "UN" || code == "UNLINKED" {
      UnlinkedBacked(st, idx, NewSplit(msg).first);
    } else {
      OutcomeOf(st, idx, code, msg, leaf, isolated, grabbed);
      OutcomeBacked(st, idx, msg, leaf, isolated, grabbed, Dispatch(st, idx, code, msg, leaf, isolated, grabbed));
    }
  }

  /** The one event that leaves a live link without its list entry is an `unlinked` in which a linked
      bot names itself. */
  lemma StepBacked(st: State, e: Event)
    requires Inv(st) && Backed(st) && EventOk(e)
    ensures Backed(Step(st, e)) <==> !SelfUnlinked(st, e)
  {
    match e
    case Connect(nick, kind) => ConnectBacked(st, Dcc(nick, kind));
    case VersionLine(idx, numver, handlen) =>
      if idx < |st.dcc| && st.dcc[idx].kind == Linking {
        VersionBacked(st, idx, numver, handlen);
      }
    case BotLine(idx, text, leaf, isolated, grabbed) =>
      if idx < |st.dcc| && st.dcc[idx].kind == Up {
        LineBacked(st, idx, CodeOf(text), MessageOf(text), leaf, isolated, grabbed);
      }
    case Loss(idx) =>
      if idx < |st.dcc| {
        LoseBacked(st, idx);
      }
    case SweepLost =>
      SweepBacked(st);
  }

  /** Over a whole run of a bot that started out alone, every live link has its list entry at all
      times exactly when no linked bot ever names itself in an `unlinked`. */
  lemma RunBacked(us: string, es: seq<Event>)
    requires forall i :: 0 <= i < |es| ==> EventOk(es[i])
    ensures var start := State(us, [], map[], []);
            (forall k :: 0 <= k <= |es| ==> Backed(Run(start, es[..k]))) <==>
            (forall k :: 0 <= k < |es| ==> !SelfUnlinked(Run(start, es[..k]), es[k]))
  {
    var start := State(us, [], map[], []);
    if forall k :: 0 <= k <= |es| ==> Backed(Run(start, es[..k])) {
      forall k | 0 <= k < |es| ensures !SelfUnlinked(Run(start, es[..k]), es[k]) {
        RunMore(us, es, k);
      }
    }
    if forall k :: 0 <= k < |es| ==> !SelfUnlinked(Run(start, es[..k]), es[k]) {
      forall k | 0 <= k <= |es| ensures Backed(Run(start, es[..k])) {
        NeverSelfUnlinked(us, es, k);
      }
    }
  }

  lemma RunMore(us: string, es: seq<Event>, k: nat)
    requires k < |es| && forall i :: 0 <= i < |es| ==> EventOk(es[i])
    ensures var start := State(us, [], map[], []);
            Backed(Run(start, es[..k])) ==>
            (Backed(Run(start, es[..k + 1])) <==> !SelfUnlinked(Run(start, es[..k]), es[k]))
  {
    var start := State(us, [], map[], []);
    var st := Run(start, es[..k]);
    RunKeeps(us, es[..k]);
    RunOne(start, es[..k], es[k]);
    assert es[..k + 1] == es[..k] + [es[k]];
    if Backed(st) {
      StepBacked(st, es[k]);
    }
  }

  lemma {:induction false} NeverSelfUnlinked(us: string, es: seq<Event>, k: nat)
    requires k <= |es| && forall i :: 0 <= i < |es| ==> EventOk(es[i])
    requires forall i :: 0 <= i < |es| ==> !SelfUnlinked(Run(State(us, [], map[], []), es[..i]), es[i])
    ensures Backed(Run(State(us, [], map[], []), es[..k]))
  {
    if k > 0 {
      NeverSelfUnlinked(us, es, k - 1);
      RunMore(us, es, k - 1);
    }
  }

  lemma LinkedAlone(us: string, nick: string)
    requires !SameName(nick, us) && 0 < |nick| <= HANDLEN
    ensures var st := State(us, [], map[], [Dcc(nick, Linking)]);
            Version(st, 0, NEAT_BOTNET, HANDLEN)
            == State(us, [Bot(nick, None, nick, '-', NEAT_BOTNET)], map[], [Dcc(nick, Up)])
  {
  }

  lemma UnlinkedAlone(us: string, nick: string)
    requires !SameName(nick, us)
    ensures var bots := [Bot(nick, None, nick, '-', NEAT_BOTNET)];
            UnlinkedAs(State(us, bots, map[], [Dcc(nick, Up)]), 0, nick) == State(us, [], map[], [Dcc(nick, Up)])
  {
    var b := Bot(nick, None, nick, '-', NEAT_BOTNET);
    var st := State(us, [b], map[], [Dcc(nick, Up)]);
    assert Front([b]) == [] && Back([b]) == b;
    assert Below([b], nick) == {};
    assert Without([], {}) == [] && Without([b], {}) == [] + [b];
    assert Without([], {nick}) == [] && Without([b], {nick}) == [] + [];
    assert Unvia(st, nick) == st;
    assert NextBot(st, nick) == 0;
  }

  lemma UnlinkText()
    ensures CodeOf("un a") == "UN" && NewSplit(MessageOf("un a")).first == "a"
  {
    var text := "un a";
    assert text[0] == 'u' && text[1] == 'n' && text[2] == ' ' && text[3] == 'a';
    assert First(text, ' ') == Some(2);
    assert text[..2] == "un" && text[3..] == "a";
    WordFirst("a", "");
  }

  lemma StrandedSteps(us: string, start: State, linking: State, linked: State, stranded: State)
    requires !SameName("a", us)
    requires start == State(us, [], map[], []) && linking == State(us, [], map[], [Dcc("a", Linking)])
    requires linked == State(us, [Bot("a", None, "a", '-', NEAT_BOTNET)], map[], [Dcc("a", Up)])
    requires stranded == State(us, [], map[], [Dcc("a", Up)])
    ensures Step(start, Connect("a", Linking)) == linking
    ensures Step(linking, VersionLine(0, NEAT_BOTNET, HANDLEN)) == linked
    ensures Step(linked, BotLine(0, "un a", false, false, 0)) == stranded
  {
    LinkedAlone(us, "a");
    UnlinkedAlone(us, "a");
    UnlinkText();
  }

  /** Three events strand a link: it stays up, and the list is empty. */
  lemma {:induction false} StrandedLink(us: string)
    requires !SameName("a", us)
    ensures var es := [Connect("a", Linking), VersionLine(0, NEAT_BOTNET, HANDLEN), BotLine(0, "un a", false, false, 0)];
            && (forall i :: 0 <= i < |es| ==> EventOk(es[i]))
            && Run(State(us, [], map[], []), es) == State(us, [], map[], [Dcc("a", Up)])
            && !Backed(State(us, [], map[], [Dcc("a", Up)]))
  {
    var stranded := State(us, [], map[], [Dcc("a", Up)]);
    var start, linking := State(us, [], map[], []), State(us, [], map[], [Dcc("a", Linking)]);
    var linked := State(us, [Bot("a", None, "a", '-', NEAT_BOTNET)], map[], [Dcc("a", Up)]);
    RunThree(start, Connect("a", Linking), VersionLine(0, NEAT_BOTNET, HANDLEN), BotLine(0, "un a", false, false, 0));
    StrandedSteps(us, start, linking, linked, stranded);
    NotBacked(stranded, 0);
  }

  lemma NotBacked(st: State, j: nat)
    requires j < |st.dcc| && st.dcc[j].kind == Up && st.bots == []
    ensures !Backed(st)
  {
    assert !Direct(st.bots, st.dcc[j].nick);
  }

  lemma RunThree(st: State, a: Event, b: Event, c: Event)
    ensures Run(st, [a, b, c]) == Step(Step(Step(st, a), b), c)
  {
    RunOne(st, [], a);
    RunOne(st, [a], b);
    RunOne(st, [a] + [b], c);
    assert [] + [a] == [a] && [a] + [b] + [c] == [a, b, c];
  }

  lemma RunOne(st: State, es: seq<Event>, e: Event)
    ensures Run(st, es + [e]) == Step(Run(st, es), e)
  {
    assert (es + [e])[..|es|] == es;
  }
}
