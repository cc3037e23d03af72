/** What every run of the botnet keeps. */
module BotRuns {
  import opened Options
  import opened Chars
  import opened BotTree
  import opened Wire
  import opened BotState

  // ---- Cutting off

  lemma {:induction false} WithoutTwice(bs: seq<Bot>, a: set<string>, b: set<string>)
    ensures Without(Without(bs, a), b) == Without(bs, a + b)
  {
    if bs != [] {
      var front, last := Front(bs), Back(bs);
      WithoutTwice(front, a, b);
      if last.name !in a {
        var left := Without(front, a);
        assert Front(left + [last]) == left && Back(left + [last]) == last;
      } else {
        assert Without(bs, a) == Without(front, a);
      }
    }
  }

  /** unvia() and rembot() together remove exactly a bot and all behind it, in place, and exactly the
      party line members on these bots. */
  lemma CutOffIs(st: State, who: string)
    requires Tree(st.us, st.bots)
    ensures !Listed(st.bots, who) ==> CutOff(st, who) == st
    ensures Listed(st.bots, who) ==>
            var gone := Branch(st.bots, Find(st.bots, who).value.name);
            CutOff(st, who) == st.(bots := Without(st.bots, gone), party := PartyWithout(st.party, gone))
  {
    if Listed(st.bots, who) {
      var b := Find(st.bots, who).value;
      var below := Below(st.bots, b.name);
      var left := Without(st.bots, below);
      NotBelowItself(st.us, st.bots, b);
      CutKeepsTree(st.us, st.bots, b.name);
      WithoutIs(st.bots, below);
      FindIs(st.us, left, b, who);
      WithoutTwice(st.bots, below, {b.name});
    }
  }

  lemma PartyOnLeft(st: State, gone: set<string>)
    requires PartyOk(st.bots, st.party)
    ensures PartyOk(Without(st.bots, gone), PartyWithout(st.party, gone))
  {
    var left, party := Without(st.bots, gone), PartyWithout(st.party, gone);
    WithoutIs(st.bots, gone);
    forall k | k in party ensures Listed(left, party[k].bot) {
      var b := Find(st.bots, party[k].bot).value;
      assert b.name in gone ==> HandleOf(b.name) in Handles(gone);
      var i :| 0 <= i < |left| && left[i] == b;
    }
  }

  // All of the invariant but for the connections.
  ghost predicate NetOk(st: State) {
    Tree(st.us, st.bots) && PartyOk(st.bots, st.party)
  }

  lemma CutOffKeeps(st: State, who: string)
    requires NetOk(st)
    ensures NetOk(CutOff(st, who))
    ensures forall b :: b in CutOff(st, who).bots ==> b in st.bots && !SameName(b.name, who)
  {
    CutOffIs(st, who);
    if Listed(st.bots, who) {
      var f := Find(st.bots, who).value;
      var gone := Branch(st.bots, f.name);
      CutKeepsTree(st.us, st.bots, f.name);
      PartyOnLeft(st, gone);
      WithoutIs(st.bots, gone);
      forall b | b in Without(st.bots, gone) ensures !SameName(b.name, who) {
        if SameName(b.name, who) {
          OneOfAName(st.us, st.bots, b, f);
          assert false;
        }
      }
    } else {
      forall b | b in st.bots ensures !SameName(b.name, who) {
        var i :| 0 <= i < |st.bots| && st.bots[i] == b;
      }
    }
  }

  lemma ListedIn(a: seq<Bot>, b: seq<Bot>, who: string)
    requires Listed(a, who) && forall c :: c in a ==> c in b
    ensures Listed(b, who)
  {
    var i :| 0 <= i < |a| && SameName(a[i].name, who);
    assert a[i] in b;
    var j :| 0 <= j < |b| && b[j] == a[i];
  }

  lemma UnviaKeeps(st: State, b: Bot)
    requires NetOk(st) && b in st.bots
    ensures NetOk(Unvia(st, b.name))
    ensures forall c :: c in Unvia(st, b.name).bots ==> c in st.bots
  {
    var below := Below(st.bots, b.name);
    var left, rest := Without(st.bots, below + {b.name}), Without(st.bots, below);
    CutKeepsTree(st.us, st.bots, b.name);
    WithoutIs(st.bots, below);
    WithoutIs(st.bots, below + {b.name});
    PartyOnLeft(st, below + {b.name});
    var party := PartyWithout(st.party, below + {b.name});
    forall k | k in party ensures Listed(rest, party[k].bot) {
      ListedIn(left, rest, party[k].bot);
    }
  }

  // A lost connection takes nobody with it who is reached by another one.
  lemma OthersReached(dcc: seq<Dcc>, idx: nat, name: string)
    requires idx < |dcc| && Reached(dcc, name) && (dcc[idx].kind == Up ==> !SameName(dcc[idx].nick, name))
    ensures Reached(dcc[idx := Dcc("", Lost)], name)
  {
    var j :| 0 <= j < |dcc| && dcc[j].kind == Up && SameName(dcc[j].nick, name);
    assert dcc[idx := Dcc("", Lost)][j] == dcc[j];
  }

  lemma SameNameBack(a: string, b: string)
    ensures SameName(a, b) <==> SameName(b, a)
  {
  }

  lemma LoseKeeps(st: State, idx: nat)
    requires Inv(st) && idx < |st.dcc|
    ensures Inv(Lose(st, idx))
  {
    var nick, st' := st.dcc[idx].nick, Lose(st, idx);
    if st.dcc[idx].kind == Up {
      CutOffKeeps(st, nick);
    }
    forall b | b in st'.bots && b.uplink.None? ensures Reached(st'.dcc, b.name) {
      SameNameBack(nick, b.name);
      OthersReached(st.dcc, idx, b.name);
    }
  }

  // ---- Adding

  lemma ListedGrows(bs: seq<Bot>, b: Bot, who: string)
    requires Listed(bs, who)
    ensures Listed(bs + [b], who)
  {
    var i :| 0 <= i < |bs| && SameName(bs[i].name, who);
    assert (bs + [b])[i] == bs[i];
  }

  lemma AddedKeeps(st: State, b: Bot)
    requires NetOk(st) && Fits(st.us, st.bots, b)
    ensures NetOk(st.(bots := st.bots + [b]))
  {
    Grow(st.us, st.bots, b);
    forall k | k in st.party ensures Listed(st.bots + [b], st.party[k].bot) {
      ListedGrows(st.bots, b, st.party[k].bot);
    }
  }

  // Every connection that carried a direct neighbour still does.
  ghost predicate LinksKept(old_: seq<Dcc>, new_: seq<Dcc>) {
    forall nick :: Reached(old_, nick) ==> Reached(new_, nick)
  }

  lemma LinkAdded(dcc: seq<Dcc>, idx: nat, nick: string)
    requires idx < |dcc| && dcc[idx].kind != Up
    ensures LinksKept(dcc, dcc[idx := Dcc(nick, Up)])
    ensures Reached(dcc[idx := Dcc(nick, Up)], nick)
  {
    var dcc' := dcc[idx := Dcc(nick, Up)];
    assert dcc'[idx] == Dcc(nick, Up);
    forall n | Reached(dcc, n) ensures Reached(dcc', n) {
      var j :| 0 <= j < |dcc| && dcc[j].kind == Up && SameName(dcc[j].nick, n);
      assert dcc'[j] == dcc[j];
    }
  }

  // Direct neighbours stay reached when a connection becomes a link.
  lemma DirectKept(bots: seq<Bot>, b: Bot, dcc: seq<Dcc>, idx: nat)
    requires idx < |dcc| && dcc[idx].kind != Up && b.name == dcc[idx].nick
    requires forall c :: c in bots && c.uplink.None? ==> Reached(dcc, c.name)
    ensures forall c :: c in bots + [b] && c.uplink.None? ==> Reached(dcc[idx := Dcc(b.name, Up)], c.name)
  {
    LinkAdded(dcc, idx, b.name);
    forall c | c in bots + [b] && c.uplink.None? ensures Reached(dcc[idx := Dcc(b.name, Up)], c.name) {
      assert c in bots || c == b;
    }
  }

  lemma NewLinkKeeps(st: State, idx: nat, b: Bot)
    requires Inv(st) && idx < |st.dcc| && st.dcc[idx].kind == Linking && b.name == st.dcc[idx].nick
    requires Fits(st.us, st.bots, b)
    ensures Inv(st.(bots := st.bots + [b], dcc := st.dcc[idx := Dcc(b.name, Up)]))
  {
    DirectKept(st.bots, b, st.dcc, idx);
    AddedKeeps(st, b);
  }

  lemma VersionKeeps(st: State, idx: nat, numver: int, handlen: int)
    requires Inv(st) && idx < |st.dcc| && st.dcc[idx].kind == Linking
    ensures Inv(Version(st, idx, numver, handlen))
  {
    var nick := st.dcc[idx].nick;
    if InChain(st, nick) || numver < NEAT_BOTNET || handlen != HANDLEN {
      LoseKeeps(st, idx);
    } else {
      var b := Bot(nick, None, nick, '-', numver);
      NewLinkKeeps(st, idx, b);
      assert Version(st, idx, numver, handlen) == st.(bots := st.bots + [b], dcc := st.dcc[idx := Dcc(nick, Up)]);
    }
  }

  // The neighbour that via names, as found under the nick of its connection.
  lemma ViaFound(st: State, idx: nat, next: string)
    requires Inv(st) && idx < |st.dcc| && NextBot(st, next) == idx
    ensures var up := Find(st.bots, next);
            && up.Some? && !SameName(next, st.us)
            && Find(st.bots, st.dcc[idx].nick).Some?
            && Find(st.bots, st.dcc[idx].nick).value.name == up.value.via
  {
    var up := Find(st.bots, next).value;
    var path := PathTo(st.us, st.bots, up);
    ViaStartsPath(st.us, st.bots, path);
    FindIs(st.us, st.bots, path[0], st.dcc[idx].nick);
    var i :| 0 <= i < |st.bots| && st.bots[i] == up;
    TreeAt(st.us, st.bots, i);
  }

  /** A good announcement adds the new bot behind the bot it names, with that bot's via. */
  lemma AnnouncedBot(st: State, idx: nat, newbot: string, next: string, share: char, ver: int)
    requires Inv(st) && idx < |st.dcc|
    requires !InChain(st, newbot) && NameOk(newbot) && NextBot(st, next) == idx
    ensures var up := Find(st.bots, next).value;
            var b := Bot(newbot, Some(up.name), up.via, share, ver);
            && AddBot(st, newbot, st.dcc[idx].nick, next, share, ver) == st.(bots := st.bots + [b])
            && Fits(st.us, st.bots, b)
  {
    ViaFound(st, idx, next);
  }

  lemma AnnouncedKeeps(st: State, idx: nat, newbot: string, next: string, share: char, ver: int)
    requires Inv(st) && idx < |st.dcc|
    requires !InChain(st, newbot) && NameOk(newbot) && NextBot(st, next) == idx
    ensures Inv(AddBot(st, newbot, st.dcc[idx].nick, next, share, ver))
  {
    AnnouncedBot(st, idx, newbot, next, share, ver);
    var up := Find(st.bots, next).value;
    BehindKeeps(st, Bot(newbot, Some(up.name), up.via, share, ver));
  }

  lemma BehindKeeps(st: State, b: Bot)
    requires Inv(st) && Fits(st.us, st.bots, b) && b.uplink.Some?
    ensures Inv(st.(bots := st.bots + [b]))
  {
    AddedKeeps(st, b);
    assert forall c :: c in st.bots + [b] ==> c in st.bots || c == b;
  }

  lemma NlinkedKeeps(st: State, idx: nat, par: string, leaf: bool)
    requires Inv(st) && idx < |st.dcc|
    ensures Inv(Nlinked(st, idx, par, leaf))
  {
    var a := ParseLink(par);
    if Refused(st, idx, a, leaf) {
      LoseKeeps(st, idx);
    } else {
      AnnouncedKeeps(st, idx, a.newbot, a.next, a.share, a.ver);
    }
  }

  // ---- Changing in place

  predicate SameShape(a: seq<Bot>, b: seq<Bot>) {
    |a| == |b| && forall i :: 0 <= i < |a| ==> b[i] == a[i].(share := b[i].share, ver := b[i].ver)
  }

  lemma {:induction false} ShapeIsTree(us: string, a: seq<Bot>, b: seq<Bot>)
    requires Tree(us, a) && SameShape(a, b)
    ensures Tree(us, b)
  {
    if a != [] {
      var fa, fb := Front(a), Front(b);
      ShapeIsTree(us, fa, fb);
      ShapeLists(fa, fb, Back(a).name);
      assert Back(b) == Back(a).(share := Back(b).share, ver := Back(b).ver);
      if Back(a).uplink.Some? {
        var p :| p in fa && p.name == Back(a).uplink.value && p.via == Back(a).via;
        var i :| 0 <= i < |fa| && fa[i] == p;
        assert fb[i] in fb && fb[i].name == p.name && fb[i].via == p.via;
      }
    }
  }

  lemma ShapeLists(a: seq<Bot>, b: seq<Bot>, who: string)
    requires SameShape(a, b)
    ensures Listed(a, who) <==> Listed(b, who)
  {
    if i :| 0 <= i < |a| && SameName(a[i].name, who) {
      assert b[i].name == a[i].name;
    }
    if i :| 0 <= i < |b| && SameName(b[i].name, who) {
      assert b[i].name == a[i].name;
    }
  }

  lemma {:induction false} UpdateShape(bs: seq<Bot>, who: string, share: Option<char>, ver: int)
    ensures SameShape(bs, UpdateBot(bs, who, share, ver))
  {
    if bs != [] {
      UpdateShape(bs[1..], who, share, ver);
      var u := UpdateBot(bs, who, share, ver);
      forall i | 0 <= i < |bs| ensures u[i] == bs[i].(share := u[i].share, ver := u[i].ver) {
        if i > 0 {
          assert bs[i] == bs[1..][i - 1];
        }
      }
    }
  }

  lemma UpdateKeeps(st: State, par: string)
    requires Inv(st)
    ensures Inv(Update(st, par))
  {
    var st' := Update(st, par);
    if st' != st {
      var c := ParseUpdate(par);
      UpdateShape(st.bots, c.bot, c.share, c.ver);
      ShapeIsTree(st.us, st.bots, st'.bots);
      forall k | k in st.party ensures Listed(st'.bots, st.party[k].bot) {
        ShapeLists(st.bots, st'.bots, st.party[k].bot);
      }
      forall b | b in st'.bots && b.uplink.None? ensures Reached(st'.dcc, b.name) {
        var i :| 0 <= i < |st'.bots| && st'.bots[i] == b;
        assert st.bots[i] in st.bots && st.bots[i].name == b.name && st.bots[i].uplink.None?;
      }
    }
  }

  lemma SameNameOk(a: string, b: string)
    requires SameName(a, b) && NameOk(b)
    ensures NameOk(a)
  {
    SameLetters(a, b);
    forall i | 0 <= i < |a| ensures ' ' < a[i] < '\U{7F}' {
      assert ToUpper(a[i]) == ToUpper(b[i]);
    }
  }

  lemma {:induction false} SameLetters(a: string, b: string)
    requires SameName(a, b)
    ensures |a| == |b| && forall i :: 0 <= i < |a| ==> ToUpper(a[i]) == ToUpper(b[i])
    decreases |a|
  {
    if a != "" && b != "" {
      SameLetters(a[1..], b[1..]);
      forall i | 0 < i < |a| ensures ToUpper(a[i]) == ToUpper(b[i]) {
        assert a[i] == a[1..][i - 1] && b[i] == b[1..][i - 1];
      }
    }
  }

  lemma ThisBotKeeps(st: State, idx: nat, par: string)
    requires Inv(st) && idx < |st.dcc| && st.dcc[idx].kind == Up
    ensures Inv(ThisBot(st, idx, par))
  {
    var nick, st' := st.dcc[idx].nick, ThisBot(st, idx, par);
    if SameName(par, nick) {
      SameNameOk(par, nick);
      forall b | b in st'.bots && b.uplink.None? ensures Reached(st'.dcc, b.name) {
        assert Reached(st.dcc, b.name);
        var j :| 0 <= j < |st.dcc| && st.dcc[j].kind == Up && SameName(st.dcc[j].nick, b.name);
        assert st'.dcc[j].kind == Up && SameName(st'.dcc[j].nick, b.name);
      }
    } else if Listed(st.bots, nick) {
      var b := Find(st.bots, nick).value;
      UnviaKeeps(st, b);
      LoseKeeps(Unvia(st, b.name), idx);
    } else {
      LoseKeeps(st, idx);
    }
  }

  lemma UnlinkedKeeps(st: State, idx: nat, par: string)
    requires Inv(st)
    ensures Inv(Unlinked(st, idx, par))
  {
    CutOffKeeps(st, NewSplit(par).first);
  }

  lemma JoinKeeps(st: State, idx: nat, par: string, isolated: bool, grabbed: int)
    requires Inv(st)
    ensures Inv(Join(st, idx, par, isolated, grabbed))
  {
    if !isolated && ParseJoin(par).Some? {
      MemberKeeps(st, idx, ParseJoin(par).value, grabbed);
    }
  }

  lemma MemberKeeps(st: State, idx: nat, j: Joining, grabbed: int)
    requires Inv(st)
    ensures Inv(JoinAs(st, idx, Some(j), grabbed))
  {
  }

  // ---- The table of connections

  /** dcc_remove_lost() leaves every entry that is not lost, as often as it was there, and no other. */
  lemma {:induction false} SweepKeeps(dcc: seq<Dcc>, i: nat)
    requires i <= |dcc| && forall k :: 0 <= k < i ==> dcc[k].kind != Lost
    ensures forall e: Dcc :: e in Sweep(dcc, i) ==> e.kind != Lost
    ensures forall e: Dcc :: multiset(Sweep(dcc, i))[e] == if e.kind == Lost then 0 else multiset(dcc)[e]
    decreases |dcc| - i
  {
    if i == |dcc| {
      forall e: Dcc | e.kind == Lost ensures e !in dcc {}
    } else if dcc[i].kind == Lost {
      var last := |dcc| - 1;
      var shorter := dcc[i := dcc[last]][..last];
      FillGap(dcc, i);
      SweepKeeps(shorter, i);
    } else {
      SweepKeeps(dcc, i + 1);
    }
  }

  /** An entry moves only to fill a gap: whoever is not lost and not behind the end stays in place. */
  lemma {:induction false} SweepStays(dcc: seq<Dcc>, i: nat, k: nat)
    requires i <= |dcc| && k < |Sweep(dcc, i)|
    ensures |Sweep(dcc, i)| <= |dcc| && (k < i || dcc[k].kind != Lost ==> Sweep(dcc, i)[k] == dcc[k])
    decreases |dcc| - i
  {
    if i < |dcc| {
      if dcc[i].kind == Lost {
        var last := |dcc| - 1;
        SweepStays(dcc[i := dcc[last]][..last], i, k);
      } else {
        SweepStays(dcc, i + 1, k);
      }
    }
  }

  lemma FillGap(dcc: seq<Dcc>, i: nat)
    requires i < |dcc|
    ensures multiset(dcc) == multiset(dcc[i := dcc[|dcc| - 1]][..|dcc| - 1]) + multiset{dcc[i]}
  {
    var last := |dcc| - 1;
    if i == last {
      assert dcc[i := dcc[last]][..last] == dcc[..last] && dcc == dcc[..last] + [dcc[i]];
    } else {
      var before, between := dcc[..i], dcc[i + 1..last];
      assert dcc == before + [dcc[i]] + between + [dcc[last]];
      assert dcc[i := dcc[last]][..last] == before + [dcc[last]] + between;
    }
  }

  lemma SweepStep(st: State)
    requires Inv(st)
    ensures Inv(Step(st, SweepLost))
  {
    var dcc := Sweep(st.dcc, 0);
    SweepKeeps(st.dcc, 0);
    forall e | e in dcc ensures e in st.dcc {
      assert multiset(dcc)[e] > 0;
      assert e in multiset(st.dcc);
    }
    forall b | b in st.bots && b.uplink.None? ensures Reached(dcc, b.name) {
      var j :| 0 <= j < |st.dcc| && st.dcc[j].kind == Up && SameName(st.dcc[j].nick, b.name);
      assert st.dcc[j] in multiset(st.dcc);
      assert st.dcc[j] in dcc;
    }
  }

  // ---- Steps and runs

  lemma LineKeeps(st: State, idx: nat, code: string, msg: string, leaf: bool, isolated: bool, grabbed: int)
    requires Inv(st) && idx < |st.dcc| && st.dcc[idx].kind == Up
    ensures Inv(Dispatch(st, idx, code, msg, leaf, isolated, grabbed))
  {
    if code == "N" || code == "NLINKED" {
      NlinkedKeeps(st, idx, msg, leaf);
    } else if code == "UN" || code == "UNLINKED" {
      UnlinkedKeeps(st, idx, msg);
    } else if code == "U" || code == "UPDATE" {
      UpdateKeeps(st, msg);
    } else if code == "J" || code == "JOIN" {
      JoinKeeps(st, idx, msg, isolated, grabbed);
    } else if code == "PT" || code == "PART" {
    } else if code == "TB" || code == "THISBOT" {
      ThisBotKeeps(st, idx, msg);
    } else if code == "BYE" || code == "LINKED" {
      LoseKeeps(st, idx);
    }
  }

  lemma StepKeeps(st: State, e: Event)
    requires Inv(st) && EventOk(e)
    ensures Inv(Step(st, e))
  {
    match e
    case Connect(nick, kind) =>
      var st' := Step(st, e);
      forall b | b in st'.bots && b.uplink.None? ensures Reached(st'.dcc, b.name) {
        var j :| 0 <= j < |st.dcc| && st.dcc[j].kind == Up && SameName(st.dcc[j].nick, b.name);
        assert st'.dcc[j] == st.dcc[j];
      }
    case VersionLine(idx, numver, handlen) =>
      if idx < |st.dcc| && st.dcc[idx].kind == Linking {
        VersionKeeps(st, idx, numver, handlen);
      }
    case BotLine(idx, text, leaf, isolated, grabbed) =>
      if idx < |st.dcc| && st.dcc[idx].kind == Up {
        LineKeeps(st, idx, CodeOf(text), MessageOf(text), leaf, isolated, grabbed);
      }
    case Loss(idx) =>
      if idx < |st.dcc| {
        LoseKeeps(st, idx);
      }
    case SweepLost =>
      SweepStep(st);
  }

  /** The invariant holds after every run of a bot that started out alone. */
  lemma {:induction false} RunKeeps(us: string, es: seq<Event>)
    requires forall i :: 0 <= i < |es| ==> EventOk(es[i])
    ensures Inv(Run(State(us, [], map[], []), es))
    decreases |es|
  {
    if es != [] {
      RunKeeps(us, es[..|es| - 1]);
      StepKeeps(Run(State(us, [], map[], []), es[..|es| - 1]), es[|es| - 1]);
    }
  }

  /** Removing a list entry without what is behind it leaves a tree exactly when nothing is behind it. */
  lemma RemBotAlone(st: State, b: Bot)
    requires Tree(st.us, st.bots) && b in st.bots
    ensures Tree(st.us, RemBot(st, b.name).bots) <==> Below(st.bots, b.name) == {}
  {
    FindIs(st.us, st.bots, b, b.name);
    if Below(st.bots, b.name) == {} {
      CutKeepsTree(st.us, st.bots, b.name);
      assert {} + {b.name} == {b.name};
    } else {
      var c := FirstBehind(st.us, st.bots, b.name);
      Dangling(st.us, st.bots, b.name, c);
    }
  }

  // Members on a bot removed are left on none.
  lemma MembersLeft(us: string, bs: seq<Bot>, b: Bot, who: string)
    requires Tree(us, bs) && b in bs && Listed(bs, who)
    ensures Listed(Without(bs, {b.name}), who) <==> !SameName(b.name, who)
  {
    var left, f := Without(bs, {b.name}), Find(bs, who).value;
    WithoutIs(bs, {b.name});
    if SameName(b.name, who) {
      forall c | c in left ensures !SameName(c.name, who) {
        if SameName(c.name, who) {
          OneOfAName(us, bs, c, b);
        }
      }
    } else {
      var i :| 0 <= i < |left| && left[i] == f;
    }
  }

  lemma PartyAlone(st: State, b: Bot)
    requires Inv(st) && b in st.bots
    ensures PartyOk(Without(st.bots, {b.name}), st.party) <==> forall k :: k in st.party ==> k.0 != HandleOf(b.name)
  {
    forall k | k in st.party
      ensures Listed(Without(st.bots, {b.name}), st.party[k].bot) <==> k.0 != HandleOf(b.name)
    {
      MembersLeft(st.us, st.bots, b, st.party[k].bot);
    }
  }

  /** It keeps the whole invariant exactly when nothing is behind the bot and nobody on the party line is
      on it. */
  lemma RemBotKeeps(st: State, b: Bot)
    requires Inv(st) && b in st.bots
    ensures Inv(RemBot(st, b.name)) <==>
            Below(st.bots, b.name) == {} && forall k :: k in st.party ==> k.0 != HandleOf(b.name)
  {
    RemBotAlone(st, b);
    FindIs(st.us, st.bots, b, b.name);
    PartyAlone(st, b);
    WithoutIs(st.bots, {b.name});
    FewerBots(st, Without(st.bots, {b.name}));
  }

  lemma FewerBots(st: State, left: seq<Bot>)
    requires Inv(st) && forall c :: c in left ==> c in st.bots
    ensures Inv(st.(bots := left)) <==> Tree(st.us, left) && PartyOk(left, st.party)
  {
  }

  lemma Dangling(us: string, bs: seq<Bot>, who: string, c: Bot)
    requires c in bs && c.uplink == Some(who) && c.name != who
    ensures !Tree(us, Without(bs, {who}))
  {
    WithoutIs(bs, {who});
    if Tree(us, Without(bs, {who})) {
      var p := UplinkOf(us, Without(bs, {who}), c);
      assert false;
    }
  }

  lemma {:induction false} FirstBehind(us: string, bs: seq<Bot>, who: string) returns (c: Bot)
    requires Tree(us, bs) && Below(bs, who) != {}
    ensures c in bs && c.uplink == Some(who) && c.name != who
    decreases |bs|
  {
    var front := Front(bs);
    if Below(front, who) != {} {
      c := FirstBehind(us, front, who);
    } else {
      c := Back(bs);
      var p :| p in front && p.name == who;
      NotLast(us, bs, p);
    }
  }
}
