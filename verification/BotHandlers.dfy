/** dcc.c, botcmd.c: the handlers of what bots send, on the lists in place. */
module BotHandlers {
  import opened Options
  import opened Wire
  import opened BotTree
  import opened BotState
  import opened BotRuns
  import opened BotReplay
  import opened PartyLine
  import opened BotNodes
  import opened BotList
  import opened BotLoss

  /** dump_links(), the lines that announce bots. */
  method LinkDump(net: Botnet) returns (lines: seq<string>)
    requires net.Valid() && |net.botnetnick| <= HANDLEN
    ensures lines == DumpLinks(net.botnetnick, Recs(net.nodes))
  {
    lines := [];
    var bot := net.tandbot;
    ghost var q := 0;
    while bot != null
      invariant 0 <= q <= |net.nodes| && bot == At(net.nodes, q)
      invariant lines == DumpUpTo(net.botnetnick, net.nodes, q)
      decreases |net.nodes| - q
    {
      DumpMore(net.botnetnick, net.nodes, q);
      assert !bot.freed && (bot.uplink.To? ==> !bot.uplink.tand.freed) by {
        UplinkListed(net.botnetnick, net.nodes, q);
      }
      var p := if bot.uplink == Us then net.botnetnick else bot.uplink.tand.bot;
      var x := Sprintf(LINK_FORMAT, [Text(bot.bot), Text(p), Letter(bot.share), Number(bot.ver)]);
      lines := lines + [x];
      bot := bot.next;
      q := q + 1;
    }
    DumpAll(net.botnetnick, net.nodes);
  }

  // The lines for the first q nodes.
  ghost function DumpUpTo(us: string, ns: seq<Tand>, q: nat): seq<string>
    requires q <= |ns|
    reads ns`share, ns`ver
  {
    DumpLinks(us, Recs(ns)[..q])
  }

  lemma DumpAll(us: string, ns: seq<Tand>)
    ensures DumpUpTo(us, ns, |ns|) == DumpLinks(us, Recs(ns))
  {
    assert Recs(ns)[..|ns|] == Recs(ns);
  }

  lemma DumpMore(us: string, ns: seq<Tand>, q: nat)
    requires Good(us, ns) && q < |ns| && |us| <= HANDLEN
    ensures ns[q].uplink != Nowhere
    ensures var p := if ns[q].uplink == Us then us else ns[q].uplink.tand.bot;
            var args := [Text(ns[q].bot), Text(p), Letter(ns[q].share), Number(ns[q].ver)];
            && ArgsFit(LINK_FORMAT, args)
            && DumpUpTo(us, ns, q + 1) == DumpUpTo(us, ns, q) + [Wire.Cut(Render(LINK_FORMAT, args))]
  {
    var b := ns[q];
    UplinkText(us, ns, q);
    NextLine(us, Recs(ns), q);
    LineWritten(b.bot, UplinkName(us, Rec(b)), b.share, b.ver);
  }

  lemma NextLine(us: string, bs: seq<Bot>, q: nat)
    requires q < |bs|
    ensures DumpLinks(us, bs[..q + 1]) ==
            DumpLinks(us, bs[..q]) + [LinkLine(bs[q].name, UplinkName(us, bs[q]), bs[q].share, bs[q].ver)]
  {
    assert Front(bs[..q + 1]) == bs[..q] && Back(bs[..q + 1]) == bs[q];
  }

  lemma LineWritten(name: string, up: string, share: char, ver: int)
    requires |name| <= HANDLEN && |up| <= HANDLEN
    ensures var args := [Text(name), Text(up), Letter(share), Number(ver)];
            ArgsFit(LINK_FORMAT, args) && Wire.Cut(Render(LINK_FORMAT, args)) == LinkLine(name, up, share, ver)
  {
    LinkLineRendered(name, up, share, ver);
    LineFits(name, up, share, ver);
  }

  // The names in the line for a node, and that they are short.
  lemma UplinkText(us: string, ns: seq<Tand>, q: nat)
    requires Good(us, ns) && q < |ns| && |us| <= HANDLEN
    ensures ns[q].uplink != Nowhere && Recs(ns)[q] == Rec(ns[q])
    ensures UplinkName(us, Rec(ns[q])) == if ns[q].uplink == Us then us else ns[q].uplink.tand.bot
    ensures |ns[q].bot| <= HANDLEN && |UplinkName(us, Rec(ns[q]))| <= HANDLEN
  {
    RecsAt(ns, q);
    GoodAt(us, ns, q);
    if ns[q].uplink != Us {
      var i :| 0 <= i < q && ns[..q][i] == ns[q].uplink.tand;
      GoodAt(us, ns, i);
    }
  }

  /** bot_version() */
  method BotVersion(net: Botnet, idx: nat, numver: int, handlen: int)
    requires net.Valid() && idx < |net.dcc| && NameOk(net.dcc[idx].nick)
    modifies net, net.pool`next, net.pool`freed, net.line
    ensures net.Valid() && fresh(net.pool - old(net.pool))
    ensures net.Abs() == Version(old(net.Abs()), idx, numver, handlen)
  {
    var known := net.InChain(net.dcc[idx].nick);
    if known || numver < NEAT_BOTNET || handlen != HANDLEN {
      LostDcc(net, idx);
    } else {
      AddableAbs(net.Abs(), net.nodes, net.dcc[idx].nick, net.dcc[idx].nick, net.botnetnick);
      Linked(net, idx, numver);
    }
  }

  // The connection becomes a link.
  method Linked(net: Botnet, idx: nat, numver: int)
    requires net.Valid() && idx < |net.dcc|
    requires Addable(net.botnetnick, net.nodes, net.dcc[idx].nick, net.dcc[idx].nick, net.botnetnick)
    modifies net, net.pool`next
    ensures net.Valid() && fresh(net.pool - old(net.pool))
    ensures var nick := old(net.dcc)[idx].nick;
            net.Abs() == AddBot(old(net.Abs()).(dcc := old(net.dcc)[idx := Dcc(nick, Up)]), nick, nick, net.botnetnick, '-', numver)
  {
    var nick := net.dcc[idx].nick;
    net.dcc := net.dcc[idx := Dcc(nick, Up)];
    assert net.Abs() == old(net.Abs()).(dcc := net.dcc);
    net.AddBot(nick, nick, net.botnetnick, '-', numver);
  }

  method NameFits(name: string) returns (ok: bool)
    requires name != "" && ' ' !in name
    ensures ok == NameOk(name)
  {
    for p := 0 to |name|
      invariant p <= HANDLEN && forall i :: 0 <= i < p ==> ' ' < name[i] < '\U{7F}'
    {
      if name[p] < ' ' || name[p] >= '\U{7F}' || p >= HANDLEN {
        return false;
      }
    }
    return true;
  }

  /** bot_nlinked() */
  method BotNlinked(net: Botnet, idx: nat, par: string, leaf: bool)
    requires net.Valid() && idx < |net.dcc| && Known(net.Abs(), idx, ParseLink(par).next)
    modifies net, net.pool`next, net.pool`freed, net.line
    ensures net.Valid() && fresh(net.pool - old(net.pool))
    ensures net.Abs() == Nlinked(old(net.Abs()), idx, par, leaf)
  {
    var a := ParseAnnouncement(par);
    AnnounceBot(net, idx, a, leaf);
  }

  method AnnounceBot(net: Botnet, idx: nat, a: Announcement, leaf: bool)
    requires net.Valid() && idx < |net.dcc| && Known(net.Abs(), idx, a.next)
    requires ' ' !in a.newbot && (a.newbot == "" ==> a.next == "")
    modifies net, net.pool`next, net.pool`freed, net.line
    ensures net.Valid() && fresh(net.pool - old(net.pool))
    ensures net.Abs() == Announce(old(net.Abs()), idx, a, leaf)
  {
    AnnouncedAddable(net.Abs(), net.nodes, idx, a, leaf);
    var refused := IsRefused(net, idx, a, leaf);
    Answer(net, idx, a, refused);
  }

  method Answer(net: Botnet, idx: nat, a: Announcement, refused: bool)
    requires net.Valid() && idx < |net.dcc|
    requires !refused ==> Addable(net.botnetnick, net.nodes, a.newbot, net.dcc[idx].nick, a.next)
    modifies net, net.pool`next, net.pool`freed, net.line
    ensures net.Valid() && fresh(net.pool - old(net.pool))
    ensures net.Abs() == if refused then Lose(old(net.Abs()), idx)
                         else AddBot(old(net.Abs()), a.newbot, old(net.dcc)[idx].nick, a.next, a.share, a.ver)
  {
    if refused {
      LostDcc(net, idx);
    } else {
      net.AddBot(a.newbot, net.dcc[idx].nick, a.next, a.share, a.ver);
    }
  }

  lemma AnnouncedAddable(st: State, ns: seq<Tand>, idx: nat, a: Announcement, leaf: bool)
    requires Good(st.us, ns) && st.bots == Recs(ns) && idx < |st.dcc| && Known(st, idx, a.next)
    ensures !Refused(st, idx, a, leaf) ==> Addable(st.us, ns, a.newbot, st.dcc[idx].nick, a.next)
  {
    if !Refused(st, idx, a, leaf) {
      AddableAbs(st, ns, a.newbot, st.dcc[idx].nick, a.next);
    }
  }

  method ParseAnnouncement(par: string) returns (a: Announcement)
    ensures a == ParseLink(par) && ' ' !in a.newbot && (a.newbot == "" ==> a.next == "")
  {
    var w := Split(par);
    var x := Split(w.rest);
    var share := if x.rest == "" then '-' else x.rest[0];
    var ver := 0;
    if x.rest != "" {
      ver := Base64ToInt(x.rest[1..]);
    }
    a := Announcement(w.first, x.first, if share == '!' then '-' else share, ver);
  }

  method IsRefused(net: Botnet, idx: nat, a: Announcement, leaf: bool) returns (bad: bool)
    requires net.Valid() && idx < |net.dcc| && ' ' !in a.newbot && (a.newbot == "" ==> a.next == "")
    ensures bad == Refused(net.Abs(), idx, a, leaf)
  {
    if a.next == "" || leaf {
      return true;
    }
    bad := net.InChain(a.newbot);
    if !bad {
      var fits := NameFits(a.newbot);
      var i := net.NextBot(a.next);
      bad := !fits || i != idx;
    }
  }

  // A bot reached over the connection is reached through the bot that the connection is named for.
  ghost predicate Known(st: State, idx: nat, next: string)
    requires idx < |st.dcc|
  {
    NextBot(st, next) == idx ==>
      && !SameName(next, st.us) && Find(st.bots, next).Some? && Find(st.bots, st.dcc[idx].nick).Some?
      && Find(st.bots, st.dcc[idx].nick).value.name == Find(st.bots, next).value.via
  }

  /** bot_unlinked() */
  method BotUnlinked(net: Botnet, idx: nat, par: string)
    requires net.Valid()
    modifies net`tandbot, net`tands, net`nodes, net.pool`next, net.pool`freed, net.line
    ensures net.Valid() && net.Abs() == Unlinked(old(net.Abs()), idx, par)
  {
    var w := Split(par);
    UnlinkBot(net, idx, w.first);
  }

  method UnlinkBot(net: Botnet, idx: nat, bot: string)
    requires net.Valid()
    modifies net`tandbot, net`tands, net`nodes, net.pool`next, net.pool`freed, net.line
    ensures net.Valid() && net.Abs() == UnlinkedAs(old(net.Abs()), idx, bot)
  {
    var i := net.NextBot(bot);
    if i == idx {
      net.CutOff(bot);
    }
  }

  /** bot_update() */
  method BotUpdate(net: Botnet, par: string)
    requires net.Valid()
    modifies net.nodes`share, net.nodes`ver
    ensures net.Valid() && net.Abs() == Update(old(net.Abs()), par)
  {
    var c := ParseChange(par);
    var known := net.InChain(c.bot);
    if known {
      net.UpdateBot(c.bot, c.share, c.ver);
    }
  }

  method ParseChange(par: string) returns (c: Change)
    ensures c == ParseUpdate(par)
  {
    var w := Split(par);
    c := Change(w.first, None, 0);
    if w.rest != "" {
      var vnum := Base64ToInt(w.rest[1..]);
      c := Change(w.first, Some(w.rest[0]), vnum);
    }
  }

  /** bot_thisbot() */
  method BotThisBot(net: Botnet, idx: nat, par: string)
    requires net.Valid() && idx < |net.dcc|
    modifies net`tandbot, net`tands, net`nodes, net`dcc, net.pool`next, net.pool`freed, net.line
    ensures net.Valid() && net.Abs() == ThisBot(old(net.Abs()), idx, par)
  {
    if SameName(par, net.dcc[idx].nick) {
      net.dcc := net.dcc[idx := net.dcc[idx].(nick := par)];
    } else {
      UnviaNamed(net, net.dcc[idx].nick);
      LostDcc(net, idx);
    }
  }

  // unvia() of the bot of that name.
  method UnviaNamed(net: Botnet, nick: string)
    requires net.Valid()
    modifies net`tandbot, net`tands, net`nodes, net.pool`next, net.pool`freed, net.line
    ensures net.Valid()
    ensures var b := Find(old(net.Abs()).bots, nick);
            net.Abs() == if b.None? then old(net.Abs()) else Unvia(old(net.Abs()), b.value.name)
  {
    UnviaAbs(net.Abs(), net.nodes, nick);
    UnviaNodes(net, nick);
  }

  method UnviaNodes(net: Botnet, nick: string)
    requires net.Valid()
    modifies net`tandbot, net`tands, net`nodes, net.pool`next, net.pool`freed, net.line
    ensures net.Valid() && net.nodes == Keep(old(net.nodes), BelowNames(old(net.nodes), nick))
    ensures Table(net.line.party) == PartyWithout(old(Table(net.line.party)), CutNames(old(net.nodes), nick))
  {
    PartyWithoutNone(Table(net.line.party));
    KeepAll(net.nodes);
    var bot, k := net.FindBot(nick);
    net.Unvia(bot, k);
  }

  ghost function BelowNames(ns: seq<Tand>, who: string): set<string> {
    match PlaceOf(ns, who)
    case None => {}
    case Some(k) => Below(Shape(ns), ns[k].bot)
  }

  lemma UnviaAbs(st: State, ns: seq<Tand>, nick: string)
    requires st.bots == Recs(ns)
    ensures st.(bots := Recs(Keep(ns, BelowNames(ns, nick))), party := PartyWithout(st.party, CutNames(ns, nick))) ==
            match Find(st.bots, nick)
            case None => st
            case Some(b) => Unvia(st, b.name)
  {
    FindPlace(ns, nick);
    match PlaceOf(ns, nick)
    case None =>
      KeepAll(ns);
      PartyWithoutNone(st.party);
    case Some(k) =>
      BelowRecs(ns, ns[k].bot);
      KeepRecs(ns, Below(Shape(ns), ns[k].bot));
  }

  /** bot_join(); grabbed is the socket number made up for a join without one. */
  method BotJoin(net: Botnet, idx: nat, par: string, isolated: bool, grabbed: int)
    requires net.Valid()
    modifies net.line
    ensures net.Valid() && net.Abs() == Join(old(net.Abs()), idx, par, isolated, grabbed)
  {
    var j := None;
    if !isolated {
      j := ParseJoining(par);
    }
    JoinParty(net, idx, j, grabbed);
  }

  method JoinParty(net: Botnet, idx: nat, j: Option<Joining>, grabbed: int)
    requires net.Valid()
    modifies net.line
    ensures net.Valid() && net.Abs() == JoinAs(old(net.Abs()), idx, j, grabbed)
  {
    if j.None? {
      return;
    }
    var i := net.NextBot(j.value.bot);
    if i == idx {
      AddMember(net, j.value, grabbed);
    }
  }

  method AddMember(net: Botnet, j: Joining, grabbed: int)
    requires net.Valid() && NextBot(net.Abs(), j.bot) >= 0
    modifies net.line
    ensures net.Valid()
    ensures net.Abs() == old(net.Abs()).(party := Joined(old(net.Abs()).party, j, grabbed))
  {
    NameShort(net.botnetnick, net.nodes, j.bot);
    var oldchan, at := net.line.Add(j.bot, j.nick, j.chan, j.flag, if j.sock == 0 then grabbed else j.sock, j.from);
  }

  method ParseJoining(par: string) returns (j: Option<Joining>)
    ensures j == ParseJoin(par)
  {
    var w1 := Split(par);
    var w2 := Split(w1.rest);
    var w3 := Split(w2.rest);
    var chan := Base64ToInt(w3.first);
    var w4 := Split(w3.rest);
    if chan < 0 || w4.first == "" {
      return None;
    }
    var sock := Base64ToInt(w4.first[1..]);
    j := Some(Joining(Unbang(w1.first), w2.first, chan, w4.first[0], sock, w4.rest));
  }

  // A name of a listed bot is no longer than a handle.
  lemma NameShort(us: string, ns: seq<Tand>, who: string)
    requires Good(us, ns) && Listed(Recs(ns), who)
    ensures |who| <= HANDLEN
  {
    FindPlace(ns, who);
    var k := PlaceOf(ns, who).value;
    GoodAt(us, ns, k);
    SameLetters(ns[k].bot, who);
  }

  /** bot_part() */
  method BotPart(net: Botnet, par: string, isolated: bool, grabbed: int)
    requires net.Valid()
    modifies net.line
    ensures net.Valid() && net.Abs() == Part(old(net.Abs()), par, isolated, grabbed)
  {
    if isolated {
      return;
    }
    var bot, sock := ParseParting(par);
    LeaveParty(net, bot, if sock == 0 then grabbed else sock);
  }

  method LeaveParty(net: Botnet, bot: string, sock: int)
    requires net.Valid()
    modifies net.line
    ensures net.Valid() && net.Abs() == Leave(old(net.Abs()), bot, sock)
  {
    ghost var at := net.line.Rem(bot, sock);
  }

  method ParseParting(par: string) returns (bot: string, sock: int)
    ensures (bot, sock) == ParsePart(par)
  {
    var w1 := Split(par);
    var w2 := Split(w1.rest);
    var w3 := Split(w2.rest);
    bot := Unbang(w1.first);
    sock := Base64ToInt(w3.first);
  }
}
