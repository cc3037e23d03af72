/** botnet.c: the bot list as linked nodes, the party line and the connections, changed in place. */
module BotList {
  import opened Options
  import opened BotTree
  import opened BotState
  import opened BotRuns
  import opened PartyLine
  import opened BotNodes

  class Botnet {
    const botnetnick: string
    var tandbot: Tand?
    var tands: int
    const line: Party
    var dcc: seq<Dcc>
    ghost var nodes: seq<Tand>
    ghost var pool: set<Tand>

    // pool holds every node that was ever on the list.
    // The list is in order: it runs through the nodes, each once, and none of them is freed.
    ghost predicate ListOk()
      reads this, pool`next, pool`freed
    {
      && tands == |nodes|
      && Distinct(nodes)
      && (forall i :: 0 <= i < |nodes| ==> nodes[i] in pool)
      && tandbot == At(nodes, 0)
      && (forall i {:trigger nodes[i].next} :: 0 <= i < |nodes| ==> nodes[i].next == At(nodes, i + 1))
      && (forall i :: 0 <= i < |nodes| ==> !nodes[i].freed)
    }

    // The lists are in order, and the bots are a tree.
    ghost predicate Valid()
      reads this, line, pool`next, pool`freed
    {
      ListOk() && Keyed(line.party) && Good(botnetnick, nodes)
    }

    // The state of the protocol that the lists stand for.
    ghost function Abs(): State
      reads this, line, nodes`share, nodes`ver
    {
      State(botnetnick, Recs(nodes), Table(line.party), dcc)
    }

    constructor (nick: string)
      ensures Valid() && Abs() == State(nick, [], map[], []) && botnetnick == nick
      ensures fresh(line) && nodes == [] && pool == {}
    {
      botnetnick, tandbot, tands, dcc, nodes, pool := nick, null, 0, [], [], {};
      line := new Party();
    }

    /** findbot(): k is the place of the bot, if it is listed. */
    method FindBot(who: string) returns (t: Tand?, ghost k: nat)
      requires ListOk()
      ensures t == null ==> PlaceOf(nodes, who) == None
      ensures t != null ==> k < |nodes| && nodes[k] == t && PlaceOf(nodes, who) == Some(k)
    {
      t := tandbot;
      k := 0;
      while t != null
        invariant 0 <= k <= |nodes| && t == At(nodes, k)
        invariant forall j :: 0 <= j < k ==> !SameName(nodes[j].bot, who)
        decreases |nodes| - k
      {
        assert !t.freed;
        if SameName(t.bot, who) {
          PlaceIs(nodes, who, k);
          return;
        }
        t := t.next;
        k := k + 1;
      }
      PlaceIs(nodes, who, k);
    }

    /** rembot(): at is the place the bot had, if it was listed. */
    method RemBot(who: string) returns (ghost at: Option<nat>)
      requires ListOk()
      modifies this`tandbot, this`tands, this`nodes, pool`next, pool`freed
      ensures ListOk()
      ensures at == PlaceOf(old(nodes), who)
      ensures at == None ==> nodes == old(nodes)
      ensures at.Some? ==> at.value < |old(nodes)| && nodes == But(old(nodes), at.value) && old(nodes)[at.value].freed
    {
      var prev: Tand?, cur := null, tandbot;
      ghost var i := 0;
      while cur != null && !SameName(cur.bot, who)
        invariant 0 <= i <= |nodes| && cur == At(nodes, i)
        invariant prev == if i == 0 then null else nodes[i - 1]
        invariant forall j :: 0 <= j < i ==> !SameName(nodes[j].bot, who)
        decreases |nodes| - i
      {
        assert !cur.freed;
        prev := cur;
        cur := cur.next;
        i := i + 1;
      }
      PlaceIs(nodes, who, i);
      if cur == null {
        return None;
      }
      assert !cur.freed && (prev != null ==> !prev.freed);
      Unlink(prev, cur, i);
      return Some(i);
    }

    /** unvia(): walks the list with a cursor while the calls it makes take nodes out of it. The
        cursor never stands on a node given back, and in the end exactly the bots behind who are gone,
        with the members on them and on who. k is the place of who. */
    method Unvia(who: Tand?, ghost k: nat)
      requires Valid() && (who != null ==> k < |nodes| && nodes[k] == who)
      modifies this`tandbot, this`tands, this`nodes, pool`next, pool`freed, line
      ensures Valid()
      ensures who == null ==> nodes == old(nodes) && Table(line.party) == old(Table(line.party))
      ensures who != null ==>
                var below := Below(Shape(old(nodes)), who.bot);
                && nodes == Keep(old(nodes), below) && SameUpTo(old(nodes), nodes, k + 1)
                && Table(line.party) == PartyWithout(old(Table(line.party)), below + {who.bot})
      decreases if who == null then 0 else |nodes| - k, 1
    {
      if who == null {
        return;
      }
      line.RemBot(who.bot);
      Walk(who, k);
      PartyWithoutTwice(old(Table(line.party)), {who.bot}, Below(Shape(old(nodes)), who.bot));
      assert {who.bot} + Below(Shape(old(nodes)), who.bot) == Below(Shape(old(nodes)), who.bot) + {who.bot};
    }

    // The loop of unvia().
    method Walk(who: Tand, ghost k: nat)
      requires Valid() && k < |nodes| && nodes[k] == who
      modifies this`tandbot, this`tands, this`nodes, pool`next, pool`freed, line
      ensures Valid()
      ensures var below := Below(Shape(old(nodes)), who.bot);
              && nodes == Keep(old(nodes), below) && SameUpTo(old(nodes), nodes, k + 1)
              && Table(line.party) == PartyWithout(old(Table(line.party)), below)
      decreases |nodes| - k, 0
    {
      ghost var ns, table := nodes, Table(line.party);
      ghost var gone: set<string>, q: nat := {}, 0;
      SweepStarts(botnetnick, ns, k);
      PartyWithoutNone(table);
      var bot := tandbot;
      while bot != null
        invariant Valid() && Swept(ns, k, gone, nodes) && NoChild(nodes, who, q)
        invariant bot == At(nodes, q)
        invariant Table(line.party) == PartyWithout(table, gone)
        decreases |nodes| - q
      {
        Later(botnetnick, ns, k, gone, nodes, q);
        bot, gone, q := Visit(bot, who, ns, k, gone, q, table);
      }
      SweepEnds(botnetnick, ns, k, gone, nodes);
    }

    // One round of the loop of unvia(). The cursor stands on a node that is still on the list.
    method Visit(bot: Tand, who: Tand, ghost ns: seq<Tand>, ghost k: nat, ghost gone: set<string>, ghost q: nat,
                 ghost table: map<Key, Member>)
      returns (bot2: Tand?, ghost gone2: set<string>, ghost q2: nat)
      requires Valid() && k < |ns| && ns[k] == who && Good(botnetnick, ns) && Swept(ns, k, gone, nodes)
      requires q < |nodes| && nodes[q] == bot && NoChild(nodes, who, q)
      requires Table(line.party) == PartyWithout(table, gone)
      modifies this`tandbot, this`tands, this`nodes, pool`next, pool`freed, line
      ensures Valid() && Swept(ns, k, gone2, nodes) && NoChild(nodes, who, q2) && bot2 == At(nodes, q2)
      ensures Table(line.party) == PartyWithout(table, gone2)
      ensures |nodes| - q2 < |old(nodes)| - q
      decreases if bot.uplink == To(who) then |nodes| - q else 0, 4
    {
      assert !bot.freed;
      if bot.uplink == To(who) {
        bot2, gone2 := Round(bot, ns, k, gone, q, table);
        q2 := q;
      } else {
        NoChildMore(nodes, who, q);
        bot2, gone2, q2 := bot.next, gone, q + 1;
      }
    }

    // A bot linked to ns[k] goes.
    method Round(bot: Tand, ghost ns: seq<Tand>, ghost k: nat, ghost gone: set<string>, ghost q: nat,
                 ghost table: map<Key, Member>)
      returns (bot2: Tand?, ghost gone2: set<string>)
      requires Valid() && k < |ns| && Good(botnetnick, ns) && Swept(ns, k, gone, nodes)
      requires q < |nodes| && nodes[q] == bot && bot.uplink == To(ns[k]) && NoChild(nodes, ns[k], q)
      requires Table(line.party) == PartyWithout(table, gone)
      modifies this`tandbot, this`tands, this`nodes, pool`next, pool`freed, line
      ensures Valid() && Swept(ns, k, gone2, nodes) && NoChild(nodes, ns[k], q) && bot2 == At(nodes, q)
      ensures |nodes| < |old(nodes)|
      ensures Table(line.party) == PartyWithout(table, gone2)
      decreases |nodes| - q, 3
    {
      ghost var before := nodes;
      ghost var more := Below(Shape(nodes), bot.bot) + {bot.bot};
      SweepMore(botnetnick, ns, k, gone, nodes, q);
      PartyWithoutTwice(table, gone, more);
      bot2 := CutChild(bot, q);
      gone2 := gone + more;
      NoChildKept(before, nodes, ns[k], q);
    }

    // unvia() and rembot() for the bot under the cursor, which moves on to the next one in between.
    method CutChild(bot: Tand, ghost at: nat) returns (bot2: Tand?)
      requires Valid() && at < |nodes| && nodes[at] == bot
      modifies this`tandbot, this`tands, this`nodes, pool`next, pool`freed, line
      ensures Valid()
      ensures var gone := Below(Shape(old(nodes)), bot.bot) + {bot.bot};
              && nodes == Keep(old(nodes), gone)
              && Table(line.party) == PartyWithout(old(Table(line.party)), gone)
      ensures |nodes| < |old(nodes)| && SameUpTo(old(nodes), nodes, at) && bot2 == At(nodes, at)
      decreases |nodes| - at, 2
    {
      ghost var ns := nodes;
      Unvia(bot, at);
      assert nodes[at] == bot && !bot.freed;
      bot2 := bot.next;
      CutOne(botnetnick, ns, nodes, at);
      ghost var place := RemBot(bot.bot);
    }

    // Takes a node out of the chain and gives it back.
    method Unlink(prev: Tand?, cur: Tand, ghost i: nat)
      requires ListOk() && i < |nodes| && cur == nodes[i] && prev == if i == 0 then null else nodes[i - 1]
      modifies this`tandbot, this`tands, this`nodes, pool`next, pool`freed
      ensures ListOk()
      ensures nodes == But(old(nodes), i) && cur.freed
    {
      if prev == null {
        tandbot := cur.next;
      } else {
        prev.next := cur.next;
      }
      cur.freed := true;
      tands := tands - 1;
      DropAt(nodes, i);
      ButAt(nodes, i);
      nodes := But(nodes, i);
    }

    /** unvia() of the bot of a name, followed by rembot(): what bot_unlinked() and the loss of a link do. */
    method CutOff(who: string)
      requires Valid()
      modifies this`tandbot, this`tands, this`nodes, pool`next, pool`freed, line
      ensures Valid() && Abs() == BotState.CutOff(old(Abs()), who)
    {
      CutOffAbs(Abs(), nodes, who);
      CutOffNodes(who);
    }

    method CutOffNodes(who: string)
      requires Valid()
      modifies this`tandbot, this`tands, this`nodes, pool`next, pool`freed, line
      ensures Valid() && nodes == CutNodes(old(nodes), who)
      ensures Table(line.party) == PartyWithout(old(Table(line.party)), CutNames(old(nodes), who))
    {
      ghost var ns := nodes;
      var b, k := FindBot(who);
      Unvia(b, k);
      if b == null {
        CutNobody(ns, who, Table(line.party));
        ghost var at := RemBot(who);
      } else {
        RemSwept(who, ns, k);
      }
    }

    // rembot() once unvia() is done.
    method RemSwept(who: string, ghost ns: seq<Tand>, ghost k: nat)
      requires Valid() && Good(botnetnick, ns) && PlaceOf(ns, who) == Some(k) && k < |ns|
      requires nodes == Keep(ns, Below(Shape(ns), ns[k].bot)) && SameUpTo(ns, nodes, k + 1)
      modifies this`tandbot, this`tands, this`nodes, pool`next, pool`freed
      ensures Valid() && nodes == CutNodes(ns, who)
    {
      CutFound(botnetnick, ns, nodes, k, who);
      ghost var at := RemBot(who);
    }

    /** nextbot() */
    method NextBot(who: string) returns (j: int)
      requires Valid()
      ensures j == BotState.NextBot(Abs(), who)
    {
      var bot, k := FindBot(who);
      FindPlace(nodes, who);
      if bot == null {
        return -1;
      }
      assert bot.via != null && !bot.freed && !bot.via.freed by {
        GoodVia(botnetnick, nodes, k);
      }
      j := LinkOver(bot.via);
    }

    // The loop of nextbot().
    method LinkOver(via: Tand?) returns (j: int)
      requires via != null ==> !via.freed
      ensures via != null ==> j == LinkFrom(dcc, via.bot, 0)
      ensures via == null ==> j == -1
    {
      j := 0;
      while j < |dcc|
        invariant 0 <= j <= |dcc|
        invariant via != null ==> LinkFrom(dcc, via.bot, 0) == LinkFrom(dcc, via.bot, j)
      {
        if via != null && SameName(via.bot, dcc[j].nick) && dcc[j].kind == Up {
          return;
        }
        j := j + 1;
      }
      return -1;
    }

    /** addbot(), as its callers use it: for a bot not on the net, linked to us and coming from
        itself, or linked to a listed bot and coming from that bot's via. */
    method AddBot(who: string, from: string, next: string, flag: char, vernum: int)
      requires Valid() && Addable(botnetnick, nodes, who, from, next)
      modifies this`tandbot, this`tands, this`nodes, this`pool, pool`next
      ensures Valid() && Abs() == BotState.AddBot(old(Abs()), who, from, next, flag, vernum)
      ensures fresh(pool - old(pool))
    {
      ghost var ns, st := nodes, Abs();
      var t := AddNode(who, from, next, flag, vernum);
      AddedAbs(st, ns, t, from, next);
    }

    method AddNode(who: string, from: string, next: string, flag: char, vernum: int) returns (t: Tand)
      requires Valid() && Addable(botnetnick, nodes, who, from, next)
      modifies this`tandbot, this`tands, this`nodes, this`pool, pool`next
      ensures fresh(t) && pool == old(pool) + {t}
      ensures Valid() && nodes == old(nodes) + [t]
      ensures t.share == flag && t.ver == vernum && Added(botnetnick, old(nodes), t, who, next)
    {
      var last: Tand?, p := null, tandbot;
      ghost var i := 0;
      while p != null
        invariant 0 <= i <= |nodes| && p == At(nodes, i) && last == if i == 0 then null else nodes[i - 1]
        decreases |nodes| - i
      {
        assert !p.freed;
        last := p;
        p := p.next;
        i := i + 1;
      }
      t := NewNode(who, from, next, flag, vernum);
      HangsMore(botnetnick, nodes, t);
      Append(t, last);
    }

    // The node of a new bot; from may name the bot itself, which is then its own via.
    method NewNode(who: string, from: string, next: string, flag: char, vernum: int) returns (t: Tand)
      requires ListOk() && Good(botnetnick, nodes) && Addable(botnetnick, nodes, who, from, next)
      ensures fresh(t) && t.next == null && !t.freed
      ensures t.share == flag && t.ver == vernum && Added(botnetnick, nodes, t, who, next)
      ensures Hangs(botnetnick, nodes, t)
    {
      var via, kv := FindBot(from);
      var up := Us;
      if !SameName(next, botnetnick) {
        var n, kn := FindBot(next);
        up := To(n);
      } else {
        PlaceSame(nodes, from, who);
      }
      t := new Tand(who, flag, vernum, up, via);
    }

    /** in_chain() */
    method InChain(who: string) returns (b: bool)
      requires Valid()
      ensures b == BotState.InChain(Abs(), who)
    {
      var t, k := FindBot(who);
      FindPlace(nodes, who);
      return t != null || SameName(who, botnetnick);
    }

    /** updatebot() */
    method UpdateBot(who: string, share: Option<char>, vernum: int)
      requires Valid()
      modifies nodes`share, nodes`ver
      ensures Valid()
      ensures Abs() == old(Abs()).(bots := BotState.UpdateBot(old(Abs()).bots, who, share, vernum))
    {
      ghost var ns, bs := nodes, Recs(nodes);
      RecsAll(ns);
      UpdatedBots(ns, who, share, vernum);
      UpdateNode(who, share, vernum);
      RecsAre(ns, BotState.UpdateBot(bs, who, share, vernum));
    }

    method UpdateNode(who: string, share: Option<char>, vernum: int)
      requires ListOk()
      modifies nodes`share, nodes`ver
      ensures ListOk()
      ensures forall j {:trigger nodes[j]} :: 0 <= j < |nodes| ==>
                Rec(nodes[j]) == if PlaceOf(nodes, who) == Some(j) then Updated(old(Rec(nodes[j])), share, vernum) else old(Rec(nodes[j]))
    {
      var t, k := FindBot(who);
      if t != null {
        assert !t.freed;
        if share.Some? {
          t.share := share.value;
        }
        if vernum != 0 {
          t.ver := vernum;
        }
      }
    }

    // Hangs a new node behind the last one.
    method Append(t: Tand, last: Tand?)
      requires ListOk() && t !in pool && !t.freed && t.next == null
      requires last == if nodes == [] then null else Back(nodes)
      modifies this`tandbot, this`tands, this`nodes, this`pool, pool`next
      ensures ListOk() && nodes == old(nodes) + [t] && pool == old(pool) + {t}
    {
      if last == null {
        tandbot := t;
      } else {
        last.next := t;
      }
      ghost var was := nodes;
      nodes := nodes + [t];
      pool := pool + {t};
      tands := tands + 1;
      assert forall i :: 0 <= i < |was| ==> nodes[i] == was[i];
    }
  }

  lemma PlaceSame(ns: seq<Tand>, a: string, b: string)
    requires SameName(a, b)
    ensures PlaceOf(ns, a) == PlaceOf(ns, b)
  {
    var p := PlaceOf(ns, a);
    PlaceIs(ns, b, if p.Some? then p.value else |ns|);
  }

  lemma FindPlace(ns: seq<Tand>, who: string)
    ensures var place := PlaceOf(ns, who);
            Find(Recs(ns), who) == if place.None? then None else Some(Rec(ns[place.value]))
  {
    match PlaceOf(ns, who)
    case None => NoneFound(ns, who);
    case Some(k) => FirstFound(ns, who, k);
  }

  // The names that go with a bot of a name, and the nodes that stay.
  ghost function CutNames(ns: seq<Tand>, who: string): set<string> {
    match PlaceOf(ns, who)
    case None => {}
    case Some(k) => Below(Shape(ns), ns[k].bot) + {ns[k].bot}
  }

  ghost function CutNodes(ns: seq<Tand>, who: string): seq<Tand> {
    Keep(ns, CutNames(ns, who))
  }

  lemma CutNobody(ns: seq<Tand>, who: string, m: map<Key, Member>)
    requires PlaceOf(ns, who) == None
    ensures CutNodes(ns, who) == ns && PartyWithout(m, CutNames(ns, who)) == m
  {
    KeepAll(ns);
    PartyWithoutNone(m);
  }

  // What unvia() leaves for rembot() to drop.
  lemma CutFound(us: string, ns: seq<Tand>, left: seq<Tand>, k: nat, who: string)
    requires Good(us, ns) && PlaceOf(ns, who) == Some(k) && k < |ns| && left == Keep(ns, Below(Shape(ns), ns[k].bot))
    requires Good(us, left) && SameUpTo(ns, left, k + 1)
    ensures PlaceOf(left, who) == Some(k) && k < |left|
    ensures But(left, k) == CutNodes(ns, who) && Good(us, CutNodes(ns, who))
    ensures CutNames(ns, who) == Below(Shape(ns), ns[k].bot) + {ns[k].bot}
  {
    CutOne(us, ns, left, k);
    PlaceSame(left, who, ns[k].bot);
  }

  lemma CutOffAbs(st: State, ns: seq<Tand>, who: string)
    requires Good(st.us, ns) && st.bots == Recs(ns)
    ensures BotState.CutOff(st, who) ==
            st.(bots := Recs(CutNodes(ns, who)), party := PartyWithout(st.party, CutNames(ns, who)))
  {
    FindPlace(ns, who);
    match PlaceOf(ns, who)
    case None =>
      CutNobody(ns, who, st.party);
    case Some(k) =>
      RecsTree(st.us, ns);
      CutOffIs(st, who);
      BelowRecs(ns, ns[k].bot);
      KeepRecs(ns, CutNames(ns, who));
  }

  // The via of a bot, given by name, is the node of that name.
  lemma ViaIsNode(us: string, ns: seq<Tand>, kn: nat, kv: nat)
    requires Good(us, ns) && kn < |ns| && kv < |ns| && ns[kn].via != null && ns[kn].via.bot == ns[kv].bot
    ensures ns[kn].via == ns[kv]
  {
    GoodVia(us, ns, kn);
    GoodNames(us, ns);
    var i :| 0 <= i < |ns| && ns[i] == ns[kn].via;
    assert SameName(ns[i].bot, ns[kv].bot);
  }

  // A bot of that name can be hung into the list, behind the bot named next and reached through
  // the one named from.
  ghost predicate Addable(us: string, ns: seq<Tand>, who: string, from: string, next: string) {
    && NameOk(who) && !SameName(who, us) && PlaceOf(ns, who) == None
    && if SameName(next, us) then SameName(from, who)
       else PlaceOf(ns, next).Some? && PlaceOf(ns, from).Some? &&
            ns[PlaceOf(ns, next).value].via == ns[PlaceOf(ns, from).value]
  }

  ghost predicate Added(us: string, ns: seq<Tand>, t: Tand, who: string, next: string) {
    && t.bot == who
    && if SameName(next, us) then t.uplink == Us && t.via == t
       else PlaceOf(ns, next).Some? && t.uplink == To(ns[PlaceOf(ns, next).value]) &&
            t.via == ns[PlaceOf(ns, next).value].via
  }

  lemma AddableAbs(st: State, ns: seq<Tand>, who: string, from: string, next: string)
    requires Good(st.us, ns) && st.bots == Recs(ns) && NameOk(who) && !InChain(st, who)
    requires if SameName(next, st.us) then SameName(from, who)
             else Find(st.bots, next).Some? && Find(st.bots, from).Some? &&
                  Find(st.bots, from).value.name == Find(st.bots, next).value.via
    ensures Addable(st.us, ns, who, from, next)
  {
    FindPlace(ns, who);
    if !SameName(next, st.us) {
      FindPlace(ns, next);
      FindPlace(ns, from);
      GoodVia(st.us, ns, PlaceOf(ns, next).value);
      ViaIsNode(st.us, ns, PlaceOf(ns, next).value, PlaceOf(ns, from).value);
    }
  }

  lemma AddedAbs(st: State, ns: seq<Tand>, t: Tand, from: string, next: string)
    requires Good(st.us, ns) && st.bots == Recs(ns) && Addable(st.us, ns, t.bot, from, next) && Added(st.us, ns, t, t.bot, next)
    ensures BotState.AddBot(st, t.bot, from, next, t.share, t.ver) == st.(bots := Recs(ns + [t]))
  {
    RecsMore(ns, t);
    FindPlace(ns, next);
    FindPlace(ns, from);
    if SameName(next, st.us) {
      PlaceSame(ns, from, t.bot);
    }
  }

  lemma {:induction false} NoneUpdated(bs: seq<Bot>, who: string, share: Option<char>, ver: int)
    requires !Listed(bs, who)
    ensures BotState.UpdateBot(bs, who, share, ver) == bs
  {
    if bs != [] {
      NoneUpdated(bs[1..], who, share, ver);
    }
  }

  lemma UpdatedBots(ns: seq<Tand>, who: string, share: Option<char>, ver: int)
    ensures var bs, bs' := Recs(ns), BotState.UpdateBot(Recs(ns), who, share, ver);
            && |bs'| == |ns|
            && forall j :: 0 <= j < |ns| ==> bs'[j] == if PlaceOf(ns, who) == Some(j) then Updated(bs[j], share, ver) else bs[j]
  {
    match PlaceOf(ns, who)
    case None =>
      NoneFound(ns, who);
      NoneUpdated(Recs(ns), who, share, ver);
    case Some(k) =>
      forall j | 0 <= j <= k ensures Recs(ns)[j].name == ns[j].bot {
        RecsAt(ns, j);
      }
      FirstUpdated(Recs(ns), k, who, share, ver);
  }

  lemma {:induction false} FirstUpdated(bs: seq<Bot>, k: nat, who: string, share: Option<char>, ver: int)
    requires k < |bs| && SameName(bs[k].name, who) && forall j :: 0 <= j < k ==> !SameName(bs[j].name, who)
    ensures BotState.UpdateBot(bs, who, share, ver) ==
            bs[k := Updated(bs[k], share, ver)]
  {
    if k > 0 {
      FirstUpdated(bs[1..], k - 1, who, share, ver);
    }
  }

  lemma RecsAll(ns: seq<Tand>)
    ensures forall j :: 0 <= j < |ns| ==> Recs(ns)[j] == Rec(ns[j])
  {
    forall j | 0 <= j < |ns| ensures Recs(ns)[j] == Rec(ns[j]) {
      RecsAt(ns, j);
    }
  }

  lemma RecsAre(ns: seq<Tand>, bs: seq<Bot>)
    requires |bs| == |ns| && forall j :: 0 <= j < |ns| ==> bs[j] == Rec(ns[j])
    ensures Recs(ns) == bs
  {
    RecsAll(ns);
  }

  lemma HangsMore(us: string, ns: seq<Tand>, t: Tand)
    requires Good(us, ns) && Hangs(us, ns, t)
    ensures Good(us, ns + [t])
  {
    assert Front(ns + [t]) == ns && Back(ns + [t]) == t;
  }

  lemma RecsMore(ns: seq<Tand>, t: Tand)
    ensures Recs(ns + [t]) == Recs(ns) + [Rec(t)]
  {
    assert Front(ns + [t]) == ns && Back(ns + [t]) == t;
  }

  lemma PartyWithoutNone(m: map<Key, Member>)
    ensures PartyWithout(m, {}) == m
  {
  }

  lemma PartyWithoutTwice(m: map<Key, Member>, a: set<string>, b: set<string>)
    ensures PartyWithout(PartyWithout(m, a), b) == PartyWithout(m, a + b)
  {
    assert Handles(a + b) == Handles(a) + Handles(b);
  }
}
