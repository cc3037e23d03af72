/** botnet.c, dccutil.c, dcc.c: the loss of a link, and what it takes along. */
module BotLoss {
  import opened Options
  import opened Chars
  import opened BotTree
  import opened BotState
  import opened BotCounts
  import opened PartyLine
  import opened BotNodes
  import opened BotList

  /** bots_in_subtree(); k is the place of the bot. */
  method BotsInSubtree(net: Botnet, bot: Tand?, ghost k: nat) returns (nr: nat)
    requires net.Valid() && (bot != null ==> k < |net.nodes| && net.nodes[k] == bot)
    ensures var bs := Shape(net.nodes);
            nr == if bot == null then 0 else Bots(bs, Branch(bs, bot.bot), |bs|)
    decreases if bot == null then 0 else |net.nodes| - k
  {
    if bot == null {
      return 0;
    }
    ghost var ns, bs := net.nodes, Shape(net.nodes);
    nr := 1;
    var b := net.tandbot;
    ghost var q := 0;
    while b != null
      invariant 0 <= q <= |ns| && b == At(ns, q)
      invariant nr == 1 + BotsBehind(bs, bot.bot, q)
      decreases |ns| - q
    {
      assert !b.freed && !bot.freed;
      LinkedTo(net.botnetnick, ns, k, q);
      if b.bot != "" && b.uplink == To(bot) {
        var more := BotsInSubtree(net, b, q);
        nr := nr + more;
      }
      b := b.next;
      q := q + 1;
    }
    GoodShape(net.botnetnick, ns);
    ShapeAt(ns, k);
    WholeCounts(net.botnetnick, bs, [], k);
  }

  method UsersOn(ps: seq<Member>, bot: string) returns (nr: nat)
    ensures nr == Users(ps, {HandleOf(bot)}, |ps|)
  {
    nr := 0;
    for i := 0 to |ps|
      invariant nr == Users(ps, {HandleOf(bot)}, i)
    {
      if SameName(ps[i].bot, bot) {
        nr := nr + 1;
      }
    }
  }

  /** users_in_subtree() */
  method UsersInSubtree(net: Botnet, bot: Tand?, ghost k: nat) returns (nr: nat)
    requires net.Valid() && (bot != null ==> k < |net.nodes| && net.nodes[k] == bot)
    ensures var ps := net.line.party;
            nr == if bot == null then 0 else Users(ps, Handles(Branch(Shape(net.nodes), bot.bot)), |ps|)
    decreases if bot == null then 0 else |net.nodes| - k
  {
    nr := 0;
    if bot == null {
      return;
    }
    ghost var ns, bs := net.nodes, Shape(net.nodes);
    var ps := net.line.party;
    var here := UsersOn(ps, bot.bot);
    nr := here;
    var b := net.tandbot;
    ghost var q := 0;
    while b != null
      invariant 0 <= q <= |ns| && b == At(ns, q)
      invariant nr == here + UsersBehind(bs, ps, bot.bot, q)
      decreases |ns| - q
    {
      assert !b.freed && !bot.freed;
      LinkedTo(net.botnetnick, ns, k, q);
      if b.bot != "" && b.uplink == To(bot) {
        var more := UsersInSubtree(net, b, q);
        nr := nr + more;
      }
      b := b.next;
      q := q + 1;
    }
    GoodShape(net.botnetnick, ns);
    ShapeAt(ns, k);
    WholeCounts(net.botnetnick, bs, ps, k);
  }

  // In terms of names: a node is linked to another one, which is then before it.
  lemma LinkedTo(us: string, ns: seq<Tand>, k: nat, q: nat)
    requires Good(us, ns) && k < |ns| && q < |ns|
    ensures Shape(ns)[q].name == ns[q].bot && ns[q].bot != ""
    ensures ns[q].uplink == To(ns[k]) <==> Shape(ns)[q].uplink == Some(ns[k].bot)
    ensures ns[q].uplink == To(ns[k]) ==> k < q
  {
    ShapeAt(ns, q);
    GoodAt(us, ns, q);
    if ns[q].uplink == To(ns[k]) {
      UplinkBefore(us, ns, k, q);
    }
    if Shape(ns)[q].uplink == Some(ns[k].bot) {
      UplinkNode(us, ns, k, q);
    }
  }

  /** lostdcc() */
  method LostDcc(net: Botnet, idx: nat)
    requires net.Valid() && idx < |net.dcc|
    modifies net`tandbot, net`tands, net`nodes, net`dcc, net.pool`next, net.pool`freed, net.line
    ensures net.Valid() && net.Abs() == Lose(old(net.Abs()), idx)
  {
    if net.dcc[idx].kind == Up {
      net.CutOff(net.dcc[idx].nick);
    }
    net.dcc := net.dcc[idx := Dcc("", Lost)];
  }

  /** eof_dcc_bot(): the list and the party line shrink by what it reports. */
  method EofBot(net: Botnet, idx: nat) returns (bots: nat, users: nat)
    requires net.Valid() && idx < |net.dcc| && net.dcc[idx].kind == Up
    modifies net`tandbot, net`tands, net`nodes, net`dcc, net.pool`next, net.pool`freed, net.line
    ensures net.Valid() && net.Abs() == Lose(old(net.Abs()), idx)
    ensures net.tands == old(net.tands) - bots && |net.line.party| == |old(net.line.party)| - users
  {
    LossCounted(net.Abs(), idx, net.nodes, net.line.party);
    bots, users := CountLoss(net, net.dcc[idx].nick);
    LostDcc(net, idx);
    UsersLost(net.line.party, {});
  }

  // What hangs behind the bot of that name.
  method CountLoss(net: Botnet, nick: string) returns (bots: nat, users: nat)
    requires net.Valid()
    ensures bots == BotsOf(net.nodes, nick) && users == UsersOf(net.nodes, net.line.party, nick)
  {
    var bot, k := net.FindBot(nick);
    bots := BotsInSubtree(net, bot, k);
    users := UsersInSubtree(net, bot, k);
  }

  ghost function BotsOf(ns: seq<Tand>, nick: string): nat {
    match PlaceOf(ns, nick)
    case None => 0
    case Some(k) => Bots(Shape(ns), Branch(Shape(ns), ns[k].bot), |ns|)
  }

  ghost function UsersOf(ns: seq<Tand>, ps: seq<Member>, nick: string): nat {
    match PlaceOf(ns, nick)
    case None => 0
    case Some(k) => Users(ps, Handles(Branch(Shape(ns), ns[k].bot)), |ps|)
  }

  lemma LossCounted(st: State, idx: nat, ns: seq<Tand>, ps: seq<Member>)
    requires Good(st.us, ns) && st.bots == Recs(ns) && idx < |st.dcc| && st.dcc[idx].kind == Up
    requires Keyed(ps) && st.party == Table(ps)
    ensures |Lose(st, idx).bots| == |ns| - BotsOf(ns, st.dcc[idx].nick)
    ensures |Lose(st, idx).party| == |ps| - UsersOf(ns, ps, st.dcc[idx].nick)
  {
    CutOffAbs(st, ns, st.dcc[idx].nick);
    match PlaceOf(ns, st.dcc[idx].nick)
    case None =>
      UsersLost(ps, {});
      KeepAll(ns);
      PartyWithoutNone(st.party);
    case Some(k) =>
      var gone := CutNames(ns, st.dcc[idx].nick);
      KeepShape(ns, gone);
      BotsLost(Shape(ns), gone);
      UsersLost(ps, gone);
  }

  /** dcc_remove_lost(), with the part of removedcc() that closes the gap. */
  method DccRemoveLost(net: Botnet)
    modifies net`dcc
    ensures net.dcc == Sweep(old(net.dcc), 0)
  {
    var i := 0;
    while i < |net.dcc|
      invariant 0 <= i <= |net.dcc|
      invariant Sweep(net.dcc, i) == Sweep(old(net.dcc), 0)
      decreases |net.dcc| - i
    {
      if net.dcc[i].kind == Lost {
        var total := |net.dcc| - 1;
        net.dcc := net.dcc[i := net.dcc[total]][..total];
      } else {
        i := i + 1;
      }
    }
  }
}
