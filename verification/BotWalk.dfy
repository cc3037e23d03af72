/** botnet.c: tell_bottree() walks the tree with a bounded stack, over the list of bots alone. */
module BotWalk {
  import opened BotTree
  import opened BotNodes
  import opened BotList
  import opened Preorder

  // ---- Places of uplinks

  ghost function PosOf(ns: seq<Tand>, t: Tand): (k: int)
    ensures -1 <= k < |ns| && (k >= 0 ==> ns[k] == t)
    ensures k == -1 ==> t !in ns
  {
    if ns == [] then -1
    else if Back(ns) == t then |ns| - 1
    else
      assert ns == Front(ns) + [Back(ns)];
      PosOf(Front(ns), t)
  }

  // Where a place is linked to; -1 is us.
  ghost function UpAt(ns: seq<Tand>, j: nat): int
    requires j < |ns|
  {
    match ns[j].uplink
    case To(t) => PosOf(ns, t)
    case _ => -1
  }

  ghost function Ups(ns: seq<Tand>): (up: seq<int>)
    ensures |up| == |ns| && forall j :: 0 <= j < |ns| ==> up[j] == UpAt(ns, j)
  {
    seq(|ns|, j requires 0 <= j < |ns| => UpAt(ns, j))
  }

  ghost function LinkAt(ns: seq<Tand>, k: int): Link
    requires -1 <= k < |ns|
  {
    if k == -1 then Us else To(ns[k])
  }

  lemma UpsAre(us: string, ns: seq<Tand>)
    requires Good(us, ns) && Distinct(ns)
    ensures Forest(Ups(ns)) && |Ups(ns)| == |ns|
    ensures forall j, k :: 0 <= j < |ns| && -1 <= k < |ns| ==> (ns[j].uplink == LinkAt(ns, k) <==> Ups(ns)[j] == k)
  {
    forall j | 0 <= j < |ns|
      ensures -1 <= Ups(ns)[j] < j && ns[j].uplink == LinkAt(ns, Ups(ns)[j])
    {
      GoodAt(us, ns, j);
      if ns[j].uplink.To? {
        var i :| 0 <= i < j && ns[..j][i] == ns[j].uplink.tand;
        assert ns[i] == ns[j].uplink.tand;
      }
    }
  }

  // What a search by links finds, by places.
  lemma FirstPlace(us: string, ns: seq<Tand>, k: int, from: int, to: nat)
    requires Good(us, ns) && Distinct(ns) && -1 <= k < |ns| && -1 <= from <= to <= |ns|
    requires forall j :: from < j < to ==> ns[j].uplink != LinkAt(ns, k)
    ensures Forest(Ups(ns)) && |Ups(ns)| == |ns|
    ensures forall j :: from < j < to ==> Ups(ns)[j] != k
    ensures to < |ns| && ns[to].uplink == LinkAt(ns, k) ==> k < to && Ups(ns)[to] == k
  {
    UpsAre(us, ns);
    assert Forest(Ups(ns));
  }

  lemma UpPlace(us: string, ns: seq<Tand>, k: nat)
    requires Good(us, ns) && Distinct(ns) && k < |ns|
    ensures Forest(Ups(ns)) && |Ups(ns)| == |ns| && -1 <= Ups(ns)[k] < k
    ensures ns[k].uplink == LinkAt(ns, Ups(ns)[k])
  {
    UpsAre(us, ns);
  }

  // ---- Searches in the list

  // How many bots are linked to this; any number above 0 will do.
  method CountLinked(net: Botnet, this_: Link) returns (cnt: nat)
    requires net.ListOk()
    ensures cnt == 0 <==> forall j :: 0 <= j < |net.nodes| ==> net.nodes[j].uplink != this_
  {
    cnt := 0;
    var bot := net.tandbot;
    ghost var q := 0;
    while bot != null
      invariant 0 <= q <= |net.nodes| && bot == At(net.nodes, q)
      invariant cnt == 0 <==> forall j :: 0 <= j < q ==> net.nodes[j].uplink != this_
      decreases |net.nodes| - q
    {
      assert !bot.freed;
      if bot.uplink == this_ {
        cnt := cnt + 1;
      }
      bot := bot.next;
      q := q + 1;
    }
  }

  method FirstLinked(net: Botnet, this_: Link) returns (bot: Tand, ghost c: nat)
    requires net.ListOk() && exists j :: 0 <= j < |net.nodes| && net.nodes[j].uplink == this_
    ensures c < |net.nodes| && net.nodes[c] == bot && bot.uplink == this_
    ensures forall j :: 0 <= j < c ==> net.nodes[j].uplink != this_
  {
    bot, c := net.tandbot, 0;
    while bot.uplink != this_
      invariant 0 <= c < |net.nodes| && net.nodes[c] == bot
      invariant forall j :: 0 <= j < c ==> net.nodes[j].uplink != this_
      decreases |net.nodes| - c
    {
      assert !bot.freed;
      bot := bot.next;
      c := c + 1;
    }
  }

  // The bots linked to the same one as node k that stand behind it.
  method NextLinked(net: Botnet, parent: Link, bot: Tand, ghost k: nat) returns (cnt: nat, bot2: Tand?, ghost c: nat)
    requires net.ListOk() && k < |net.nodes| && net.nodes[k] == bot && bot.uplink == parent
    ensures cnt == 0 ==> forall j :: k < j < |net.nodes| ==> net.nodes[j].uplink != parent
    ensures cnt > 0 ==> k < c < |net.nodes| && bot2 == net.nodes[c] && bot2.uplink == parent
    ensures cnt > 0 ==> forall j :: k < j < c ==> net.nodes[j].uplink != parent
  {
    cnt, bot2, c := 0, null, 0;
    var ok := false;
    var p := net.tandbot;
    ghost var q := 0;
    while p != null
      invariant 0 <= q <= |net.nodes| && p == At(net.nodes, q)
      invariant ok <==> k < q
      invariant cnt == 0 ==> forall j :: k < j < q ==> net.nodes[j].uplink != parent
      invariant cnt > 0 ==> k < c < q && bot2 == net.nodes[c] && bot2.uplink == parent
      invariant cnt > 0 ==> forall j :: k < j < c ==> net.nodes[j].uplink != parent
      decreases |net.nodes| - q
    {
      assert !p.freed;
      if p.uplink == parent {
        if p == bot {
          ok := true;
        } else if ok {
          cnt := cnt + 1;
          if cnt == 1 {
            bot2, c := p, q;
          }
        }
      }
      p := p.next;
      q := q + 1;
    }
  }

  // ---- The walk

  const LEVELS: nat := 20

  datatype Outcome = NoneLinked | TooComplex | TreeError | Shown(tothops: nat)

  // The stack holds the links on the way from us to node k.
  ghost predicate OnStack(ns: seq<Tand>, last: seq<Link>, path: seq<int>) {
    |path| <= |last| && forall i :: 0 <= i < |path| ==> -1 <= path[i] < |ns| && last[i] == LinkAt(ns, path[i])
  }

  // The nodes at the places shown.
  ghost predicate Shows(ns: seq<Tand>, shown: seq<Tand>, seen: seq<nat>) {
    |shown| == |seen| && forall i :: 0 <= i < |seen| ==> seen[i] < |ns| && shown[i] == ns[seen[i]]
  }

  // Goes on to another bot, ends, or finds the stack empty where it must not be.
  datatype Move = On | End | Error

  // The bot behind k that is linked to the same one.
  method NextSibling(net: Botnet, parent: Link, bot: Tand, ghost k: nat) returns (bot2: Tand?, ghost c: nat)
    requires net.Valid() && k < |net.nodes| && net.nodes[k] == bot
    requires Forest(Ups(net.nodes)) && parent == LinkAt(net.nodes, Ups(net.nodes)[k])
    ensures var up := Ups(net.nodes);
            if bot2 == null then After(up, k) == After(up, up[k])
            else c < |net.nodes| && net.nodes[c] == bot2 && up[c] == up[k] && After(up, k) == [c] + Rest(up, c)
  {
    UpPlace(net.botnetnick, net.nodes, k);
    var cnt, next, at := NextLinked(net, parent, bot, k);
    bot2, c := if cnt > 0 then next else null, at;
    FirstPlace(net.botnetnick, net.nodes, Ups(net.nodes)[k], k, if cnt > 0 then c else |net.nodes|);
    if cnt > 0 {
      RestOn(Ups(net.nodes), k, c);
    } else {
      RestUp(Ups(net.nodes), k);
    }
  }

  // The stack, seen from its top: the bot that k is linked to, and how it goes on from there.
  lemma StackTop(ns: seq<Tand>, last: seq<Link>, k: nat, path: seq<int>)
    requires Forest(Ups(ns)) && k < |ns| && WayTo(Ups(ns), k, path) && OnStack(ns, last, path)
    ensures path != [] && last[|path| - 1] == LinkAt(ns, Ups(ns)[k])
    ensures var lev := |path| - 1;
            && WayTo(Ups(ns), Ups(ns)[k], path[..lev]) && OnStack(ns, last, path[..lev])
            && (lev > 0 <==> Ups(ns)[k] >= 0)
  {
  }

  // From a bot without bots behind it to the next one, if there is one.
  method NextBot(net: Botnet, last: seq<Link>, lev0: nat, bot0: Tand, ghost k0: nat, ghost path0: seq<int>)
    returns (move: Move, lev: nat, bot: Tand, ghost k: nat, ghost path: seq<int>)
    requires net.Valid() && k0 < |net.nodes| && net.nodes[k0] == bot0
    requires Forest(Ups(net.nodes)) && WayTo(Ups(net.nodes), k0, path0) && OnStack(net.nodes, last, path0) && lev0 == |path0|
    ensures move != Error
    ensures move == On ==> k < |net.nodes| && net.nodes[k] == bot && lev == |path| <= lev0
    ensures move == On ==> WayTo(Ups(net.nodes), k, path) && OnStack(net.nodes, last, path)
    ensures After(Ups(net.nodes), k0) == if move == On then [k] + Rest(Ups(net.nodes), k) else []
  {
    ghost var up := Ups(net.nodes);
    lev, bot, k, path := lev0, bot0, k0, path0;
    while true
      invariant k < |net.nodes| && net.nodes[k] == bot && lev == |path| <= lev0
      invariant WayTo(up, k, path) && OnStack(net.nodes, last, path)
      invariant After(up, k0) == After(up, k)
      decreases lev
    {
      if lev == 0 {
        return Error, lev, bot, k, path;
      }
      StackTop(net.nodes, last, k, path);
      var bot2, c := NextSibling(net, last[lev - 1], bot, k);
      if bot2 != null {
        return On, lev, bot2, c, path;
      }
      lev := lev - 1;
      if lev == 0 {
        return End, lev, bot, k, path;
      }
      bot, k, path := last[lev].tand, up[k], path[..lev];
      assert !bot.freed;
    }
  }

  // Midway: bot k is the last one shown, lev its depth, and what is left to show follows it.
  ghost predicate Midway(up: seq<int>, k: int, seen: seq<nat>, tothops: nat)
    requires Forest(up)
  {
    && -1 <= k < |up|
    && seen + Rest(up, k) == Order(up)
    && (forall i :: 0 <= i < |seen| ==> seen[i] < |up| && (seen[i] == k || Depth(up, seen[i]) < LEVELS))
    && (forall i :: 0 <= i < |Rest(up, k)| ==> Rest(up, k)[i] < |up|)
    && tothops + Depth(up, k) + DepthSum(up, Rest(up, k)) == AllDepths(up, |up|)
  }

  lemma WalkStarts(up: seq<int>)
    requires Forest(up)
    ensures Midway(up, -1, [], 0)
  {
    OrderSum(up);
    assert Rest(up, -1) == Order(up);
    assert [] + Order(up) == Order(up);
  }

  // The walk goes on from k to c.
  lemma {:induction false} WalkMoves(up: seq<int>, k: int, seen: seq<nat>, tothops: nat, c: nat)
    requires Forest(up) && Midway(up, k, seen, tothops) && Depth(up, k) < LEVELS
    requires c < |up| && Rest(up, k) == [c] + Rest(up, c)
    ensures Midway(up, c, seen + [c], tothops + Depth(up, k))
    ensures |Rest(up, c)| < |Rest(up, k)|
  {
    RestIsPlaces(up, c);
    assert ([c] + Rest(up, c))[1..] == Rest(up, c);
    assert seen + ([c] + Rest(up, c)) == seen + [c] + Rest(up, c);
  }

  lemma WalkEnds(up: seq<int>, k: int, seen: seq<nat>, tothops: nat)
    requires Forest(up) && Midway(up, k, seen, tothops) && Depth(up, k) < LEVELS && Rest(up, k) == []
    ensures seen == Order(up) && tothops + Depth(up, k) == AllDepths(up, |up|)
    ensures forall x: nat :: x < |up| ==> Depth(up, x) < LEVELS
  {
    OrderIsAll(up);
    assert seen + [] == seen;
    forall x: nat | x < |up| ensures Depth(up, x) < LEVELS {
      assert x in Order(up);
      var i :| 0 <= i < |seen| && seen[i] == x;
    }
  }

  // Where the walk stands, in terms of what it keeps in its variables.
  ghost predicate Standing(ns: seq<Tand>, shown: seq<Tand>, at: Link, lev: nat, last: seq<Link>, tothops: nat,
                           k: int, path: seq<int>, seen: seq<nat>)
    requires Forest(Ups(ns))
  {
    && Midway(Ups(ns), k, seen, tothops) && at == LinkAt(ns, k)
    && |last| == LEVELS && lev == |path| <= LEVELS && WayTo(Ups(ns), k, path) && OnStack(ns, last, path)
    && Shows(ns, shown, seen)
  }

  // All is shown.
  ghost predicate Done(ns: seq<Tand>, shown: seq<Tand>, tothops: nat)
    requires Forest(Ups(ns))
  {
    && Shows(ns, shown, Order(Ups(ns))) && tothops == AllDepths(Ups(ns), |ns|)
    && !TooDeep(ns)
  }

  lemma StackGrows(ns: seq<Tand>, at: Link, lev: nat, last: seq<Link>, k: int, path: seq<int>, c: nat)
    requires Forest(Ups(ns)) && |last| == LEVELS && lev == |path| < LEVELS && -1 <= k < c < |ns| && at == LinkAt(ns, k)
    requires WayTo(Ups(ns), k, path) && OnStack(ns, last, path) && Ups(ns)[c] == k
    ensures WayTo(Ups(ns), c, path + [k]) && OnStack(ns, last[lev := at], path + [k])
  {
    assert (path + [k])[..lev] == path;
  }

  lemma WalkDown(ns: seq<Tand>, shown: seq<Tand>, at: Link, lev: nat, last: seq<Link>, tothops: nat,
                 k: int, path: seq<int>, seen: seq<nat>, c: nat)
    requires Forest(Ups(ns)) && Standing(ns, shown, at, lev, last, tothops, k, path, seen) && lev < LEVELS
    requires k < c < |ns| && Ups(ns)[c] == k && forall j :: 0 <= j < c ==> Ups(ns)[j] != k
    ensures Standing(ns, shown + [ns[c]], To(ns[c]), lev + 1, last[lev := at], tothops + lev, c, path + [k], seen + [c])
    ensures |Rest(Ups(ns), c)| < |Rest(Ups(ns), k)|
  {
    WayDepth(Ups(ns), k, path);
    RestDown(Ups(ns), k, c);
    WalkMoves(Ups(ns), k, seen, tothops, c);
    StackGrows(ns, at, lev, last, k, path, c);
  }

  lemma {:induction false} WalkOn(ns: seq<Tand>, shown: seq<Tand>, at: Link, lev: nat, last: seq<Link>, tothops: nat,
                                  k: nat, path: seq<int>, seen: seq<nat>, more: bool, c: nat, way: seq<int>)
    requires Forest(Ups(ns)) && Standing(ns, shown, at, lev, last, tothops, k, path, seen) && lev < LEVELS
    requires Rest(Ups(ns), k) == After(Ups(ns), k)
    requires more ==> c < |ns| && |way| <= LEVELS && WayTo(Ups(ns), c, way) && OnStack(ns, last, way)
    requires After(Ups(ns), k) == if more then [c] + Rest(Ups(ns), c) else []
    ensures more ==> Standing(ns, shown + [ns[c]], To(ns[c]), |way|, last, tothops + lev, c, way, seen + [c])
    ensures more ==> |Rest(Ups(ns), c)| < |Rest(Ups(ns), k)|
    ensures !more ==> Done(ns, shown, tothops + lev)
  {
    WayDepth(Ups(ns), k, path);
    if more {
      WalkMoves(Ups(ns), k, seen, tothops, c);
    } else {
      WalkEnds(Ups(ns), k, seen, tothops);
    }
  }

  // Some bot is 20 or more hops away.
  ghost predicate TooDeep(ns: seq<Tand>)
    requires Forest(Ups(ns))
  {
    exists x: nat :: x < |ns| && Depth(Ups(ns), x) >= LEVELS
  }

  lemma WalkPlace(ns: seq<Tand>, shown: seq<Tand>, at: Link, lev: nat, last: seq<Link>, tothops: nat,
                  k: int, path: seq<int>, seen: seq<nat>)
    requires Forest(Ups(ns)) && Standing(ns, shown, at, lev, last, tothops, k, path, seen) && ns != []
    ensures k >= 0 <==> lev > 0
    ensures k == -1 ==> exists j :: 0 <= j < |ns| && Ups(ns)[j] == k
    ensures lev <= LEVELS && (lev == LEVELS ==> TooDeep(ns))
  {
    WayDepth(Ups(ns), k, path);
    assert Ups(ns)[0] == -1;
  }

  lemma WalkBegins(ns: seq<Tand>, last: seq<Link>)
    requires Forest(Ups(ns)) && |last| == LEVELS
    ensures Standing(ns, [], Us, 0, last, 0, -1, [], [])
  {
    WalkStarts(Ups(ns));
  }

  // What the walk has come to: it stands on a bot, or all is shown.
  ghost predicate Got(ns: seq<Tand>, move: Move, shown: seq<Tand>, at: Link, lev: nat, last: seq<Link>, tothops: nat,
                      k: int, path: seq<int>, seen: seq<nat>)
    requires Forest(Ups(ns))
  {
    match move
    case On => Standing(ns, shown, at, lev, last, tothops, k, path, seen)
    case End => Done(ns, shown, tothops)
    case Error => false
  }

  // To the first bot linked to the one the walk stands on.
  method GoDown(net: Botnet, at: Link, lev: nat, last: array<Link>, shown: seq<Tand>, tothops: nat,
               ghost k: int, ghost path: seq<int>, ghost seen: seq<nat>)
    returns (move: Move, shown': seq<Tand>, at': Link, lev': nat, tothops': nat,
             ghost k': int, ghost path': seq<int>, ghost seen': seq<nat>)
    requires net.Valid() && net.nodes != [] && Forest(Ups(net.nodes)) && lev < LEVELS
    requires Standing(net.nodes, shown, at, lev, last[..], tothops, k, path, seen)
    requires exists j :: 0 <= j < |net.nodes| && net.nodes[j].uplink == at
    modifies last
    ensures Got(net.nodes, move, shown', at', lev', last[..], tothops', k', path', seen')
    ensures move == On ==> |Rest(Ups(net.nodes), k')| < |Rest(Ups(net.nodes), k)|
  {
    ghost var ns := net.nodes;
    var bot, c := FirstLinked(net, at);
    FirstPlace(net.botnetnick, ns, k, -1, c);
    WalkDown(ns, shown, at, lev, last[..], tothops, k, path, seen, c);
    last[lev] := at;
    move, shown', at', lev', tothops' := On, shown + [bot], To(bot), lev + 1, tothops + lev;
    k', path', seen' := c, path + [k], seen + [c];
  }

  // From a bot that nobody is linked to.
  method GoOn(net: Botnet, at: Link, lev: nat, last: array<Link>, shown: seq<Tand>, tothops: nat,
               ghost k: int, ghost path: seq<int>, ghost seen: seq<nat>)
    returns (move: Move, shown': seq<Tand>, at': Link, lev': nat, tothops': nat,
             ghost k': int, ghost path': seq<int>, ghost seen': seq<nat>)
    requires net.Valid() && net.nodes != [] && Forest(Ups(net.nodes)) && lev < LEVELS
    requires Standing(net.nodes, shown, at, lev, last[..], tothops, k, path, seen)
    requires forall j :: 0 <= j < |net.nodes| ==> net.nodes[j].uplink != at
    ensures Got(net.nodes, move, shown', at', lev', last[..], tothops', k', path', seen')
    ensures move == On ==> |Rest(Ups(net.nodes), k')| < |Rest(Ups(net.nodes), k)|
  {
    ghost var ns := net.nodes;
    WalkPlace(ns, shown, at, lev, last[..], tothops, k, path, seen);
    FirstPlace(net.botnetnick, ns, k, -1, |ns|);
    NoKids(Ups(ns), k);
    var on, up, bot, c, way := NextBot(net, last[..], lev, at.tand, k, path);
    WalkOn(ns, shown, at, lev, last[..], tothops, k, path, seen, on == On, c, way);
    move, shown', at', lev', tothops' := on, if on == On then shown + [bot] else shown, To(bot), up, tothops + lev;
    k', path', seen' := c, way, seen + [c];
  }

  // One round of the walk: counts the bot it stands on, and goes on to the next one.
  method Round(net: Botnet, at: Link, lev: nat, last: array<Link>, shown: seq<Tand>, tothops: nat,
               ghost k: int, ghost path: seq<int>, ghost seen: seq<nat>)
    returns (move: Move, shown': seq<Tand>, at': Link, lev': nat, tothops': nat,
             ghost k': int, ghost path': seq<int>, ghost seen': seq<nat>)
    requires net.Valid() && net.nodes != [] && Forest(Ups(net.nodes)) && lev < LEVELS
    requires Standing(net.nodes, shown, at, lev, last[..], tothops, k, path, seen)
    modifies last
    ensures Got(net.nodes, move, shown', at', lev', last[..], tothops', k', path', seen')
    ensures move == On ==> |Rest(Ups(net.nodes), k')| < |Rest(Ups(net.nodes), k)|
  {
    var cnt := CountLinked(net, at);
    if cnt > 0 {
      move, shown', at', lev', tothops', k', path', seen' := GoDown(net, at, lev, last, shown, tothops, k, path, seen);
    } else {
      move, shown', at', lev', tothops', k', path', seen' := GoOn(net, at, lev, last, shown, tothops, k, path, seen);
    }
  }

  /** tell_bottree(): shows every bot once, parents first and siblings in the order of the list, and
      counts the hops to all of them, unless a bot is 20 or more hops away. It always ends, and never
      meets a tree error. */
  method TellBottree(net: Botnet) returns (o: Outcome, shown: seq<Tand>)
    requires net.Valid()
    ensures Forest(Ups(net.nodes))
    ensures o == NoneLinked <==> net.nodes == []
    ensures o == TooComplex <==> TooDeep(net.nodes)
    ensures o != TreeError
    ensures o.Shown? ==> Shows(net.nodes, shown, Order(Ups(net.nodes))) && o.tothops == AllDepths(Ups(net.nodes), |net.nodes|)
  {
    UpsAre(net.botnetnick, net.nodes);
    if net.tands == 0 {
      return NoneLinked, [];
    }
    o, shown := WalkTree(net);
  }

  method WalkTree(net: Botnet) returns (o: Outcome, shown: seq<Tand>)
    requires net.Valid() && net.nodes != [] && Forest(Ups(net.nodes))
    ensures if o == TooComplex then TooDeep(net.nodes) else o.Shown? && Done(net.nodes, shown, o.tothops)
  {
    ghost var ns := net.nodes;
    ghost var k, path, seen: seq<nat> := -1, [], [];
    var last := new Link[LEVELS](_ => Nowhere);
    var at, lev: nat, tothops: nat, move := Us, 0, 0, On;
    shown := [];
    WalkBegins(ns, last[..]);
    while move == On
      invariant fresh(last) && net.Valid() && net.nodes == ns
      invariant Got(ns, move, shown, at, lev, last[..], tothops, k, path, seen)
      decreases if move == On then 1 + |Rest(Ups(ns), k)| else 0
    {
      WalkPlace(ns, shown, at, lev, last[..], tothops, k, path, seen);
      if lev == 20 {
        return TooComplex, shown;
      }
      move, shown, at, lev, tothops, k, path, seen := Round(net, at, lev, last, shown, tothops, k, path, seen);
      if move == Error {
        return TreeError, shown;
      }
    }
    return Shown(tothops), shown;
  }
}
