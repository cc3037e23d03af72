/** botnet.c: how many bots and users hang behind a bot, and what is lost with them. */
module BotCounts {
  import opened Options
  import opened Chars
  import opened BotTree
  import opened BotState
  import opened PartyLine

  // The branches of those of the first q bots that are linked to who.
  function Branches(bs: seq<Bot>, who: string, q: nat): set<string>
    requires q <= |bs|
  {
    if q == 0 then {}
    else if bs[q - 1].uplink == Some(who) then Branches(bs, who, q - 1) + Branch(bs, bs[q - 1].name)
    else Branches(bs, who, q - 1)
  }

  lemma {:induction false} BranchesBelow(us: string, bs: seq<Bot>, who: string, q: nat)
    requires Tree(us, bs) && q <= |bs|
    ensures Branches(bs, who, q) <= Below(bs, who)
    ensures forall j :: 0 <= j < q && bs[j].uplink == Some(who) ==> bs[j].name in Branches(bs, who, q)
  {
    if q > 0 {
      BranchesBelow(us, bs, who, q - 1);
      if bs[q - 1].uplink == Some(who) {
        BelowCloses(us, bs, who, bs[q - 1]);
        BelowNested(us, bs, who, bs[q - 1].name);
      }
    }
  }

  lemma {:induction false} BranchesClosed(us: string, bs: seq<Bot>, who: string, q: nat)
    requires Tree(us, bs) && q <= |bs|
    ensures DownClosed(bs, Branches(bs, who, q))
  {
    if q > 0 {
      BranchesClosed(us, bs, who, q - 1);
      BelowAndSelf(us, bs, bs[q - 1]);
    }
  }

  /** All behind a bot are in the branches of the bots linked to it. */
  lemma BranchesAll(us: string, bs: seq<Bot>, who: string)
    requires Tree(us, bs)
    ensures Branches(bs, who, |bs|) == Below(bs, who)
  {
    BranchesBelow(us, bs, who, |bs|);
    BranchesClosed(us, bs, who, |bs|);
    BelowLeast(us, bs, who, Branches(bs, who, |bs|));
  }

  // A bot linked to who is not in the branch of another bot linked to who.
  lemma SiblingOutside(us: string, bs: seq<Bot>, a: Bot, b: Bot)
    requires Tree(us, bs) && a in bs && b in bs && a != b && a.uplink.Some? && a.uplink == b.uplink
    ensures a.name !in Branch(bs, b.name)
  {
    var w := UplinkOf(us, bs, a);
    NotBelowItself(us, bs, w);
    BelowCloses(us, bs, w.name, b);
    BelowNested(us, bs, w.name, b.name);
    BelowCloses(us, bs, b.name, a);
    if a.name == b.name {
      OneOfAName(us, bs, a, b);
      assert false;
    }
  }

  // The branches of two bots linked to the same one have nothing in common.
  lemma {:induction false} SiblingsApart(us: string, bs: seq<Bot>, a: Bot, b: Bot, x: nat)
    requires Tree(us, bs) && a in bs && b in bs && a != b && a.uplink.Some? && a.uplink == b.uplink && x < |bs|
    ensures !(bs[x].name in Branch(bs, a.name) && bs[x].name in Branch(bs, b.name))
  {
    var c := bs[x];
    SiblingOutside(us, bs, a, b);
    SiblingOutside(us, bs, b, a);
    BelowCloses(us, bs, a.name, c);
    BelowCloses(us, bs, b.name, c);
    if c.name != a.name && c.name != b.name && c.uplink.Some? {
      TreeAt(us, bs, x);
      var p :| p in bs[..x] && p.name == c.uplink.value && p.via == c.via;
      var i :| 0 <= i < x && bs[..x][i] == p;
      SiblingsApart(us, bs, a, b, i);
    }
  }

  lemma {:induction false} BranchApart(us: string, bs: seq<Bot>, who: string, q: nat, r: nat)
    requires Tree(us, bs) && q <= r < |bs| && bs[r].uplink == Some(who)
    ensures Branches(bs, who, q) !! Branch(bs, bs[r].name)
    decreases q
  {
    if q > 0 {
      BranchApart(us, bs, who, q - 1, r);
      var a, b := bs[q - 1], bs[r];
      if a.uplink == Some(who) {
        DistinctAt(us, bs, q - 1, r);
        forall n | n in Branch(bs, a.name) ensures n !in Branch(bs, b.name) {
          BelowInside(bs, a.name);
          var x :| 0 <= x < |bs| && bs[x].name == n;
          SiblingsApart(us, bs, a, b, x);
        }
      }
    }
  }

  lemma DistinctAt(us: string, bs: seq<Bot>, i: nat, j: nat)
    requires Tree(us, bs) && i < j < |bs|
    ensures !SameName(bs[i].name, bs[j].name)
  {
    TreeAt(us, bs, j);
    assert bs[..j][i] == bs[i];
  }

  // ---- Bots

  // How many of the first n bots have one of these names.
  function Bots(bs: seq<Bot>, names: set<string>, n: nat): nat
    requires n <= |bs|
  {
    if n == 0 then 0 else Bots(bs, names, n - 1) + if bs[n - 1].name in names then 1 else 0
  }

  lemma {:induction false} BotsJoin(bs: seq<Bot>, a: set<string>, b: set<string>, n: nat)
    requires n <= |bs| && a !! b
    ensures Bots(bs, a + b, n) == Bots(bs, a, n) + Bots(bs, b, n)
  {
    if n > 0 {
      BotsJoin(bs, a, b, n - 1);
    }
  }

  lemma {:induction false} NoBots(bs: seq<Bot>, names: set<string>, n: nat)
    requires n <= |bs| && forall i :: 0 <= i < n ==> bs[i].name !in names
    ensures Bots(bs, names, n) == 0
  {
    if n > 0 {
      NoBots(bs, names, n - 1);
    }
  }

  lemma {:induction false} OneBot(us: string, bs: seq<Bot>, k: nat, n: nat)
    requires Tree(us, bs) && k < n <= |bs|
    ensures Bots(bs, {bs[k].name}, n) == 1
  {
    if n == k + 1 {
      forall i | 0 <= i < k ensures bs[i].name !in {bs[k].name} {
        DistinctAt(us, bs, i, k);
      }
      NoBots(bs, {bs[k].name}, k);
    } else {
      OneBot(us, bs, k, n - 1);
      DistinctAt(us, bs, k, n - 1);
    }
  }

  lemma {:induction false} BotsFront(bs: seq<Bot>, names: set<string>, n: nat)
    requires bs != [] && n <= |bs| - 1
    ensures Bots(Front(bs), names, n) == Bots(bs, names, n)
  {
    if n > 0 {
      BotsFront(bs, names, n - 1);
    }
  }

  lemma {:induction false} BotsLost(bs: seq<Bot>, gone: set<string>)
    ensures |Without(bs, gone)| == |bs| - Bots(bs, gone, |bs|)
  {
    if bs != [] {
      BotsLost(Front(bs), gone);
      BotsFront(bs, gone, |bs| - 1);
    }
  }

  // ---- Users

  // How many of the first n members are on one of these bots.
  function Users(ps: seq<Member>, on: set<Handle>, n: nat): nat
    requires n <= |ps|
  {
    if n == 0 then 0 else Users(ps, on, n - 1) + if HandleOf(ps[n - 1].bot) in on then 1 else 0
  }

  lemma {:induction false} UsersJoin(ps: seq<Member>, a: set<Handle>, b: set<Handle>, n: nat)
    requires n <= |ps| && a !! b
    ensures Users(ps, a + b, n) == Users(ps, a, n) + Users(ps, b, n)
  {
    if n > 0 {
      UsersJoin(ps, a, b, n - 1);
    }
  }

  lemma {:induction false} NoUsers(ps: seq<Member>, n: nat)
    requires n <= |ps|
    ensures Users(ps, {}, n) == 0
  {
    if n > 0 {
      NoUsers(ps, n - 1);
    }
  }

  // Names of listed bots are told apart by their handles as well.
  lemma HandlesApart(us: string, bs: seq<Bot>, a: set<string>, b: set<string>)
    requires Tree(us, bs) && a !! b
    requires forall n :: n in a + b ==> exists c :: c in bs && c.name == n
    ensures Handles(a) !! Handles(b)
  {
    forall h | h in Handles(a) ensures h !in Handles(b) {
      var m :| m in a && HandleOf(m) == h;
      assert m in a + b;
      var c :| c in bs && c.name == m;
      forall n | n in b ensures HandleOf(n) != h {
        assert n in a + b;
        var d :| d in bs && d.name == n;
        if HandleOf(n) == h {
          OneOfAName(us, bs, c, d);
          assert false;
        }
      }
    }
  }

  /** The members that go are those counted. */
  lemma {:induction false} UsersLost(ps: seq<Member>, names: set<string>)
    requires Keyed(ps)
    ensures |Table(ps)| == |ps|
    ensures |PartyWithout(Table(ps), names)| == |ps| - Users(ps, Handles(names), |ps|)
  {
    if ps != [] {
      var front, last := Front(ps), Back(ps);
      assert ps == front + [last];
      UsersLost(front, names);
      NotThere(front, MemberKey(last));
      UsersFront(ps, Handles(names), |front|);
      var left := PartyWithout(Table(front), names);
      if HandleOf(last.bot) in Handles(names) {
        assert PartyWithout(Table(ps), names) == left;
      } else {
        assert PartyWithout(Table(ps), names) == left[MemberKey(last) := last];
      }
    }
  }

  lemma {:induction false} UsersFront(ps: seq<Member>, on: set<Handle>, n: nat)
    requires ps != [] && n <= |ps| - 1
    ensures Users(Front(ps), on, n) == Users(ps, on, n)
  {
    if n > 0 {
      UsersFront(ps, on, n - 1);
    }
  }

  // What is counted in the branches of those of the first q bots that are linked to who.
  function BotsBehind(bs: seq<Bot>, who: string, q: nat): nat
    requires q <= |bs|
  {
    if q == 0 then 0
    else BotsBehind(bs, who, q - 1) + if bs[q - 1].uplink == Some(who) then Bots(bs, Branch(bs, bs[q - 1].name), |bs|) else 0
  }

  function UsersBehind(bs: seq<Bot>, ps: seq<Member>, who: string, q: nat): nat
    requires q <= |bs|
  {
    if q == 0 then 0
    else UsersBehind(bs, ps, who, q - 1) +
         if bs[q - 1].uplink == Some(who) then Users(ps, Handles(Branch(bs, bs[q - 1].name)), |ps|) else 0
  }

  lemma {:induction false} BehindAre(us: string, bs: seq<Bot>, ps: seq<Member>, who: string, q: nat)
    requires Tree(us, bs) && q <= |bs|
    ensures BotsBehind(bs, who, q) == Bots(bs, Branches(bs, who, q), |bs|)
    ensures UsersBehind(bs, ps, who, q) == Users(ps, Handles(Branches(bs, who, q)), |ps|)
  {
    if q == 0 {
      NoBots(bs, {}, |bs|);
      NoUsers(ps, |ps|);
      assert Handles({}) == {};
    } else {
      BehindAre(us, bs, ps, who, q - 1);
      if bs[q - 1].uplink == Some(who) {
        BranchCounts(us, bs, ps, who, q - 1);
      }
    }
  }

  // One more branch adds as many bots and users as it has itself.
  lemma {:induction false} BranchCounts(us: string, bs: seq<Bot>, ps: seq<Member>, who: string, q: nat)
    requires Tree(us, bs) && q < |bs| && bs[q].uplink == Some(who)
    ensures var a, b := Branches(bs, who, q), Branch(bs, bs[q].name);
            && Bots(bs, a + b, |bs|) == Bots(bs, a, |bs|) + Bots(bs, b, |bs|)
            && Users(ps, Handles(a + b), |ps|) == Users(ps, Handles(a), |ps|) + Users(ps, Handles(b), |ps|)
  {
    var a, b := Branches(bs, who, q), Branch(bs, bs[q].name);
    BranchApart(us, bs, who, q, q);
    BranchesBelow(us, bs, who, q);
    BelowInside(bs, who);
    BelowInside(bs, bs[q].name);
    BotsJoin(bs, a, b, |bs|);
    HandlesApart(us, bs, a, b);
    assert Handles(a + b) == Handles(a) + Handles(b);
    UsersJoin(ps, Handles(a), Handles(b), |ps|);
  }

  /** The recursive counts add up to the bots and users that go with a bot. */
  lemma {:induction false} WholeCounts(us: string, bs: seq<Bot>, ps: seq<Member>, k: nat)
    requires Tree(us, bs) && k < |bs|
    ensures var who := bs[k].name;
            && Bots(bs, Branch(bs, who), |bs|) == 1 + BotsBehind(bs, who, |bs|)
            && Users(ps, Handles(Branch(bs, who)), |ps|) == Users(ps, {HandleOf(who)}, |ps|) + UsersBehind(bs, ps, who, |bs|)
  {
    var who := bs[k].name;
    BehindAre(us, bs, ps, who, |bs|);
    BranchesAll(us, bs, who);
    NotBelowItself(us, bs, bs[k]);
    BelowInside(bs, who);
    var below := Below(bs, who);
    OneBot(us, bs, k, |bs|);
    BotsJoin(bs, below, {who}, |bs|);
    HandlesApart(us, bs, below, {who});
    assert Handles({who}) == {HandleOf(who)};
    assert Handles(below + {who}) == Handles(below) + {HandleOf(who)};
    UsersJoin(ps, Handles(below), {HandleOf(who)}, |ps|);
  }
}
