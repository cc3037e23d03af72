/** botnet.c: the list of bots as a tree, laid out so that every bot stands behind its uplink. */
module BotTree {
  import opened Options
  import opened Chars

  // Longest handle, from eggdrop.h.
  const HANDLEN := 32

  // One entry of the bot list. No uplink name means that the bot is linked to us directly; via
  // names the direct neighbour through which it is reached.
  datatype Bot = Bot(name: string, uplink: Option<string>, via: string, share: char, ver: int)

  predicate SameName(a: string, b: string) {
    HandleOf(a) == HandleOf(b)
  }

  // Names that pass the check of bot_nlinked(); char is signed there.
  predicate NameOk(name: string) {
    0 < |name| <= HANDLEN && forall i :: 0 <= i < |name| ==> ' ' < name[i] < '\U{7F}'
  }

  predicate Listed(bs: seq<Bot>, who: string) {
    exists i :: 0 <= i < |bs| && SameName(bs[i].name, who)
  }

  // findbot()
  function Find(bs: seq<Bot>, who: string): (b: Option<Bot>)
    ensures b.Some? <==> Listed(bs, who)
    ensures b.Some? ==> b.value in bs && SameName(b.value.name, who)
  {
    if bs == [] then None
    else if SameName(bs[0].name, who) then Some(bs[0])
    else
      var b := Find(bs[1..], who);
      assert forall i :: 1 <= i < |bs| ==> bs[i] == bs[1..][i - 1];
      assert forall i :: 0 <= i < |bs[1..]| ==> bs[1..][i] == bs[i + 1];
      b
  }

  function Front<T>(s: seq<T>): seq<T>
    requires s != []
  {
    s[..|s| - 1]
  }

  function Back<T>(s: seq<T>): T
    requires s != []
  {
    s[|s| - 1]
  }

  /** The list is a tree hung below us: names are fit, distinct and not ours, every uplink is us or
      stands earlier, and via is passed down from the direct neighbour. */
  ghost predicate Tree(us: string, bs: seq<Bot>) {
    bs == [] || (Tree(us, Front(bs)) && Fits(us, Front(bs), Back(bs)))
  }

  // What a bot needs to be put behind a tree.
  ghost predicate Fits(us: string, bs: seq<Bot>, b: Bot) {
    && NameOk(b.name) && !SameName(b.name, us) && !Listed(bs, b.name)
    && match b.uplink
       case None => b.via == b.name
       case Some(u) => exists p :: p in bs && p.name == u && p.via == b.via
  }

  // Names of the bots behind who, nearest first.
  function Below(bs: seq<Bot>, who: string): set<string> {
    if bs == [] then {}
    else
      var up, below := Back(bs).uplink, Below(Front(bs), who);
      if up.Some? && (up.value == who || up.value in below) then below + {Back(bs).name} else below
  }

  // A bot and all behind it.
  function Branch(bs: seq<Bot>, who: string): set<string> {
    Below(bs, who) + {who}
  }

  function Without(bs: seq<Bot>, gone: set<string>): seq<Bot> {
    if bs == [] then []
    else Without(Front(bs), gone) + if Back(bs).name in gone then [] else [Back(bs)]
  }

  // A chain of uplinks from a direct neighbour down to the last bot of the path.
  ghost predicate IsPath(bs: seq<Bot>, path: seq<Bot>) {
    && path != []
    && (forall i :: 0 <= i < |path| ==> path[i] in bs)
    && path[0].uplink.None?
    && (forall i {:trigger path[i].uplink} :: 0 < i < |path| ==> path[i].uplink == Some(path[i - 1].name))
  }

  // ---- The list, by index

  lemma {:induction false} TreeAt(us: string, bs: seq<Bot>, i: nat)
    requires Tree(us, bs) && i < |bs|
    ensures NameOk(bs[i].name) && !SameName(bs[i].name, us) && !Listed(bs[..i], bs[i].name)
    ensures bs[i].uplink.None? ==> bs[i].via == bs[i].name
    ensures bs[i].uplink.Some? ==>
            exists p :: p in bs[..i] && p.name == bs[i].uplink.value && p.via == bs[i].via
    decreases |bs|
  {
    if i < |bs| - 1 {
      TreeAt(us, Front(bs), i);
      assert Front(bs)[..i] == bs[..i];
    }
  }

  // Distinct names: two listed bots of one name are one bot.
  lemma {:induction false} OneOfAName(us: string, bs: seq<Bot>, a: Bot, b: Bot)
    requires Tree(us, bs) && a in bs && b in bs && SameName(a.name, b.name)
    ensures a == b
  {
    var last := Back(bs);
    if a != last && b != last {
      OneOfAName(us, Front(bs), a, b);
    }
  }

  lemma FindIs(us: string, bs: seq<Bot>, b: Bot, who: string)
    requires Tree(us, bs) && b in bs && SameName(b.name, who)
    ensures Find(bs, who) == Some(b)
  {
    assert Listed(bs, who);
    OneOfAName(us, bs, b, Find(bs, who).value);
  }

  // ---- Routing

  /** Every path of uplinks from us to a bot begins with the neighbour named by its via. */
  lemma {:induction false} ViaStartsPath(us: string, bs: seq<Bot>, path: seq<Bot>)
    requires Tree(us, bs) && IsPath(bs, path)
    ensures path[0].name == Back(path).via
    decreases |path|
  {
    var b := Back(path);
    var i :| 0 <= i < |bs| && bs[i] == b;
    TreeAt(us, bs, i);
    if |path| > 1 {
      var p :| p in bs[..i] && p.name == b.uplink.value && p.via == b.via;
      OneOfAName(us, bs, p, path[|path| - 2]);
      ViaStartsPath(us, bs, Front(path));
    }
  }

  /** Every listed bot is reached by a path of uplinks, so its via is itself a listed direct neighbour. */
  lemma {:induction false} PathTo(us: string, bs: seq<Bot>, b: Bot) returns (path: seq<Bot>)
    requires Tree(us, bs) && b in bs
    ensures IsPath(bs, path) && Back(path) == b && |path| <= |bs|
    decreases |bs|
  {
    if b in Front(bs) {
      path := PathTo(us, Front(bs), b);
    } else if b.uplink.None? {
      path := [b];
    } else {
      var p :| p in Front(bs) && p.name == b.uplink.value;
      path := PathTo(us, Front(bs), p);
      path := path + [b];
    }
  }

  // ---- Removal

  lemma {:induction false} BelowInside(bs: seq<Bot>, who: string)
    ensures forall n :: n in Below(bs, who) ==> exists b :: b in bs && b.name == n
  {
    if bs != [] {
      BelowInside(Front(bs), who);
      forall n | n in Below(bs, who) ensures exists b :: b in bs && b.name == n {
        if n in Below(Front(bs), who) {
          var b :| b in Front(bs) && b.name == n;
        } else {
          assert Back(bs) in bs;
        }
      }
    }
  }

  lemma {:induction false} WithoutIs(bs: seq<Bot>, gone: set<string>)
    ensures forall b :: b in Without(bs, gone) <==> b in bs && b.name !in gone
    ensures |Without(bs, gone)| <= |bs|
  {
    if bs != [] {
      WithoutIs(Front(bs), gone);
      assert bs == Front(bs) + [Back(bs)];
    }
  }

  // Removing a set of bots that is closed under "linked behind" leaves a tree.
  ghost predicate DownClosed(bs: seq<Bot>, gone: set<string>) {
    forall b :: b in bs && b.uplink.Some? && b.uplink.value in gone ==> b.name in gone
  }

  lemma Grow(us: string, bs: seq<Bot>, b: Bot)
    requires Tree(us, bs)
    ensures Tree(us, bs + [b]) <==> Fits(us, bs, b)
  {
    assert Front(bs + [b]) == bs && Back(bs + [b]) == b;
  }

  lemma {:induction false} TreeFirst(us: string, bs: seq<Bot>, k: nat)
    requires k <= |bs| && Tree(us, bs)
    ensures Tree(us, bs[..k])
    decreases |bs|
  {
    if k < |bs| {
      TreeFirst(us, Front(bs), k);
      assert Front(bs)[..k] == bs[..k];
    } else {
      assert bs[..k] == bs;
    }
  }

  lemma {:induction false} WithoutKeepsTree(us: string, bs: seq<Bot>, gone: set<string>)
    requires Tree(us, bs) && DownClosed(bs, gone)
    ensures Tree(us, Without(bs, gone))
  {
    if bs != [] {
      var front, b := Front(bs), Back(bs);
      WithoutKeepsTree(us, front, gone);
      if b.name !in gone {
        WithoutFits(us, front, gone, b);
        Grow(us, Without(front, gone), b);
      } else {
        assert Without(bs, gone) == Without(front, gone);
      }
    }
  }

  lemma WithoutFits(us: string, bs: seq<Bot>, gone: set<string>, b: Bot)
    requires Fits(us, bs, b) && (b.uplink.Some? ==> b.uplink.value !in gone)
    ensures Fits(us, Without(bs, gone), b)
  {
    WithoutIs(bs, gone);
    var left := Without(bs, gone);
    forall i | 0 <= i < |left| ensures !SameName(left[i].name, b.name) {
      assert left[i] in left;
    }
  }

  // Below is closed: who stands behind someone behind who stands behind who, and nobody else does.
  lemma {:induction false} BelowCloses(us: string, bs: seq<Bot>, who: string, b: Bot)
    requires Tree(us, bs) && b in bs
    ensures b.name in Below(bs, who) <==>
            b.uplink.Some? && (b.uplink.value == who || b.uplink.value in Below(bs, who))
    decreases |bs|, 0
  {
    var front, last := Front(bs), Back(bs);
    if b in front {
      BelowCloses(us, front, who, b);
      if b.uplink.Some? {
        var p := UplinkOf(us, front, b);
        NotLast(us, bs, p);
      }
      NotLast(us, bs, b);
    } else {
      LastNotBelow(us, bs, who);
      if b.uplink.Some? {
        var p :| p in front && p.name == b.uplink.value;
        NotLast(us, bs, p);
      }
    }
  }

  lemma UplinkOf(us: string, bs: seq<Bot>, b: Bot) returns (p: Bot)
    requires Tree(us, bs) && b in bs && b.uplink.Some?
    ensures p in bs && p.name == b.uplink.value && p.via == b.via && p != b
  {
    var i :| 0 <= i < |bs| && bs[i] == b;
    TreeAt(us, bs, i);
    p :| p in bs[..i] && p.name == b.uplink.value && p.via == b.via;
  }

  lemma NotLast(us: string, bs: seq<Bot>, b: Bot)
    requires bs != [] && Tree(us, bs) && b in Front(bs)
    ensures b.name != Back(bs).name
  {
  }

  lemma LastNotBelow(us: string, bs: seq<Bot>, who: string)
    requires bs != [] && Tree(us, bs)
    ensures Back(bs).name !in Below(Front(bs), who)
  {
    BelowInside(Front(bs), who);
    forall c | c in Front(bs) ensures c.name != Back(bs).name {
      NotLast(us, bs, c);
    }
  }

  lemma {:induction false} NobodyBehindStranger(us: string, bs: seq<Bot>, who: string)
    requires Tree(us, bs) && forall p :: p in bs ==> p.name != who
    ensures Below(bs, who) == {}
  {
    if bs != [] {
      NobodyBehindStranger(us, Front(bs), who);
    }
  }

  // A bot is never behind itself.
  lemma {:induction false} NotBelowItself(us: string, bs: seq<Bot>, b: Bot)
    requires Tree(us, bs) && b in bs
    ensures b.name !in Below(bs, b.name)
    decreases |bs|
  {
    var front, last := Front(bs), Back(bs);
    if b in front {
      NotBelowItself(us, front, b);
      NotLast(us, bs, b);
    } else {
      forall p | p in front ensures p.name != b.name {
        NotLast(us, bs, p);
      }
      NobodyBehindStranger(us, front, b.name);
    }
  }

  /** A bot and all behind it can be cut off, leaving a tree. */
  lemma CutKeepsTree(us: string, bs: seq<Bot>, who: string)
    requires Tree(us, bs)
    ensures Tree(us, Without(bs, Below(bs, who)))
    ensures Tree(us, Without(bs, Below(bs, who) + {who}))
  {
    forall b | b in bs
      ensures b.uplink.Some? && b.uplink.value in Below(bs, who) + {who} ==> b.name in Below(bs, who)
    {
      BelowCloses(us, bs, who, b);
    }
    WithoutKeepsTree(us, bs, Below(bs, who));
    WithoutKeepsTree(us, bs, Below(bs, who) + {who});
  }

  /** "Behind" means what it says: the names cut off with who are those of the bots on whose path
      of uplinks who stands. */
  lemma {:induction false} BelowIsOnPath(us: string, bs: seq<Bot>, who: string, path: seq<Bot>)
    requires Tree(us, bs) && IsPath(bs, path)
    ensures Back(path).name in Below(bs, who) <==> exists i :: 0 <= i < |path| - 1 && path[i].name == who
    decreases |path|
  {
    var b := Back(path);
    BelowCloses(us, bs, who, b);
    if |path| > 1 {
      var front := Front(path);
      BelowIsOnPath(us, bs, who, front);
      assert b.uplink == Some(Back(front).name);
      OneFurther(path, who);
    }
  }

  lemma OneFurther(path: seq<Bot>, who: string)
    requires |path| > 1
    ensures (exists i :: 0 <= i < |path| - 1 && path[i].name == who) <==>
            Back(Front(path)).name == who || exists i :: 0 <= i < |Front(path)| - 1 && Front(path)[i].name == who
  {
    var front, last := Front(path), |path| - 2;
    assert forall i :: 0 <= i <= last ==> path[i] == front[i];
    assert Back(front) == path[last];
  }

  // ---- What is swept away round by round

  lemma {:induction false} BelowLeast(us: string, bs: seq<Bot>, who: string, gone: set<string>)
    requires DownClosed(bs, gone) && forall b :: b in bs && b.uplink == Some(who) ==> b.name in gone
    ensures Below(bs, who) <= gone
  {
    if bs != [] {
      assert forall b :: b in Front(bs) ==> b in bs;
      assert Back(bs) in bs;
      BelowLeast(us, Front(bs), who, gone);
    }
  }

  lemma {:induction false} BelowOfFewer(bs: seq<Bot>, gone: set<string>, who: string)
    ensures Below(Without(bs, gone), who) <= Below(bs, who)
  {
    if bs != [] {
      var left := Without(Front(bs), gone);
      BelowOfFewer(Front(bs), gone, who);
      if Back(bs).name in gone {
        assert Without(bs, gone) == left;
      } else {
        assert Front(left + [Back(bs)]) == left && Back(left + [Back(bs)]) == Back(bs);
      }
    }
  }

  lemma BelowAndSelf(us: string, bs: seq<Bot>, b: Bot)
    requires Tree(us, bs) && b in bs
    ensures DownClosed(bs, Below(bs, b.name)) && DownClosed(bs, Below(bs, b.name) + {b.name})
  {
    forall c | c in bs
      ensures c.uplink.Some? && c.uplink.value in Below(bs, b.name) + {b.name} ==> c.name in Below(bs, b.name)
    {
      BelowCloses(us, bs, b.name, c);
    }
  }

  // A bot linked to who goes, out of those left, with all behind it: what is gone then is still
  // behind who and closed.
  lemma BelowMore(us: string, bs: seq<Bot>, who: string, gone: set<string>, b: Bot)
    requires Tree(us, bs) && gone <= Below(bs, who) && DownClosed(bs, gone)
    requires b in Without(bs, gone) && b in bs && b.uplink == Some(who)
    ensures var more := Below(Without(bs, gone), b.name) + {b.name};
            gone + more <= Below(bs, who) && DownClosed(bs, gone + more)
  {
    var left := Without(bs, gone);
    var more := Below(left, b.name) + {b.name};
    BelowCloses(us, bs, who, b);
    BelowNested(us, bs, who, b.name);
    BelowOfFewer(bs, gone, b.name);
    WithoutKeepsTree(us, bs, gone);
    WithoutIs(bs, gone);
    BelowAndSelf(us, left, b);
    forall c | c in bs && c.uplink.Some? && c.uplink.value in gone + more ensures c.name in gone + more {
      assert c.name in gone || c in left;
    }
  }

  lemma BelowNested(us: string, bs: seq<Bot>, who: string, x: string)
    requires Tree(us, bs) && x in Below(bs, who)
    ensures Below(bs, x) <= Below(bs, who)
  {
    forall c | c in bs && c.uplink.Some? && (c.uplink.value in Below(bs, who) || c.uplink.value == x)
      ensures c.name in Below(bs, who)
    {
      BelowCloses(us, bs, who, c);
    }
    BelowLeast(us, bs, x, Below(bs, who));
  }

  // Whoever is behind a bot stands behind it in the list.
  lemma {:induction false} BelowLater(us: string, bs: seq<Bot>, k: nat, j: nat)
    requires Tree(us, bs) && j <= k < |bs|
    ensures bs[j].name !in Below(bs, bs[k].name)
    decreases |bs|
  {
    var front, last, w := Front(bs), Back(bs), bs[k].name;
    if k < |bs| - 1 {
      BelowLater(us, front, k, j);
      assert bs[j] in front;
      NotLast(us, bs, bs[j]);
    } else {
      forall p | p in front ensures p.name != w {
        NotLast(us, bs, p);
      }
      NobodyBehindStranger(us, front, w);
    }
  }
}
