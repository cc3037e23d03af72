/** botnet.c: the nodes of the bot list, and which of them stay when a bot is cut off. */
module BotNodes {
  import opened Options
  import opened BotTree

  // Where a bot is linked: no entry, us, or another bot.
  datatype Link = Nowhere | Us | To(tand: Tand)

  // tand_t; freed marks nodes that have been given back.
  class Tand {
    const bot: string
    const uplink: Link
    const via: Tand?
    var next: Tand?
    var ver: int
    var share: char
    ghost var freed: bool

    // A bot linked to us is its own via.
    constructor (bot: string, share: char, ver: int, uplink: Link, via: Tand?)
      ensures this.bot == bot && this.share == share && this.ver == ver && this.uplink == uplink
      ensures this.via == if via == null then this else via
      ensures next == null && !freed
    {
      this.bot, this.share, this.ver, this.uplink := bot, share, ver, uplink;
      if via == null {
        this.via := this;
      } else {
        this.via := via;
      }
      next, freed := null, false;
    }
  }

  ghost function Rec(t: Tand): Bot
    reads t`share, t`ver
  {
    Bot(t.bot, match t.uplink case Us => None case To(p) => Some(p.bot) case Nowhere => Some(""),
        if t.via == null then "" else t.via.bot, t.share, t.ver)
  }

  ghost function Recs(ns: seq<Tand>): (bs: seq<Bot>)
    reads ns`share, ns`ver
    ensures |bs| == |ns|
  {
    if ns == [] then [] else Recs(Front(ns)) + [Rec(Back(ns))]
  }

  lemma {:induction false} RecsAt(ns: seq<Tand>, i: nat)
    requires i < |ns|
    ensures Recs(ns)[i] == Rec(ns[i])
  {
    if i < |ns| - 1 {
      RecsAt(Front(ns), i);
    }
  }

  // The list without what updatebot() may change.
  ghost function Shape(ns: seq<Tand>): (bs: seq<Bot>)
    ensures |bs| == |ns|
  {
    if ns == [] then [] else Shape(Front(ns)) + [Bare(Back(ns))]
  }

  ghost function Bare(t: Tand): Bot {
    Bot(t.bot, match t.uplink case Us => None case To(p) => Some(p.bot) case Nowhere => Some(""),
        if t.via == null then "" else t.via.bot, ' ', 0)
  }

  lemma {:induction false} ShapeAt(ns: seq<Tand>, i: nat)
    requires i < |ns|
    ensures Shape(ns)[i] == Bare(ns[i])
  {
    if i < |ns| - 1 {
      ShapeAt(Front(ns), i);
    }
  }

  function At(ns: seq<Tand>, i: nat): Tand? {
    if i < |ns| then ns[i] else null
  }

  // The nodes form a tree: what Tree() says of their records, said of the pointers.
  ghost predicate Good(us: string, ns: seq<Tand>) {
    ns == [] || (Good(us, Front(ns)) && Hangs(us, Front(ns), Back(ns)))
  }

  ghost predicate Hangs(us: string, ns: seq<Tand>, t: Tand) {
    && NameOk(t.bot) && !SameName(t.bot, us)
    && (forall i :: 0 <= i < |ns| ==> !SameName(ns[i].bot, t.bot))
    && match t.uplink
       case Us => t.via == t
       case To(p) => p in ns && t.via != null && t.via == p.via
       case Nowhere => false
  }

  // The nodes that are left when some names go.
  ghost function Keep(ns: seq<Tand>, gone: set<string>): seq<Tand> {
    if ns == [] then [] else Keep(Front(ns), gone) + if Back(ns).bot in gone then [] else [Back(ns)]
  }

  ghost predicate Distinct(ns: seq<Tand>) {
    forall i, j :: 0 <= i < j < |ns| ==> ns[i] != ns[j]
  }

  // The list without node i.
  ghost function But(ns: seq<Tand>, i: nat): seq<Tand>
    requires i < |ns|
    decreases |ns|
  {
    if i == |ns| - 1 then Front(ns) else But(Front(ns), i) + [Back(ns)]
  }

  lemma {:induction false} ButAt(ns: seq<Tand>, i: nat)
    requires i < |ns|
    ensures var left := But(ns, i);
            && |left| == |ns| - 1
            && (forall j :: 0 <= j < i ==> left[j] == ns[j])
            && (forall j :: i <= j < |left| ==> left[j] == ns[j + 1])
    decreases |ns|
  {
    if i < |ns| - 1 {
      var front := Front(ns);
      ButAt(front, i);
      assert But(ns, i) == But(front, i) + [Back(ns)];
    }
  }

  lemma DropAt(ns: seq<Tand>, i: nat)
    requires i < |ns| && Distinct(ns)
    ensures Distinct(But(ns, i)) && ns[i] !in But(ns, i)
  {
    ButAt(ns, i);
  }

  // The place of the first node of that name.
  ghost function PlaceOf(ns: seq<Tand>, who: string): (i: Option<nat>)
    ensures i.Some? ==> i.value < |ns| && FirstOf(ns, who, i.value)
    ensures i.None? ==> forall j :: 0 <= j < |ns| ==> !SameName(ns[j].bot, who)
  {
    if exists i: nat :: i < |ns| && FirstOf(ns, who, i) then
      var i: nat :| i < |ns| && FirstOf(ns, who, i);
      Some(i)
    else
      NoFirst(ns, who, |ns|);
      None
  }

  lemma {:induction false} NoFirst(ns: seq<Tand>, who: string, n: nat)
    requires n <= |ns| && !exists i: nat :: i < |ns| && FirstOf(ns, who, i)
    ensures forall j :: 0 <= j < n ==> !SameName(ns[j].bot, who)
  {
    if n > 0 {
      NoFirst(ns, who, n - 1);
      assert !FirstOf(ns, who, n - 1);
    }
  }

  lemma PlaceIs(ns: seq<Tand>, who: string, i: nat)
    requires i <= |ns| && forall j :: 0 <= j < i ==> !SameName(ns[j].bot, who)
    ensures i < |ns| && SameName(ns[i].bot, who) ==> PlaceOf(ns, who) == Some(i)
    ensures i == |ns| ==> PlaceOf(ns, who) == None
  {
    var p := PlaceOf(ns, who);
    if i < |ns| && SameName(ns[i].bot, who) {
      assert FirstOf(ns, who, i);
    }
  }

  ghost predicate FirstOf(ns: seq<Tand>, who: string, i: nat)
    requires i < |ns|
  {
    SameName(ns[i].bot, who) && forall j :: 0 <= j < i ==> !SameName(ns[j].bot, who)
  }

  // The first node of that name is what findbot() finds; without one there is nothing to find.
  lemma FirstFound(ns: seq<Tand>, who: string, i: nat)
    requires i < |ns| && FirstOf(ns, who, i)
    ensures Find(Recs(ns), who) == Some(Rec(ns[i]))
  {
    forall j | 0 <= j <= i ensures Recs(ns)[j].name == ns[j].bot {
      RecsAt(ns, j);
    }
    RecsAt(ns, i);
    FirstIsFound(Recs(ns), who, i);
  }

  lemma {:induction false} FirstIsFound(bs: seq<Bot>, who: string, i: nat)
    requires i < |bs| && SameName(bs[i].name, who) && forall j :: 0 <= j < i ==> !SameName(bs[j].name, who)
    ensures Find(bs, who) == Some(bs[i])
    decreases |bs|
  {
    if i > 0 {
      FirstIsFound(bs[1..], who, i - 1);
    }
  }

  lemma NoneFound(ns: seq<Tand>, who: string)
    requires forall j :: 0 <= j < |ns| ==> !SameName(ns[j].bot, who)
    ensures !Listed(Recs(ns), who)
  {
    forall j | 0 <= j < |ns| ensures !SameName(Recs(ns)[j].name, who) {
      RecsAt(ns, j);
    }
  }

  // ---- Nodes that are kept

  ghost predicate SameUpTo(a: seq<Tand>, b: seq<Tand>, n: nat) {
    n <= |a| && n <= |b| && forall j :: 0 <= j < n ==> a[j] == b[j]
  }

  lemma {:induction false} KeepIs(ns: seq<Tand>, gone: set<string>)
    ensures |Keep(ns, gone)| <= |ns|
    ensures forall t {:trigger t in Keep(ns, gone)} :: t in Keep(ns, gone) ==> t in ns && t.bot !in gone
    ensures forall t :: t in ns && t.bot !in gone ==> t in Keep(ns, gone)
  {
    if ns != [] {
      KeepIs(Front(ns), gone);
      assert ns == Front(ns) + [Back(ns)];
    }
  }

  lemma {:induction false} KeepAll(ns: seq<Tand>)
    ensures Keep(ns, {}) == ns
  {
    if ns != [] {
      var front, t := Front(ns), Back(ns);
      assert ns == front + [t];
      KeepAll(front);
      assert Keep(ns, {}) == Keep(front, {}) + [t];
    }
  }

  lemma {:induction false} KeepTwice(ns: seq<Tand>, a: set<string>, b: set<string>)
    ensures Keep(Keep(ns, a), b) == Keep(ns, a + b)
  {
    if ns != [] {
      var left := Keep(Front(ns), a);
      KeepTwice(Front(ns), a, b);
      if Back(ns).bot !in a {
        assert Front(left + [Back(ns)]) == left && Back(left + [Back(ns)]) == Back(ns);
      } else {
        assert Keep(ns, a) == left;
      }
    }
  }

  // ---- Sweeping what is behind a bot

  // Midway through unvia(ns[k]): the names gone are behind ns[k], and take along all behind them.
  ghost predicate Swept(ns: seq<Tand>, k: nat, gone: set<string>, left: seq<Tand>)
    requires k < |ns|
  {
    && left == Keep(ns, gone) && |left| <= |ns|
    && gone <= Below(Shape(ns), ns[k].bot) && DownClosed(Shape(ns), gone)
  }

  // None of the first q is linked to who.
  ghost predicate NoChild(ns: seq<Tand>, who: Tand, q: nat) {
    q <= |ns| && forall j :: 0 <= j < q ==> ns[j].uplink != To(who)
  }

  lemma NoChildMore(ns: seq<Tand>, who: Tand, q: nat)
    requires NoChild(ns, who, q) && q < |ns| && ns[q].uplink != To(who)
    ensures NoChild(ns, who, q + 1)
  {
  }

  lemma NoChildKept(before: seq<Tand>, after: seq<Tand>, who: Tand, q: nat)
    requires NoChild(before, who, q) && SameUpTo(before, after, q)
    ensures NoChild(after, who, q)
  {
  }

  lemma SweepStarts(us: string, ns: seq<Tand>, k: nat)
    requires Good(us, ns) && k < |ns|
    ensures Swept(ns, k, {}, ns)
  {
    KeepAll(ns);
  }

  lemma SweepPrefix(us: string, ns: seq<Tand>, k: nat, gone: set<string>)
    requires Good(us, ns) && k < |ns| && gone <= Below(Shape(ns), ns[k].bot)
    ensures SameUpTo(ns, Keep(ns, gone), k + 1)
  {
    var bs := Shape(ns);
    GoodShape(us, ns);
    ShapeAt(ns, k);
    forall j | 0 <= j <= k ensures ns[j].bot !in gone {
      ShapeAt(ns, j);
      BelowLater(us, bs, k, j);
    }
    KeepPrefix(ns, gone, k + 1);
  }

  // A node linked to ns[k] stands behind it on what is left of the list.
  lemma Later(us: string, ns: seq<Tand>, k: nat, gone: set<string>, left: seq<Tand>, q: nat)
    requires Good(us, ns) && k < |ns| && Good(us, left)
    requires Swept(ns, k, gone, left) && q < |left|
    ensures left[q].uplink == To(ns[k]) ==> k < q
  {
    if left[q].uplink == To(ns[k]) {
      SweepPrefix(us, ns, k, gone);
      UplinkBefore(us, left, k, q);
    }
  }

  lemma SweepMore(us: string, ns: seq<Tand>, k: nat, gone: set<string>, left: seq<Tand>, q: nat)
    requires Good(us, ns) && k < |ns| && Good(us, left)
    requires Swept(ns, k, gone, left) && q < |left| && left[q].uplink == To(ns[k])
    ensures var more := Below(Shape(left), left[q].bot) + {left[q].bot};
            Swept(ns, k, gone + more, Keep(left, more))
  {
    var more := Below(Shape(left), left[q].bot) + {left[q].bot};
    KeepShape(ns, gone);
    GoodShape(us, ns);
    ShapeAt(left, q);
    WithoutIs(Shape(ns), gone);
    assert Shape(left)[q] in Shape(left);
    BelowMore(us, Shape(ns), ns[k].bot, gone, Bare(left[q]));
    KeepTwice(ns, gone, more);
    KeepIs(ns, gone + more);
  }

  lemma SweepEnds(us: string, ns: seq<Tand>, k: nat, gone: set<string>, left: seq<Tand>)
    requires Good(us, ns) && k < |ns| && Swept(ns, k, gone, left)
    requires NoChild(left, ns[k], |left|)
    ensures gone == Below(Shape(ns), ns[k].bot)
    ensures SameUpTo(ns, left, k + 1)
  {
    var bs, w := Shape(ns), ns[k].bot;
    SweepPrefix(us, ns, k, gone);
    GoodShape(us, ns);
    KeepIs(ns, gone);
    forall b | b in bs && b.uplink == Some(w) ensures b.name in gone {
      var i :| 0 <= i < |bs| && bs[i] == b;
      ShapeAt(ns, i);
      UplinkNode(us, ns, k, i);
      assert ns[i] !in left;
    }
    BelowLeast(us, bs, w, gone);
  }

  // A bot that nobody is behind any more goes alone.
  lemma CutOne(us: string, ns: seq<Tand>, left: seq<Tand>, at: nat)
    requires Good(us, ns) && at < |ns| && left == Keep(ns, Below(Shape(ns), ns[at].bot))
    requires Good(us, left) && SameUpTo(ns, left, at + 1)
    ensures PlaceOf(left, ns[at].bot) == Some(at)
    ensures var rest := But(left, at);
            && Good(us, rest) && |rest| < |ns| && SameUpTo(ns, rest, at) && At(left, at + 1) == At(rest, at)
            && rest == Keep(ns, Below(Shape(ns), ns[at].bot) + {ns[at].bot})
  {
    ButKept(us, ns, left, at);
    KeepIs(ns, Below(Shape(ns), ns[at].bot));
    ButAt(left, at);
    GoodShape(us, ns);
    ShapeAt(ns, at);
    BelowAndSelf(us, Shape(ns), Shape(ns)[at]);
    KeepGood(us, ns, Below(Shape(ns), ns[at].bot) + {ns[at].bot});
  }

  lemma ButKept(us: string, ns: seq<Tand>, left: seq<Tand>, at: nat)
    requires Good(us, left) && at < |ns| && SameUpTo(ns, left, at + 1) && left == Keep(ns, Below(Shape(ns), ns[at].bot))
    ensures PlaceOf(left, ns[at].bot) == Some(at)
    ensures But(left, at) == Keep(ns, Below(Shape(ns), ns[at].bot) + {ns[at].bot})
  {
    var below, x := Below(Shape(ns), ns[at].bot), ns[at].bot;
    GoodNames(us, left);
    PlaceIs(left, x, at);
    KeepTwice(ns, below, {x});
    KeepBut(left, at);
  }

  // ---- From pointers to names

  lemma {:induction false} GoodShape(us: string, ns: seq<Tand>)
    requires Good(us, ns)
    ensures Tree(us, Shape(ns))
  {
    if ns != [] {
      var front, t := Front(ns), Back(ns);
      GoodShape(us, front);
      assert Shape(ns) == Shape(front) + [Bare(t)];
      Grow(us, Shape(front), Bare(t));
      HangsFits(us, front, t);
    }
  }

  lemma HangsFits(us: string, ns: seq<Tand>, t: Tand)
    requires Hangs(us, ns, t)
    ensures Fits(us, Shape(ns), Bare(t))
  {
    forall j | 0 <= j < |ns| ensures !SameName(Shape(ns)[j].name, t.bot) {
      ShapeAt(ns, j);
    }
    if t.uplink.To? {
      var i :| 0 <= i < |ns| && ns[i] == t.uplink.tand;
      ShapeAt(ns, i);
      assert Shape(ns)[i] in Shape(ns);
    }
  }

  lemma {:induction false} GoodNames(us: string, ns: seq<Tand>)
    requires Good(us, ns)
    ensures forall i, j :: 0 <= i < j < |ns| ==> !SameName(ns[i].bot, ns[j].bot)
  {
    if ns != [] {
      GoodNames(us, Front(ns));
    }
  }

  lemma {:induction false} GoodAt(us: string, ns: seq<Tand>, i: nat)
    requires Good(us, ns) && i < |ns|
    ensures Hangs(us, ns[..i], ns[i])
    decreases |ns|
  {
    if i < |ns| - 1 {
      GoodAt(us, Front(ns), i);
      assert Front(ns)[..i] == ns[..i];
    }
  }

  lemma UplinkListed(us: string, ns: seq<Tand>, i: nat)
    requires Good(us, ns) && i < |ns|
    ensures ns[i].uplink.To? ==> ns[i].uplink.tand in ns
  {
    GoodAt(us, ns, i);
  }

  // A bot stands behind its uplink in the list.
  lemma UplinkBefore(us: string, ns: seq<Tand>, k: nat, i: nat)
    requires Good(us, ns) && k < |ns| && i < |ns| && ns[i].uplink == To(ns[k])
    ensures k < i
  {
    GoodAt(us, ns, i);
    GoodNames(us, ns);
    var j :| 0 <= j < i && ns[..i][j] == ns[k];
    assert ns[j] == ns[k];
  }

  // An uplink by name is the node of that name.
  lemma UplinkNode(us: string, ns: seq<Tand>, k: nat, i: nat)
    requires Good(us, ns) && k < |ns| && i < |ns| && Bare(ns[i]).uplink == Some(ns[k].bot)
    ensures ns[i].uplink == To(ns[k])
  {
    GoodAt(us, ns, i);
    GoodNames(us, ns);
    var j :| 0 <= j < i && ns[..i][j] == ns[i].uplink.tand;
    assert ns[j] == ns[i].uplink.tand && SameName(ns[j].bot, ns[k].bot);
  }

  lemma {:induction false} KeepGood(us: string, ns: seq<Tand>, gone: set<string>)
    requires Good(us, ns) && DownClosed(Shape(ns), gone)
    ensures Good(us, Keep(ns, gone))
  {
    if ns != [] {
      var front, t := Front(ns), Back(ns);
      assert Shape(ns) == Shape(front) + [Bare(t)];
      KeepGood(us, front, gone);
      var left := Keep(front, gone);
      if t.bot in gone {
        assert Keep(ns, gone) == left;
      } else {
        assert Bare(t) in Shape(ns);
        KeepHangs(us, front, gone, t);
        assert Front(left + [t]) == left && Back(left + [t]) == t;
      }
    }
  }

  lemma KeepHangs(us: string, ns: seq<Tand>, gone: set<string>, t: Tand)
    requires Hangs(us, ns, t) && (t.uplink.To? ==> t.uplink.tand.bot !in gone)
    ensures Hangs(us, Keep(ns, gone), t)
  {
    KeepIs(ns, gone);
    var left := Keep(ns, gone);
    forall i | 0 <= i < |left| ensures !SameName(left[i].bot, t.bot) {
      assert left[i] in Keep(ns, gone);
      var j :| 0 <= j < |ns| && ns[j] == left[i];
    }
  }

  lemma {:induction false} KeepShape(ns: seq<Tand>, gone: set<string>)
    ensures Shape(Keep(ns, gone)) == Without(Shape(ns), gone)
  {
    if ns != [] {
      var front, t, left := Front(ns), Back(ns), Keep(Front(ns), gone);
      KeepShape(front, gone);
      assert Front(Shape(ns)) == Shape(front) && Back(Shape(ns)) == Bare(t);
      if t.bot !in gone {
        assert Front(left + [t]) == left && Back(left + [t]) == t;
      } else {
        assert Keep(ns, gone) == left;
      }
    }
  }

  lemma {:induction false} KeepPrefix(ns: seq<Tand>, gone: set<string>, n: nat)
    requires n <= |ns| && forall j :: 0 <= j < n ==> ns[j].bot !in gone
    ensures SameUpTo(ns, Keep(ns, gone), n)
    decreases |ns|
  {
    if n == |ns| {
      KeepWhole(ns, gone);
    } else {
      KeepPrefix(Front(ns), gone, n);
      assert forall j :: 0 <= j < |Keep(Front(ns), gone)| ==> Keep(ns, gone)[j] == Keep(Front(ns), gone)[j];
    }
  }

  lemma {:induction false} KeepWhole(ns: seq<Tand>, gone: set<string>)
    ensures (forall j :: 0 <= j < |ns| ==> ns[j].bot !in gone) ==> Keep(ns, gone) == ns
  {
    if ns != [] {
      KeepWhole(Front(ns), gone);
      assert ns == Front(ns) + [Back(ns)];
    }
  }

  lemma {:induction false} KeepBut(ns: seq<Tand>, at: nat)
    requires at < |ns| && forall i, j :: 0 <= i < j < |ns| ==> !SameName(ns[i].bot, ns[j].bot)
    ensures Keep(ns, {ns[at].bot}) == But(ns, at)
    decreases |ns|
  {
    var front := Front(ns);
    if at == |ns| - 1 {
      forall j | 0 <= j < |front| ensures front[j].bot !in {ns[at].bot} {
        assert !SameName(ns[j].bot, ns[at].bot);
      }
      KeepWhole(front, {ns[at].bot});
    } else {
      KeepBut(front, at);
    }
  }

  // ---- Records and what updatebot() leaves alone

  lemma {:induction false} KeepRecs(ns: seq<Tand>, gone: set<string>)
    ensures Recs(Keep(ns, gone)) == Without(Recs(ns), gone)
  {
    if ns != [] {
      KeepRecs(Front(ns), gone);
      var left := Keep(Front(ns), gone);
      assert Front(Recs(ns)) == Recs(Front(ns)) && Back(Recs(ns)) == Rec(Back(ns));
      if Back(ns).bot !in gone {
        assert Front(left + [Back(ns)]) == left && Back(left + [Back(ns)]) == Back(ns);
      } else {
        assert Keep(ns, gone) == left;
      }
    }
  }

  lemma {:induction false} BelowRecs(ns: seq<Tand>, who: string)
    ensures Below(Recs(ns), who) == Below(Shape(ns), who)
  {
    if ns != [] {
      BelowRecs(Front(ns), who);
      assert Front(Recs(ns)) == Recs(Front(ns)) && Back(Recs(ns)) == Rec(Back(ns));
      assert Front(Shape(ns)) == Shape(Front(ns)) && Back(Shape(ns)) == Bare(Back(ns));
    }
  }

  lemma {:induction false} RecsTree(us: string, ns: seq<Tand>)
    requires Good(us, ns)
    ensures Tree(us, Recs(ns))
  {
    if ns != [] {
      var front, t := Front(ns), Back(ns);
      RecsTree(us, front);
      assert Recs(ns) == Recs(front) + [Rec(t)];
      Grow(us, Recs(front), Rec(t));
      NoneFound(front, t.bot);
      if t.uplink.To? {
        var i :| 0 <= i < |front| && front[i] == t.uplink.tand;
        RecsAt(front, i);
        assert Recs(front)[i] in Recs(front);
      }
    }
  }

  // A via is a listed node.
  lemma {:induction false} GoodVia(us: string, ns: seq<Tand>, i: nat)
    requires Good(us, ns) && i < |ns|
    ensures ns[i].via != null && ns[i].via in ns
    decreases i
  {
    GoodAt(us, ns, i);
    if ns[i].uplink.To? {
      var j :| 0 <= j < i && ns[..i][j] == ns[i].uplink.tand;
      GoodVia(us, ns, j);
    }
  }
}
