/** botnet.c: the party line, an unordered table filed under bot and socket. */
module PartyLine {
  import opened Options
  import opened Chars
  import opened BotTree
  import opened BotState

  function MemberKey(m: Member): Key {
    KeyOf(m.bot, m.sock)
  }

  predicate Keyed(ps: seq<Member>) {
    forall i, j {:trigger MemberKey(ps[i]), MemberKey(ps[j])} :: 0 <= i < j < |ps| ==> MemberKey(ps[i]) != MemberKey(ps[j])
  }

  // The table as a map.
  function Table(ps: seq<Member>): map<Key, Member> {
    if ps == [] then map[] else Table(Front(ps))[MemberKey(Back(ps)) := Back(ps)]
  }

  // m files exactly the members of ps.
  ghost predicate Files(m: map<Key, Member>, ps: seq<Member>) {
    && (forall i :: 0 <= i < |ps| ==> MemberKey(ps[i]) in m && m[MemberKey(ps[i])] == ps[i])
    && (forall k :: k in m ==> exists i :: 0 <= i < |ps| && MemberKey(ps[i]) == k)
  }

  lemma FilesOnce(m: map<Key, Member>, n: map<Key, Member>, ps: seq<Member>)
    requires Files(m, ps) && Files(n, ps)
    ensures m == n
  {
    forall k ensures k in m <==> k in n {}
  }

  lemma FilesMore(m: map<Key, Member>, ps: seq<Member>, e: Member)
    requires Files(m, ps) && Keyed(ps + [e])
    ensures Files(m[MemberKey(e) := e], ps + [e])
  {
    var m', ps' := m[MemberKey(e) := e], ps + [e];
    assert forall i :: 0 <= i < |ps| ==> ps'[i] == ps[i];
    assert ps'[|ps|] == e;
    forall k | k in m' ensures exists i :: 0 <= i < |ps'| && MemberKey(ps'[i]) == k {
      if k in m {
        var i :| 0 <= i < |ps| && MemberKey(ps[i]) == k;
        assert MemberKey(ps'[i]) == k;
      }
    }
  }

  lemma {:induction false} TableIs(ps: seq<Member>)
    requires Keyed(ps)
    ensures Files(Table(ps), ps)
  {
    if ps != [] {
      assert ps == Front(ps) + [Back(ps)];
      TableIs(Front(ps));
      FilesMore(Table(Front(ps)), Front(ps), Back(ps));
    }
  }

  // Two tables with the same members are the same map.
  lemma SameTable(ps: seq<Member>, m: map<Key, Member>)
    requires Keyed(ps) && Files(m, ps)
    ensures Table(ps) == m
  {
    TableIs(ps);
    FilesOnce(Table(ps), m, ps);
  }

  // Entry i overwritten with the last one, which goes.
  function SwapOut(ps: seq<Member>, i: nat): seq<Member>
    requires i < |ps|
  {
    ps[i := ps[|ps| - 1]][..|ps| - 1]
  }

  lemma SwapOutAt(ps: seq<Member>, i: nat)
    requires Keyed(ps) && i < |ps|
    ensures var left := SwapOut(ps, i);
            && |left| == |ps| - 1 && Keyed(left)
            && forall j :: 0 <= j < |left| ==> left[j] == (if j == i then ps[|ps| - 1] else ps[j]) && MemberKey(left[j]) != MemberKey(ps[i])
  {
  }

  lemma SwapOutFiles(m: map<Key, Member>, ps: seq<Member>, i: nat)
    requires Keyed(ps) && i < |ps| && Files(m, ps)
    ensures Keyed(SwapOut(ps, i)) && Files(m - {MemberKey(ps[i])}, SwapOut(ps, i))
  {
    var left, k0 := SwapOut(ps, i), MemberKey(ps[i]);
    SwapOutAt(ps, i);
    forall k | k in m - {k0} ensures exists j :: 0 <= j < |left| && MemberKey(left[j]) == k {
      var j :| 0 <= j < |ps| && MemberKey(ps[j]) == k;
      var j' := if j == |ps| - 1 then i else j;
      assert left[j'] == ps[j];
    }
  }

  lemma SwapOutTable(ps: seq<Member>, i: nat)
    requires Keyed(ps) && i < |ps|
    ensures Keyed(SwapOut(ps, i)) && Table(SwapOut(ps, i)) == Table(ps) - {MemberKey(ps[i])}
  {
    TableIs(ps);
    SwapOutFiles(Table(ps), ps, i);
    SameTable(SwapOut(ps, i), Table(ps) - {MemberKey(ps[i])});
  }

  lemma NotThere(ps: seq<Member>, k: Key)
    requires Keyed(ps) && forall j :: 0 <= j < |ps| ==> MemberKey(ps[j]) != k
    ensures k !in Table(ps)
  {
    TableIs(ps);
  }

  // A member that is filed already changes in place.
  lemma SeenAgain(ps: seq<Member>, i: nat, m: Member, bot: string, nick: string, flag: char, from: string)
    requires Keyed(ps) && i < |ps| && MemberKey(ps[i]) == KeyOf(bot, ps[i].sock)
    requires m == if from == "" then ps[i].(chan := m.chan)
                  else ps[i].(chan := m.chan, flag := if flag == ' ' then '-' else flag, from := from)
    ensures Keyed(ps[i := m]) && Table(ps[i := m]) == AddParty(Table(ps), bot, nick, m.chan, flag, m.sock, from)
  {
    UpdateTable(ps, i, m);
    TableIs(ps);
  }

  // A member that is not filed yet comes to stand at the end.
  lemma NewHere(ps: seq<Member>, m: Member, nick: string, flag: char, from: string)
    requires Keyed(ps) && MemberKey(m) !in Table(ps) && m.nick == Shorten(nick)
    requires m.from == if from == "" then "(unknown)" else from
    requires m.flag == if from == "" then ' ' else if flag == ' ' then '-' else flag
    ensures Keyed(ps + [m]) && Table(ps + [m]) == AddParty(Table(ps), m.bot, nick, m.chan, flag, m.sock, from)
  {
    AppendTable(ps, m);
  }

  class Party {
    var party: seq<Member>

    constructor ()
      ensures Keyed(party) && Table(party) == map[]
    {
      party := [];
    }

    /** getparty() */
    method GetParty(bot: string, sock: int) returns (i: int)
      requires Keyed(party)
      ensures i == -1 <==> KeyOf(bot, sock) !in Table(party)
      ensures i != -1 ==> 0 <= i < |party| && MemberKey(party[i]) == KeyOf(bot, sock) && Table(party)[KeyOf(bot, sock)] == party[i]
    {
      TableIs(party);
      for j := 0 to |party|
        invariant forall k :: 0 <= k < j ==> MemberKey(party[k]) != KeyOf(bot, sock)
      {
        if SameName(party[j].bot, bot) && party[j].sock == sock {
          return j;
        }
      }
      return -1;
    }

    /** addparty() */
    method Add(bot: string, nick: string, chan: int, flag: char, sock: int, from: string) returns (oldchan: int, idx: nat)
      requires Keyed(party) && |bot| <= HANDLEN
      modifies this
      ensures Keyed(party) && Table(party) == AddParty(old(Table(party)), bot, nick, chan, flag, sock, from)
      ensures idx < |party| && MemberKey(party[idx]) == KeyOf(bot, sock)
      ensures oldchan == if KeyOf(bot, sock) in old(Table(party)) then old(Table(party))[KeyOf(bot, sock)].chan else -1
    {
      var i := GetParty(bot, sock);
      if i >= 0 {
        oldchan, idx := party[i].chan, i;
        Change(i, bot, nick, chan, flag, from);
      } else {
        oldchan, idx := -1, |party|;
        Append(bot, nick, chan, flag, sock, from);
      }
    }

    // The part of addparty() for someone who is on the party line already.
    method Change(i: nat, ghost bot: string, ghost nick: string, chan: int, flag: char, from: string)
      requires Keyed(party) && i < |party| && MemberKey(party[i]) == KeyOf(bot, party[i].sock)
      modifies this
      ensures Keyed(party) && Table(party) == AddParty(old(Table(party)), bot, nick, chan, flag, old(party)[i].sock, from)
      ensures |party| == |old(party)| && MemberKey(party[i]) == MemberKey(old(party)[i])
    {
      var m := party[i].(chan := chan);
      if from != "" {
        m := m.(flag := if flag == ' ' then '-' else flag, from := from);
      }
      SeenAgain(party, i, m, bot, nick, flag, from);
      party := party[i := m];
    }

    // The part of addparty() for someone new.
    method Append(bot: string, nick: string, chan: int, flag: char, sock: int, from: string)
      requires Keyed(party) && KeyOf(bot, sock) !in Table(party)
      modifies this
      ensures Keyed(party) && Table(party) == AddParty(old(Table(party)), bot, nick, chan, flag, sock, from)
      ensures |party| == |old(party)| + 1 && MemberKey(party[|party| - 1]) == KeyOf(bot, sock)
    {
      var m := if from != "" then Member(bot, Shorten(nick), chan, sock, if flag == ' ' then '-' else flag, from)
               else Member(bot, Shorten(nick), chan, sock, ' ', "(unknown)");
      NewHere(party, m, nick, flag, from);
      party := party + [m];
    }

    /** remparty(): at is the place the member had, if there was one. */
    method Rem(bot: string, sock: int) returns (ghost at: Option<nat>)
      requires Keyed(party)
      modifies this
      ensures Keyed(party) && Table(party) == old(Table(party)) - {KeyOf(bot, sock)}
      ensures at.None? ==> KeyOf(bot, sock) !in old(Table(party)) && party == old(party)
      ensures at.Some? ==> at.value < |old(party)| && MemberKey(old(party)[at.value]) == KeyOf(bot, sock) && party == SwapOut(old(party), at.value)
    {
      ghost var was := party;
      at := None;
      var i := 0;
      while i < |party|
        invariant 0 <= i
        invariant at.None? ==> party == was && i <= |party| && forall j :: 0 <= j < i ==> MemberKey(party[j]) != KeyOf(bot, sock)
        invariant at.Some? ==> at.value < |was| && MemberKey(was[at.value]) == KeyOf(bot, sock) && party == SwapOut(was, at.value)
        decreases |party| - i
      {
        if at.Some? {
          // Keys are unique: there is no second hit.
          SwapOutAt(was, at.value);
        }
        if SameName(party[i].bot, bot) && party[i].sock == sock {
          var parties := |party| - 1;
          if i < parties {
            party := party[i := party[parties]];
          }
          party := party[..parties];
          at := Some(i);
          assert party == SwapOut(was, i);
        }
        i := i + 1;
      }
      if at.Some? {
        SwapOutTable(was, at.value);
      } else {
        NotThere(was, KeyOf(bot, sock));
        assert Table(was) - {KeyOf(bot, sock)} == Table(was);
      }
    }

    /** rempartybot() */
    method RemBot(bot: string)
      requires Keyed(party)
      modifies this
      ensures Keyed(party) && Table(party) == PartyWithout(old(Table(party)), {bot})
    {
      ghost var was := Table(party);
      var i := 0;
      while i < |party|
        invariant 0 <= i <= |party| && Keyed(party)
        invariant forall j :: 0 <= j < i ==> !SameName(party[j].bot, bot)
        invariant PartyWithout(Table(party), {bot}) == PartyWithout(was, {bot})
        decreases |party| - i
      {
        if SameName(party[i].bot, bot) {
          ghost var before := party;
          DropOne(Table(party), bot, party[i].sock);
          ghost var at := Rem(bot, party[i].sock);
          OnePlace(before, i, at);
          SwapOutAt(before, i);
        } else {
          i := i + 1;
        }
      }
      TableIs(party);
      NoneLeft(party, Table(party), bot);
    }
  }

  lemma OnePlace(ps: seq<Member>, i: nat, at: Option<nat>)
    requires Keyed(ps) && i < |ps|
    requires at.None? ==> MemberKey(ps[i]) !in Table(ps)
    requires at.Some? ==> at.value < |ps| && MemberKey(ps[at.value]) == MemberKey(ps[i])
    ensures at == Some(i)
  {
    TableIs(ps);
  }

  lemma NoneLeft(ps: seq<Member>, m: map<Key, Member>, bot: string)
    requires Files(m, ps) && forall j :: 0 <= j < |ps| ==> !SameName(ps[j].bot, bot)
    ensures PartyWithout(m, {bot}) == m
  {
    forall k | k in m ensures k.0 !in Handles({bot}) {
      var i :| 0 <= i < |ps| && MemberKey(ps[i]) == k;
      assert !SameName(ps[i].bot, bot);
    }
  }

  lemma {:induction false} AppendTable(ps: seq<Member>, m: Member)
    requires Keyed(ps) && MemberKey(m) !in Table(ps)
    ensures Keyed(ps + [m]) && Table(ps + [m]) == Table(ps)[MemberKey(m) := m]
  {
    TableIs(ps);
    var more := ps + [m];
    assert forall i :: 0 <= i < |ps| ==> more[i] == ps[i] && MemberKey(more[i]) != MemberKey(m);
    assert Keyed(more);
    assert Front(more) == ps && Back(more) == m;
  }

  lemma UpdateTable(ps: seq<Member>, i: nat, e: Member)
    requires Keyed(ps) && i < |ps| && MemberKey(e) == MemberKey(ps[i])
    ensures Keyed(ps[i := e]) && Table(ps[i := e]) == Table(ps)[MemberKey(e) := e]
  {
    TableIs(ps);
    UpdateFiles(Table(ps), ps, i, e);
    SameTable(ps[i := e], Table(ps)[MemberKey(e) := e]);
  }

  lemma UpdateFiles(m: map<Key, Member>, ps: seq<Member>, i: nat, e: Member)
    requires Keyed(ps) && i < |ps| && MemberKey(e) == MemberKey(ps[i]) && Files(m, ps)
    ensures Keyed(ps[i := e]) && Files(m[MemberKey(e) := e], ps[i := e])
  {
    var ps' := ps[i := e];
    assert forall j :: 0 <= j < |ps| ==> MemberKey(ps'[j]) == MemberKey(ps[j]);
  }

  lemma DropOne(m: map<Key, Member>, bot: string, sock: int)
    ensures PartyWithout(m - {KeyOf(bot, sock)}, {bot}) == PartyWithout(m, {bot})
  {
    assert HandleOf(bot) in Handles({bot});
  }
}
