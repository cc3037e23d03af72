/** botcmd.c: what each line from a linked bot leads to, from its text. */
module BotLines {
  import opened Options
  import opened Chars
  import opened BotTree
  import opened Wire
  import opened BotState
  import opened BotRuns

  // A word of a line, an int, and what may follow the last word that is read.
  predicate IsWord(s: string) {
    s != "" && ' ' !in s
  }

  predicate IsInt(v: int) {
    -0x8000_0000 <= v < 0x8000_0000
  }

  predicate IsTail(s: string) {
    s == "" || s[0] == ' '
  }

  // The text behind the blank that ends a word.
  function Behind(tail: string): string {
    if tail == "" then "" else tail[1..]
  }

  // An int as it is sent.
  function Sent(v: int): string {
    ToBase64(v % 0x1_0000_0000)
  }

  lemma SentIs(v: int)
    requires IsInt(v)
    ensures IsWord(Sent(v)) && FromBase64(Sent(v)) == v
  {
    Base64RoundTrip(v);
    SixDigits();
    Base64Text(v % 0x1_0000_0000, 6);
  }

  lemma WordThen(word: string, tail: string)
    requires IsWord(word) && IsTail(tail)
    ensures NewSplit(word + tail) == Words(word, Behind(tail))
  {
    if tail == "" {
      WordFirst(word, "");
      assert word + tail == word;
    } else {
      WordFirst(word, tail[1..]);
      assert word + tail == word + " " + tail[1..];
    }
  }

  lemma LineRead(code: string, msg: string)
    requires ' ' !in code
    ensures CodeOf(code + " " + msg) == Upper(code) && MessageOf(code + " " + msg) == msg
  {
    var text := code + " " + msg;
    assert text[|code|] == ' ' && forall k :: 0 <= k < |code| ==> text[k] == code[k];
    assert First(text, ' ') == Some(|code|);
    assert text[..|code|] == code && text[|code| + 1..] == msg;
  }

  // The state after a line with that code and that message.
  function After(st: State, idx: nat, code: string, msg: string, leaf: bool, isolated: bool, grabbed: int): State {
    Step(st, BotLine(idx, code + " " + msg, leaf, isolated, grabbed))
  }

  predicate IsUp(st: State, idx: nat) {
    idx < |st.dcc| && st.dcc[idx].kind == Up
  }

  // One way or the other, the code of a command.
  predicate Means(code: string, short: string, long: string) {
    ' ' !in code && (Upper(code) == short || Upper(code) == long)
  }

  lemma AfterIs(st: State, idx: nat, code: string, msg: string, leaf: bool, isolated: bool, grabbed: int)
    requires IsUp(st, idx) && ' ' !in code
    ensures After(st, idx, code, msg, leaf, isolated, grabbed) == Dispatch(st, idx, Upper(code), msg, leaf, isolated, grabbed)
  {
    LineRead(code, msg);
  }

  lemma PartAfter(st: State, idx: nat, code: string, msg: string, leaf: bool, isolated: bool, grabbed: int)
    requires IsUp(st, idx) && Means(code, "PT", "PART")
    ensures After(st, idx, code, msg, leaf, isolated, grabbed) == Part(st, msg, isolated, grabbed)
  {
    AfterIs(st, idx, code, msg, leaf, isolated, grabbed);
    ToPart(st, idx, Upper(code), msg, leaf, isolated, grabbed);
  }

  lemma ToPart(st: State, idx: nat, code: string, msg: string, leaf: bool, isolated: bool, grabbed: int)
    requires idx < |st.dcc| && (code == "PT" || code == "PART")
    ensures Dispatch(st, idx, code, msg, leaf, isolated, grabbed) == Part(st, msg, isolated, grabbed)
  {
    PartCode(code);
  }

  lemma PartCode(code: string)
    requires code == "PT" || code == "PART"
    ensures code != "N" && code != "NLINKED"
    ensures code != "UN" && code != "UNLINKED"
    ensures code != "U" && code != "UPDATE"
    ensures code != "J" && code != "JOIN"
  {
    assert |code| == 2 || |code| == 4;
    assert code[0] == 'P';
  }

  lemma JoinAfter(st: State, idx: nat, code: string, msg: string, leaf: bool, isolated: bool, grabbed: int)
    requires IsUp(st, idx) && Means(code, "J", "JOIN")
    ensures After(st, idx, code, msg, leaf, isolated, grabbed) == Join(st, idx, msg, isolated, grabbed)
  {
    AfterIs(st, idx, code, msg, leaf, isolated, grabbed);
    ToJoin(st, idx, Upper(code), msg, leaf, isolated, grabbed);
  }

  lemma ToJoin(st: State, idx: nat, code: string, msg: string, leaf: bool, isolated: bool, grabbed: int)
    requires idx < |st.dcc| && (code == "J" || code == "JOIN")
    ensures Dispatch(st, idx, code, msg, leaf, isolated, grabbed) == Join(st, idx, msg, isolated, grabbed)
  {
    JoinCode(code);
  }

  lemma JoinCode(code: string)
    requires code == "J" || code == "JOIN"
    ensures code != "N" && code != "NLINKED"
    ensures code != "UN" && code != "UNLINKED"
    ensures code != "U" && code != "UPDATE"
  {
    assert |code| == 1 || |code| == 4;
    assert code[0] == 'J';
  }

  lemma ThisBotAfter(st: State, idx: nat, code: string, msg: string, leaf: bool, isolated: bool, grabbed: int)
    requires IsUp(st, idx) && Means(code, "TB", "THISBOT")
    ensures After(st, idx, code, msg, leaf, isolated, grabbed) == ThisBot(st, idx, msg)
  {
    AfterIs(st, idx, code, msg, leaf, isolated, grabbed);
    ToThisBot(st, idx, Upper(code), msg, leaf, isolated, grabbed);
  }

  lemma ToThisBot(st: State, idx: nat, code: string, msg: string, leaf: bool, isolated: bool, grabbed: int)
    requires idx < |st.dcc| && (code == "TB" || code == "THISBOT")
    ensures Dispatch(st, idx, code, msg, leaf, isolated, grabbed) == ThisBot(st, idx, msg)
  {
    ThisBotCode(code);
  }

  lemma ThisBotCode(code: string)
    requires code == "TB" || code == "THISBOT"
    ensures code != "N" && code != "NLINKED"
    ensures code != "UN" && code != "UNLINKED"
    ensures code != "U" && code != "UPDATE"
    ensures code != "J" && code != "JOIN"
    ensures code != "PT" && code != "PART"
  {
    assert |code| == 2 || |code| == 7;
    assert code[0] == 'T';
  }

  // ---- Parts

  // Nothing but the party line differs, and nothing there but what is filed under one key.
  ghost predicate OnlyKey(st: State, st': State, key: Key) {
    && st' == st.(party := st'.party)
    && forall k :: k != key ==> (k in st'.party <==> k in st.party) && (k in st.party ==> st'.party[k] == st.party[k])
  }

  function PartText(bang: bool, bot: string, nick: string, sock: int, tail: string): string {
    Banged(bang, bot) + " " + (nick + " " + (Sent(sock) + tail))
  }

  // The name of a bot, with a bang in front when it is just linking.
  function Banged(bang: bool, bot: string): string {
    (if bang then "!" else "") + bot
  }

  lemma BangedIs(bang: bool, bot: string)
    requires IsWord(bot) && bot[0] != '!'
    ensures IsWord(Banged(bang, bot)) && Unbang(Banged(bang, bot)) == bot
  {
    assert "" + bot == bot;
    if bang {
      assert ("!" + bot)[0] == '!' && ("!" + bot)[1..] == bot;
    }
  }

  lemma PartRead(bang: bool, bot: string, nick: string, sock: int, tail: string)
    requires IsWord(bot) && bot[0] != '!' && IsWord(nick) && IsInt(sock) && IsTail(tail)
    ensures ParsePart(PartText(bang, bot, nick, sock, tail)) == (bot, sock)
  {
    var last := Sent(sock) + tail;
    SentIs(sock);
    BangedIs(bang, bot);
    WordFirst(Banged(bang, bot), nick + " " + last);
    WordFirst(nick, last);
    WordThen(Sent(sock), tail);
  }

  /** A part takes the member of that bot and socket off the party line, and nobody else. */
  lemma PartLine(st: State, idx: nat, code: string, bang: bool, bot: string, nick: string, sock: int, tail: string,
                 leaf: bool, isolated: bool, grabbed: int)
    requires IsUp(st, idx) && Means(code, "PT", "PART")
    requires IsWord(bot) && bot[0] != '!' && IsWord(nick) && IsInt(sock) && IsTail(tail)
    ensures var st' := After(st, idx, code, PartText(bang, bot, nick, sock, tail), leaf, isolated, grabbed);
            var key := KeyOf(bot, if sock == 0 then grabbed else sock);
            if isolated then st' == st else OnlyKey(st, st', key) && key !in st'.party
  {
    var text := PartText(bang, bot, nick, sock, tail);
    PartAfter(st, idx, code, text, leaf, isolated, grabbed);
    PartRead(bang, bot, nick, sock, tail);
    if !isolated {
      PartOf(st, text, bot, sock, grabbed);
    }
  }

  lemma PartOf(st: State, text: string, bot: string, sock: int, grabbed: int)
    requires ParsePart(text) == (bot, sock)
    ensures var key := KeyOf(bot, if sock == 0 then grabbed else sock);
            OnlyKey(st, Part(st, text, false, grabbed), key) && key !in Part(st, text, false, grabbed).party
  {
  }

  // ---- Joins

  function JoinText(bang: bool, bot: string, nick: string, chan: int, flag: char, sock: int, tail: string): string {
    Banged(bang, bot) + " " + (nick + " " + (Sent(chan) + " " + (([flag] + Sent(sock)) + tail)))
  }

  lemma LetteredIs(flag: char, v: int)
    requires flag != ' ' && IsInt(v)
    ensures var w := [flag] + Sent(v); IsWord(w) && w[0] == flag && FromBase64(w[1..]) == v
  {
    SentIs(v);
    assert ([flag] + Sent(v))[1..] == Sent(v);
  }

  lemma JoinWords(a: string, b: string, c: string, d: string, tail: string)
    requires IsWord(a) && IsWord(b) && IsWord(c) && IsWord(d) && IsTail(tail)
    ensures ParseJoin(a + " " + (b + " " + (c + " " + (d + tail)))) ==
            if FromBase64(c) < 0 then None
            else Some(Joining(Unbang(a), b, FromBase64(c), d[0], FromBase64(d[1..]), Behind(tail)))
  {
    WordFirst(a, b + " " + (c + " " + (d + tail)));
    WordFirst(b, c + " " + (d + tail));
    WordFirst(c, d + tail);
    WordThen(d, tail);
  }

  lemma JoinRead(bang: bool, bot: string, nick: string, chan: int, flag: char, sock: int, tail: string)
    requires IsWord(bot) && bot[0] != '!' && IsWord(nick) && IsInt(chan) && flag != ' ' && IsInt(sock) && IsTail(tail)
    ensures ParseJoin(JoinText(bang, bot, nick, chan, flag, sock, tail)) ==
            if chan < 0 then None else Some(Joining(bot, nick, chan, flag, sock, Behind(tail)))
  {
    SentIs(chan);
    LetteredIs(flag, sock);
    BangedIs(bang, bot);
    JoinWords(Banged(bang, bot), nick, Sent(chan), [flag] + Sent(sock), tail);
  }

  // Who is filed for a join: someone new, or the one there with a new channel and, if it comes with
  // one, a new letter and origin.
  function Filed(party: map<Key, Member>, key: Key, bot: string, nick: string, chan: int, flag: char, sock: int, from: string)
    : Member
  {
    if key !in party && from == "" then
      Member(bot, if |nick| > 32 then nick[..32] else nick, chan, sock, ' ', "(unknown)")
    else if key !in party then
      Member(bot, if |nick| > 32 then nick[..32] else nick, chan, sock, flag, from)
    else
      var m := party[key];
      Member(m.bot, m.nick, chan, m.sock, if from == "" then m.flag else flag, if from == "" then m.from else from)
  }

  /** A join files that member, as it is written, if its bot is reached over the sender and the channel is
      one; otherwise it changes nothing. */
  lemma JoinLine(st: State, idx: nat, code: string, bang: bool, bot: string, nick: string, chan: int, flag: char, sock: int,
                 tail: string, leaf: bool, isolated: bool, grabbed: int)
    requires IsUp(st, idx) && Means(code, "J", "JOIN")
    requires IsWord(bot) && bot[0] != '!' && IsWord(nick) && IsInt(chan) && flag != ' ' && IsInt(sock) && IsTail(tail)
    ensures var st' := After(st, idx, code, JoinText(bang, bot, nick, chan, flag, sock, tail), leaf, isolated, grabbed);
            var used := if sock == 0 then grabbed else sock;
            var key := KeyOf(bot, used);
            if isolated || chan < 0 || NextBot(st, bot) != idx then st' == st
            else OnlyKey(st, st', key) && key in st'.party &&
                 st'.party[key] == Filed(st.party, key, bot, nick, chan, flag, used, Behind(tail))
  {
    var text := JoinText(bang, bot, nick, chan, flag, sock, tail);
    JoinAfter(st, idx, code, text, leaf, isolated, grabbed);
    JoinRead(bang, bot, nick, chan, flag, sock, tail);
    if chan >= 0 {
      JoinOf(st, idx, Joining(bot, nick, chan, flag, sock, Behind(tail)), grabbed);
    }
  }

  lemma JoinOf(st: State, idx: nat, j: Joining, grabbed: int)
    requires j.flag != ' '
    ensures var st' := JoinAs(st, idx, Some(j), grabbed);
            var used := if j.sock == 0 then grabbed else j.sock;
            var key := KeyOf(j.bot, used);
            if NextBot(st, j.bot) != idx then st' == st
            else OnlyKey(st, st', key) && key in st'.party &&
                 st'.party[key] == Filed(st.party, key, j.bot, j.nick, j.chan, j.flag, used, j.from)
  {
    if NextBot(st, j.bot) == idx {
      JoinedIs(st.party, j, grabbed);
    }
  }

  lemma JoinedIs(party: map<Key, Member>, j: Joining, grabbed: int)
    requires j.flag != ' '
    ensures var used := if j.sock == 0 then grabbed else j.sock;
            var key := KeyOf(j.bot, used);
            Joined(party, j, grabbed) == party[key := Filed(party, key, j.bot, j.nick, j.chan, j.flag, used, j.from)]
  {
  }

  /** Whoever joins and parts again leaves the party line as it was. */
  lemma JoinThenPart(st: State, idx: nat, code: string, more: string, bang: bool, bot: string, nick: string, chan: int, flag: char,
                     sock: int, tail: string, reason: string, leaf: bool, grabbed: int)
    requires IsUp(st, idx) && Means(code, "J", "JOIN") && Means(more, "PT", "PART") && IsTail(tail) && IsTail(reason)
    requires IsWord(bot) && bot[0] != '!' && IsWord(nick) && IsInt(chan) && flag != ' ' && IsInt(sock)
    requires KeyOf(bot, if sock == 0 then grabbed else sock) !in st.party
    ensures var st' := After(st, idx, code, JoinText(bang, bot, nick, chan, flag, sock, tail), leaf, false, grabbed);
            After(st', idx, more, PartText(bang, bot, nick, sock, reason), leaf, false, grabbed) == st
  {
    var key := KeyOf(bot, if sock == 0 then grabbed else sock);
    JoinOnly(st, idx, code, bang, bot, nick, chan, flag, sock, tail, leaf, grabbed);
    var st' := After(st, idx, code, JoinText(bang, bot, nick, chan, flag, sock, tail), leaf, false, grabbed);
    PartLine(st', idx, more, bang, bot, nick, sock, reason, leaf, false, grabbed);
    BackAgain(st, st', After(st', idx, more, PartText(bang, bot, nick, sock, reason), leaf, false, grabbed), key);
  }

  lemma JoinOnly(st: State, idx: nat, code: string, bang: bool, bot: string, nick: string, chan: int, flag: char, sock: int,
                 tail: string, leaf: bool, grabbed: int)
    requires IsUp(st, idx) && Means(code, "J", "JOIN")
    requires IsWord(bot) && bot[0] != '!' && IsWord(nick) && IsInt(chan) && flag != ' ' && IsInt(sock) && IsTail(tail)
    ensures var st' := After(st, idx, code, JoinText(bang, bot, nick, chan, flag, sock, tail), leaf, false, grabbed);
            OnlyKey(st, st', KeyOf(bot, if sock == 0 then grabbed else sock)) && st'.dcc == st.dcc
  {
    JoinLine(st, idx, code, bang, bot, nick, chan, flag, sock, tail, leaf, false, grabbed);
  }

  lemma BackAgain(st: State, st': State, back: State, key: Key)
    requires OnlyKey(st, st', key) && OnlyKey(st', back, key) && key !in st.party && key !in back.party
    ensures back == st
  {
    forall k ensures k in back.party <==> k in st.party {}
    assert back.party == st.party;
  }

  // Who stays when bots go.
  lemma PartyLeft(party: map<Key, Member>, names: set<string>)
    ensures forall k :: k in PartyWithout(party, names) <==> k in party && forall n :: n in names ==> k.0 != HandleOf(n)
    ensures forall k :: k in PartyWithout(party, names) ==> PartyWithout(party, names)[k] == party[k]
  {
    forall k: Key ensures k.0 in Handles(names) <==> exists n :: n in names && k.0 == HandleOf(n) {}
  }

  // ---- Updates

  function UpdateText(bot: string, share: char, ver: int): string {
    bot + " " + ([share] + Sent(ver))
  }

  // The bot of that name, the first one in the list.
  ghost predicate FirstNamed(bs: seq<Bot>, i: nat, who: string)
    requires i < |bs|
  {
    SameName(bs[i].name, who) && forall j :: 0 <= j < i ==> !SameName(bs[j].name, who)
  }

  lemma {:induction false} UpdatedAt(bs: seq<Bot>, who: string, share: Option<char>, ver: int, i: nat)
    requires i < |bs|
    ensures |UpdateBot(bs, who, share, ver)| == |bs|
    ensures UpdateBot(bs, who, share, ver)[i] ==
            if !FirstNamed(bs, i, who) then bs[i]
            else Bot(bs[i].name, bs[i].uplink, bs[i].via, if share.None? then bs[i].share else share.value,
                     if ver == 0 then bs[i].ver else ver)
  {
    if SameName(bs[0].name, who) {
      assert i > 0 ==> !FirstNamed(bs, i, who);
    } else if i > 0 {
      UpdatedAt(bs[1..], who, share, ver, i - 1);
      assert FirstNamed(bs, i, who) <==> FirstNamed(bs[1..], i - 1, who) by {
        assert forall j :: 0 <= j < i - 1 ==> bs[1..][j] == bs[j + 1];
        assert forall j :: 1 <= j < i ==> bs[j] == bs[1..][j - 1];
      }
    } else if |bs| > 1 {
      UpdatedAt(bs[1..], who, share, ver, 0);
    }
  }

  /** An update leaves its letter on the bot that it names, and its version unless that is 0, and changes
      nothing else. */
  lemma UpdateLine(st: State, idx: nat, code: string, bot: string, share: char, ver: int, leaf: bool, isolated: bool, grabbed: int)
    requires IsUp(st, idx) && Means(code, "U", "UPDATE") && IsWord(bot) && IsInt(ver)
    ensures var st' := After(st, idx, code, UpdateText(bot, share, ver), leaf, isolated, grabbed);
            && st' == st.(bots := st'.bots) && |st'.bots| == |st.bots|
            && forall i :: 0 <= i < |st.bots| ==>
                 st'.bots[i] == if FirstNamed(st.bots, i, bot)
                                then st.bots[i].(share := share, ver := if ver == 0 then st.bots[i].ver else ver)
                                else st.bots[i]
  {
    var tail := [share] + Sent(ver);
    AfterIs(st, idx, code, UpdateText(bot, share, ver), leaf, isolated, grabbed);
    WordFirst(bot, tail);
    SentIs(ver);
    assert tail[0] == share && tail[1..] == Sent(ver);
    UpdateOf(st, UpdateText(bot, share, ver), bot, share, ver);
  }

  lemma UpdateOf(st: State, par: string, bot: string, share: char, ver: int)
    requires ParseUpdate(par) == Change(bot, Some(share), ver)
    ensures var st' := Update(st, par);
            && st' == st.(bots := st'.bots) && |st'.bots| == |st.bots|
            && forall i :: 0 <= i < |st.bots| ==>
                 st'.bots[i] == if FirstNamed(st.bots, i, bot)
                                then st.bots[i].(share := share, ver := if ver == 0 then st.bots[i].ver else ver)
                                else st.bots[i]
  {
    forall i | 0 <= i < |st.bots| ensures FirstNamed(st.bots, i, bot) ==> InChain(st, bot) {
      assert SameName(st.bots[i].name, bot) ==> Listed(st.bots, bot);
    }
    forall i | 0 <= i < |st.bots|
      ensures |UpdateBot(st.bots, bot, Some(share), ver)| == |st.bots|
      ensures UpdateBot(st.bots, bot, Some(share), ver)[i] ==
              if FirstNamed(st.bots, i, bot)
              then st.bots[i].(share := share, ver := if ver == 0 then st.bots[i].ver else ver)
              else st.bots[i]
    {
      UpdatedAt(st.bots, bot, Some(share), ver, i);
    }
  }

  // ---- Losses

  /** The loss of a connection marks its entry; with a link go the bot of that name, all behind it and the
      members on them. */
  lemma LossIs(st: State, idx: nat)
    requires Tree(st.us, st.bots) && idx < |st.dcc|
    ensures var st' := Lose(st, idx);
            && st'.us == st.us && st'.dcc == st.dcc[idx := Dcc("", Lost)]
            && (st.dcc[idx].kind != Up || !Listed(st.bots, st.dcc[idx].nick) ==> st'.bots == st.bots && st'.party == st.party)
            && (st.dcc[idx].kind == Up && Listed(st.bots, st.dcc[idx].nick) ==>
                  var gone := Branch(st.bots, Find(st.bots, st.dcc[idx].nick).value.name);
                  st'.bots == Without(st.bots, gone) && st'.party == PartyWithout(st.party, gone))
  {
    CutOffIs(st, st.dcc[idx].nick);
  }

  /** A bye, and an old kind of announcement, cost the sender its link. */
  lemma ByeLine(st: State, idx: nat, code: string, msg: string, leaf: bool, isolated: bool, grabbed: int)
    requires IsUp(st, idx) && Means(code, "BYE", "LINKED")
    ensures After(st, idx, code, msg, leaf, isolated, grabbed) == Lose(st, idx)
  {
    AfterIs(st, idx, code, msg, leaf, isolated, grabbed);
    ToLose(st, idx, Upper(code), msg, leaf, isolated, grabbed);
  }

  lemma ToLose(st: State, idx: nat, code: string, msg: string, leaf: bool, isolated: bool, grabbed: int)
    requires idx < |st.dcc| && (code == "BYE" || code == "LINKED")
    ensures Dispatch(st, idx, code, msg, leaf, isolated, grabbed) == Lose(st, idx)
  {
    ByeCode(code);
  }

  lemma ByeCode(code: string)
    requires code == "BYE" || code == "LINKED"
    ensures code != "N" && code != "NLINKED"
    ensures code != "UN" && code != "UNLINKED"
    ensures code != "U" && code != "UPDATE"
    ensures code != "J" && code != "JOIN"
    ensures code != "PT" && code != "PART"
    ensures code != "TB" && code != "THISBOT"
  {
    assert |code| == 3 || |code| == 6;
    assert code[0] == 'B' || code[0] == 'L';
  }

  // ---- Names

  lemma PartyTwice(party: map<Key, Member>, a: set<string>, b: set<string>)
    requires b <= a
    ensures PartyWithout(PartyWithout(party, a), b) == PartyWithout(party, a)
  {
    assert Handles(b) <= Handles(a);
  }

  // Nobody is behind a bot once all behind it are gone.
  lemma NobodyLeft(us: string, bs: seq<Bot>, b: Bot)
    requires Tree(us, bs) && b in bs
    ensures Below(Without(bs, Below(bs, b.name)), b.name) == {}
  {
    var below := Below(bs, b.name);
    var left := Without(bs, below);
    BelowOfFewer(bs, below, b.name);
    BelowInside(left, b.name);
    WithoutIs(bs, below);
  }

  lemma TwiceCut(st: State, b: Bot)
    requires Tree(st.us, st.bots) && b in st.bots
    ensures CutOff(Unvia(st, b.name), b.name) == CutOff(st, b.name)
  {
    var below := Below(st.bots, b.name);
    var st' := Unvia(st, b.name);
    CutKeepsTree(st.us, st.bots, b.name);
    NotBelowItself(st.us, st.bots, b);
    WithoutIs(st.bots, below);
    FindIs(st.us, st.bots, b, b.name);
    FindIs(st.us, st'.bots, b, b.name);
    CutOffIs(st, b.name);
    CutOffIs(st', b.name);
    NobodyLeft(st.us, st.bots, b);
    WithoutTwice(st.bots, below, {b.name});
    assert {} + {b.name} == {b.name};
    PartyTwice(st.party, below + {b.name}, {b.name});
  }

  lemma CutAlike(st: State, a: string, b: string)
    requires Tree(st.us, st.bots) && SameName(a, b)
    ensures CutOff(st, a) == CutOff(st, b)
  {
    CutOffIs(st, a);
    CutOffIs(st, b);
    if Listed(st.bots, a) {
      FindIs(st.us, st.bots, Find(st.bots, a).value, b);
    }
    forall i | 0 <= i < |st.bots| && SameName(st.bots[i].name, b) ensures Listed(st.bots, a) {
      assert SameName(st.bots[i].name, a);
    }
  }

  /** A bot that names itself as we know it has its connection respelt; one that gives another name loses
      its link. */
  lemma ThisBotLine(st: State, idx: nat, code: string, name: string, leaf: bool, isolated: bool, grabbed: int)
    requires Tree(st.us, st.bots) && IsUp(st, idx) && Means(code, "TB", "THISBOT")
    ensures After(st, idx, code, name, leaf, isolated, grabbed) ==
            if SameName(name, st.dcc[idx].nick) then st.(dcc := st.dcc[idx := Dcc(name, Up)]) else Lose(st, idx)
  {
    ThisBotAfter(st, idx, code, name, leaf, isolated, grabbed);
    if !SameName(name, st.dcc[idx].nick) {
      ImpostorLost(st, idx, name);
    }
  }

  lemma ImpostorLost(st: State, idx: nat, name: string)
    requires Tree(st.us, st.bots) && IsUp(st, idx) && !SameName(name, st.dcc[idx].nick)
    ensures ThisBot(st, idx, name) == Lose(st, idx)
  {
    var nick := st.dcc[idx].nick;
    if Listed(st.bots, nick) {
      var b := Find(st.bots, nick).value;
      UnviaTree(st, b);
      CutAlike(st, nick, b.name);
      CutAlike(Unvia(st, b.name), nick, b.name);
      TwiceCut(st, b);
    }
  }

  lemma UnviaTree(st: State, b: Bot)
    requires Tree(st.us, st.bots) && b in st.bots
    ensures Tree(st.us, Unvia(st, b.name).bots)
  {
    CutKeepsTree(st.us, st.bots, b.name);
  }

  // ---- Announcements and versions

  function LinkText(newbot: string, next: string, share: char, ver: int): string {
    newbot + " " + (next + " " + ([share] + Sent(ver)))
  }

  lemma LinkRead(newbot: string, next: string, share: char, ver: int)
    requires IsWord(newbot) && IsWord(next) && IsInt(ver)
    ensures ParseLink(LinkText(newbot, next, share, ver)) ==
            Announcement(newbot, next, if share == '!' then '-' else share, ver)
  {
    var tail := [share] + Sent(ver);
    SentIs(ver);
    WordFirst(newbot, next + " " + tail);
    WordFirst(next, tail);
    assert tail[0] == share && tail[1..] == Sent(ver);
  }

  /** An announcement appends the new bot behind the one it names; from a leaf, about a bot that is known or
      misnamed, or about one that is not behind the sender, it costs the sender its link. */
  lemma LinkedLine(st: State, idx: nat, code: string, newbot: string, next: string, share: char, ver: int, leaf: bool,
                   isolated: bool, grabbed: int)
    requires Inv(st) && IsUp(st, idx) && Means(code, "N", "NLINKED") && IsWord(newbot) && IsWord(next) && IsInt(ver)
    ensures var st' := After(st, idx, code, LinkText(newbot, next, share, ver), leaf, isolated, grabbed);
            if leaf || InChain(st, newbot) || !NameOk(newbot) || NextBot(st, next) != idx then st' == Lose(st, idx)
            else var up := Find(st.bots, next);
                 up.Some? &&
                 st' == st.(bots := st.bots + [Bot(newbot, Some(up.value.name), up.value.via, if share == '!' then '-' else share, ver)])
  {
    AfterIs(st, idx, code, LinkText(newbot, next, share, ver), leaf, isolated, grabbed);
    LinkRead(newbot, next, share, ver);
    var a := ParseLink(LinkText(newbot, next, share, ver));
    if !Refused(st, idx, a, leaf) {
      AnnouncedBot(st, idx, a.newbot, a.next, a.share, a.ver);
    }
  }

  /** A version line makes a link of a connection that is about to be one, and lists the bot as linked to
      us; an old version, another length of handles or a name on the net already costs the connection. */
  lemma VersionIs(st: State, idx: nat, numver: int, handlen: int)
    requires Inv(st) && idx < |st.dcc| && st.dcc[idx].kind == Linking
    ensures var nick := st.dcc[idx].nick;
            Step(st, VersionLine(idx, numver, handlen)) ==
            if InChain(st, nick) || numver < 1029900 || handlen != 32 then st.(dcc := st.dcc[idx := Dcc("", Lost)])
            else st.(bots := st.bots + [Bot(nick, None, nick, '-', numver)], dcc := st.dcc[idx := Dcc(nick, Up)])
  {
  }

  /** An `unlinked` about a bot behind the sender takes it off with all behind it; about any other, nothing. */
  lemma UnlinkedLine(st: State, idx: nat, code: string, bot: string, tail: string, leaf: bool, isolated: bool, grabbed: int)
    requires Inv(st) && IsUp(st, idx) && Means(code, "UN", "UNLINKED") && IsWord(bot) && IsTail(tail)
    ensures var st' := After(st, idx, code, bot + tail, leaf, isolated, grabbed);
            if NextBot(st, bot) != idx then st' == st
            else Listed(st.bots, bot) &&
                 var gone := Branch(st.bots, Find(st.bots, bot).value.name);
                 st' == st.(bots := Without(st.bots, gone), party := PartyWithout(st.party, gone))
  {
    AfterIs(st, idx, code, bot + tail, leaf, isolated, grabbed);
    WordThen(bot, tail);
    CutOffIs(st, bot);
    NextBotIsFirstHop(st, bot);
  }

  /** Any other line changes nothing here. */
  lemma OtherLine(st: State, idx: nat, code: string, msg: string, leaf: bool, isolated: bool, grabbed: int)
    requires IsUp(st, idx) && ' ' !in code
    requires !Means(code, "N", "NLINKED") && !Means(code, "UN", "UNLINKED") && !Means(code, "U", "UPDATE")
    requires !Means(code, "J", "JOIN") && !Means(code, "PT", "PART") && !Means(code, "TB", "THISBOT")
    requires !Means(code, "BYE", "LINKED")
    ensures After(st, idx, code, msg, leaf, isolated, grabbed) == st
  {
    AfterIs(st, idx, code, msg, leaf, isolated, grabbed);
  }
}
