/** The botnet as a state machine: what each event does to the bot list, the party line and the
    table of connections. */
module BotState {
  import opened Options
  import opened Chars
  import opened BotTree
  import opened Wire

  const NEAT_BOTNET := 1029900

  // Connections: a linked bot, a bot that is about to link, an entry left to be swept, any other.
  datatype Kind = Up | Linking | Lost | Other

  datatype Dcc = Dcc(nick: string, kind: Kind)

  // Someone on the party line of another bot.
  datatype Member = Member(bot: string, nick: string, chan: int, sock: int, flag: char, from: string)

  type Key = (Handle, int)

  function KeyOf(bot: string, sock: int): Key {
    (HandleOf(bot), sock)
  }

  datatype State = State(us: string, bots: seq<Bot>, party: map<Key, Member>, dcc: seq<Dcc>)

  // ---- Queries

  // in_chain()
  predicate InChain(st: State, who: string) {
    Find(st.bots, who).Some? || SameName(who, st.us)
  }

  // The first linked bot of that name among dcc[from..].
  function LinkFrom(dcc: seq<Dcc>, nick: string, from: nat): (j: int)
    requires from <= |dcc|
    ensures j == -1 || from <= j < |dcc|
    ensures j >= 0 ==> dcc[j].kind == Up && SameName(dcc[j].nick, nick)
    ensures j < 0 ==> forall i :: from <= i < |dcc| ==> !(dcc[i].kind == Up && SameName(dcc[i].nick, nick))
    decreases |dcc| - from
  {
    if from == |dcc| then -1
    else if dcc[from].kind == Up && SameName(dcc[from].nick, nick) then from
    else LinkFrom(dcc, nick, from + 1)
  }

  // nextbot()
  function NextBot(st: State, who: string): (j: int)
    ensures j == -1 || 0 <= j < |st.dcc|
  {
    match Find(st.bots, who)
    case None => -1
    case Some(b) => LinkFrom(st.dcc, b.via, 0)
  }

  // ---- Changes

  function Handles(names: set<string>): set<Handle> {
    set n | n in names :: HandleOf(n)
  }

  // The party line without the members on the bots named.
  function PartyWithout(party: map<Key, Member>, names: set<string>): map<Key, Member> {
    map k | k in party && k.0 !in Handles(names) :: party[k]
  }

  // unvia(): drops all behind who, and the members on them and on who.
  function Unvia(st: State, who: string): (st': State)
    ensures st'.us == st.us
  {
    var below := Below(st.bots, who);
    st.(bots := Without(st.bots, below), party := PartyWithout(st.party, below + {who}))
  }

  // rembot(): drops the list entry alone.
  function RemBot(st: State, who: string): (st': State)
    ensures st'.us == st.us
  {
    match Find(st.bots, who)
    case None => st
    case Some(b) => st.(bots := Without(st.bots, {b.name}))
  }

  // unvia() of the bot of that name, if there is one, followed by rembot().
  function CutOff(st: State, who: string): (st': State)
    ensures st'.us == st.us
  {
    match Find(st.bots, who)
    case None => st
    case Some(b) => RemBot(Unvia(st, b.name), who)
  }

  // lostdcc(): a linked bot takes all behind it along.
  function Lose(st: State, idx: nat): (st': State)
    requires idx < |st.dcc|
    ensures st'.us == st.us
  {
    var left := if st.dcc[idx].kind == Up then CutOff(st, st.dcc[idx].nick) else st;
    left.(dcc := left.dcc[idx := Dcc("", Lost)])
  }

  function Shorten(s: string): string {
    if |s| <= HANDLEN then s else s[..HANDLEN]
  }

  // addbot(); from may name the new bot itself. A null pointer is an empty name here.
  function AddBot(st: State, who: string, from: string, next: string, flag: char, ver: int): (st': State)
    ensures st'.us == st.us
  {
    var name := Shorten(who);
    var find := (n: string) => match Find(st.bots, n)
      case Some(b) => b.name
      case None => if SameName(n, name) then name else "";
    var uplink := if SameName(next, st.us) then None else Some(find(next));
    var via := find(from);
    st.(bots := st.bots + [Bot(name, uplink, via, flag, ver)])
  }

  function Updated(b: Bot, share: Option<char>, ver: int): Bot {
    b.(share := if share.Some? then share.value else b.share, ver := if ver != 0 then ver else b.ver)
  }

  // updatebot()
  function UpdateBot(bots: seq<Bot>, who: string, share: Option<char>, ver: int): seq<Bot> {
    if bots == [] then []
    else if SameName(bots[0].name, who) then [Updated(bots[0], share, ver)] + bots[1..]
    else [bots[0]] + UpdateBot(bots[1..], who, share, ver)
  }

  // addparty()
  function AddParty(party: map<Key, Member>, bot: string, nick: string, chan: int, flag: char, sock: int, from: string)
    : map<Key, Member>
  {
    var k := KeyOf(bot, sock);
    var f := if flag == ' ' then '-' else flag;
    if k in party then
      var m := party[k].(chan := chan);
      party[k := if from == "" then m else m.(flag := f, from := from)]
    else
      party[k := if from == "" then Member(bot, Shorten(nick), chan, sock, ' ', "(unknown)")
                 else Member(bot, Shorten(nick), chan, sock, f, from)]
  }

  // ---- Messages from a linked bot

  // The text of an announcement: the new bot, the bot it is linked to, a letter and a version.
  datatype Announcement = Announcement(newbot: string, next: string, share: char, ver: int)

  function ParseLink(par: string): Announcement {
    var w := NewSplit(par);
    var x := NewSplit(w.rest);
    var share := if x.rest == "" then '-' else x.rest[0];
    Announcement(w.first, x.first, if share == '!' then '-' else share,
                 if x.rest == "" then 0 else FromBase64(x.rest[1..]))
  }

  // Announcements that cost the announcer its link: no uplink given, a loop, a bogus name or
  // direction, or a leaf announcing anything.
  predicate Refused(st: State, idx: nat, a: Announcement, leaf: bool) {
    a.next == "" || InChain(st, a.newbot) || !NameOk(a.newbot) || NextBot(st, a.next) != idx || leaf
  }

  // bot_nlinked()
  function Nlinked(st: State, idx: nat, par: string, leaf: bool): (st': State)
    requires idx < |st.dcc|
    ensures st'.us == st.us
  {
    Announce(st, idx, ParseLink(par), leaf)
  }

  function Announce(st: State, idx: nat, a: Announcement, leaf: bool): (st': State)
    requires idx < |st.dcc|
    ensures st'.us == st.us
  {
    if Refused(st, idx, a, leaf) then Lose(st, idx)
    else AddBot(st, a.newbot, st.dcc[idx].nick, a.next, a.share, a.ver)
  }

  // bot_unlinked()
  function Unlinked(st: State, idx: nat, par: string): (st': State)
    ensures st'.us == st.us
  {
    UnlinkedAs(st, idx, NewSplit(par).first)
  }

  function UnlinkedAs(st: State, idx: nat, bot: string): (st': State)
    ensures st'.us == st.us
  {
    if NextBot(st, bot) == idx then CutOff(st, bot) else st
  }

  // The text of an update: a bot, its new letter and its new version; 0 is no version.
  datatype Change = Change(bot: string, share: Option<char>, ver: int)

  function ParseUpdate(par: string): Change {
    var w := NewSplit(par);
    if w.rest == "" then Change(w.first, None, 0) else Change(w.first, Some(w.rest[0]), FromBase64(w.rest[1..]))
  }

  // bot_update()
  function Update(st: State, par: string): (st': State)
    ensures st'.us == st.us
  {
    var c := ParseUpdate(par);
    if InChain(st, c.bot) then st.(bots := UpdateBot(st.bots, c.bot, c.share, c.ver)) else st
  }

  // bot_thisbot(): takes over the spelling of its own name, or drops an impostor.
  function ThisBot(st: State, idx: nat, par: string): (st': State)
    requires idx < |st.dcc|
    ensures st'.us == st.us
  {
    var nick := st.dcc[idx].nick;
    if SameName(par, nick) then
      st.(dcc := st.dcc[idx := st.dcc[idx].(nick := par)])
    else
      match Find(st.bots, nick)
      case None => Lose(st, idx)
      case Some(b) => Lose(Unvia(st, b.name), idx)
  }

  function Unbang(bot: string): string {
    if bot != "" && bot[0] == '!' then bot[1..] else bot
  }

  // The text of a join: a user of a bot, on a channel, with a letter and a socket number; 0 is
  // none. Without channel or letter there is nothing to do.
  datatype Joining = Joining(bot: string, nick: string, chan: int, flag: char, sock: int, from: string)

  function ParseJoin(par: string): Option<Joining> {
    var w1 := NewSplit(par);
    var w2 := NewSplit(w1.rest);
    var w3 := NewSplit(w2.rest);
    var w4 := NewSplit(w3.rest);
    if FromBase64(w3.first) < 0 || w4.first == "" then None
    else Some(Joining(Unbang(w1.first), w2.first, FromBase64(w3.first), w4.first[0], FromBase64(w4.first[1..]), w4.rest))
  }

  // bot_join(); grabbed is the socket number made up for a join that carries none.
  function Join(st: State, idx: nat, par: string, isolated: bool, grabbed: int): (st': State)
    ensures st'.us == st.us
  {
    JoinAs(st, idx, if isolated then None else ParseJoin(par), grabbed)
  }

  function JoinAs(st: State, idx: nat, j: Option<Joining>, grabbed: int): (st': State)
    ensures st'.us == st.us
  {
    if j.None? || NextBot(st, j.value.bot) != idx then st
    else st.(party := Joined(st.party, j.value, grabbed))
  }

  function Joined(party: map<Key, Member>, j: Joining, grabbed: int): map<Key, Member> {
    AddParty(party, j.bot, j.nick, j.chan, j.flag, if j.sock == 0 then grabbed else j.sock, j.from)
  }

  // The text of a part: a user's bot and socket number.
  function ParsePart(par: string): (string, int) {
    var w1 := NewSplit(par);
    var w2 := NewSplit(w1.rest);
    var w3 := NewSplit(w2.rest);
    (Unbang(w1.first), FromBase64(w3.first))
  }

  // bot_part()
  function Part(st: State, par: string, isolated: bool, grabbed: int): (st': State)
    ensures st'.us == st.us
  {
    if isolated then st
    else
      var (bot, sock) := ParsePart(par);
      Leave(st, bot, if sock == 0 then grabbed else sock)
  }

  function Leave(st: State, bot: string, sock: int): (st': State)
    ensures st'.us == st.us
  {
    st.(party := st.party - {KeyOf(bot, sock)})
  }

  // The first word of a line in upper case, and what follows it and one blank.
  function CodeOf(text: string): string {
    match First(text, ' ')
    case None => Upper(text)
    case Some(i) => Upper(text[..i])
  }

  function MessageOf(text: string): string {
    match First(text, ' ')
    case None => ""
    case Some(i) => text[i + 1..]
  }

  // dcc_bot(): the first word selects the handler.
  function Dispatch(st: State, idx: nat, code: string, msg: string, leaf: bool, isolated: bool, grabbed: int): (st': State)
    requires idx < |st.dcc|
    ensures st'.us == st.us
  {
    if code == "N" || code == "NLINKED" then Nlinked(st, idx, msg, leaf)
    else if code == "UN" || code == "UNLINKED" then Unlinked(st, idx, msg)
    else if code == "U" || code == "UPDATE" then Update(st, msg)
    else if code == "J" || code == "JOIN" then Join(st, idx, msg, isolated, grabbed)
    else if code == "PT" || code == "PART" then Part(st, msg, isolated, grabbed)
    else if code == "TB" || code == "THISBOT" then ThisBot(st, idx, msg)
    else if code == "BYE" || code == "LINKED" then Lose(st, idx)
    else st
  }

  function Line(st: State, idx: nat, text: string, leaf: bool, isolated: bool, grabbed: int): (st': State)
    requires idx < |st.dcc|
    ensures st'.us == st.us
  {
    Dispatch(st, idx, CodeOf(text), MessageOf(text), leaf, isolated, grabbed)
  }

  // bot_version(): completes the link of a bot that is not on the net yet.
  function Version(st: State, idx: nat, numver: int, handlen: int): (st': State)
    requires idx < |st.dcc|
    ensures st'.us == st.us
  {
    var nick := st.dcc[idx].nick;
    if InChain(st, nick) || numver < NEAT_BOTNET || handlen != HANDLEN then
      Lose(st, idx)
    else
      AddBot(st.(dcc := st.dcc[idx := Dcc(nick, Up)]), nick, nick, st.us, '-', numver)
  }

  // dcc_remove_lost(): closes gaps with the last entry.
  function Sweep(dcc: seq<Dcc>, i: nat): seq<Dcc>
    requires i <= |dcc|
    decreases |dcc| - i
  {
    if i == |dcc| then dcc
    else if dcc[i].kind == Lost then
      var last := |dcc| - 1;
      Sweep(dcc[i := dcc[last]][..last], i)
    else Sweep(dcc, i + 1)
  }

  // ---- Runs

  datatype Event =
    | Connect(nick: string, kind: Kind)
    | VersionLine(idx: nat, numver: int, handlen: int)
    | BotLine(idx: nat, text: string, leaf: bool, isolated: bool, grabbed: int)
    | Loss(idx: nat)
    | SweepLost

  // Handles are fit to be bot names, and nothing starts out as a linked bot.
  predicate EventOk(e: Event) {
    e.Connect? ==> e.kind != Up && (e.kind == Linking ==> NameOk(e.nick))
  }

  // Lines reach the handler that goes with the kind of the connection.
  function Step(st: State, e: Event): (st': State)
    ensures st'.us == st.us
  {
    match e
    case Connect(nick, kind) => st.(dcc := st.dcc + [Dcc(nick, kind)])
    case VersionLine(idx, numver, handlen) =>
      if idx < |st.dcc| && st.dcc[idx].kind == Linking then Version(st, idx, numver, handlen) else st
    case BotLine(idx, text, leaf, isolated, grabbed) =>
      if idx < |st.dcc| && st.dcc[idx].kind == Up then Line(st, idx, text, leaf, isolated, grabbed) else st
    case Loss(idx) => if idx < |st.dcc| then Lose(st, idx) else st
    case SweepLost => st.(dcc := Sweep(st.dcc, 0))
  }

  function Run(st: State, es: seq<Event>): (st': State)
    ensures st'.us == st.us
    decreases |es|
  {
    if es == [] then st else Step(Run(st, es[..|es| - 1]), es[|es| - 1])
  }

  // ---- The invariant

  ghost predicate Reached(dcc: seq<Dcc>, nick: string) {
    exists j :: 0 <= j < |dcc| && dcc[j].kind == Up && SameName(dcc[j].nick, nick)
  }

  /** The bots form a tree, direct neighbours have a live connection, members are filed under their
      own key and sit on listed bots. */
  ghost predicate Inv(st: State) {
    && Tree(st.us, st.bots)
    && (forall b :: b in st.bots && b.uplink.None? ==> Reached(st.dcc, b.name))
    && (forall j :: 0 <= j < |st.dcc| && (st.dcc[j].kind == Up || st.dcc[j].kind == Linking) ==> NameOk(st.dcc[j].nick))
    && (forall k :: k in st.party ==> k == KeyOf(st.party[k].bot, st.party[k].sock) && Listed(st.bots, st.party[k].bot))
  }

  ghost predicate PartyOk(bots: seq<Bot>, party: map<Key, Member>) {
    forall k :: k in party ==> k == KeyOf(party[k].bot, party[k].sock) && Listed(bots, party[k].bot)
  }

  lemma LinkOfReached(dcc: seq<Dcc>, nick: string)
    ensures Reached(dcc, nick) <==> LinkFrom(dcc, nick, 0) >= 0
  {
  }

  /** nextbot() answers for every listed bot, with a live connection to the neighbour from which
      every path to that bot starts; a listed bot without a connection does not occur. */
  lemma NextBotIsFirstHop(st: State, who: string)
    requires Inv(st)
    ensures NextBot(st, who) >= 0 <==> Listed(st.bots, who)
    ensures NextBot(st, who) >= 0 ==>
            var hop := st.dcc[NextBot(st, who)];
            && hop.kind == Up
            && forall path: seq<Bot> :: IsPath(st.bots, path) && SameName(Back(path).name, who) ==> SameName(hop.nick, path[0].name)
  {
    if Listed(st.bots, who) {
      var b := Find(st.bots, who).value;
      var p := PathTo(st.us, st.bots, b);
      ViaStartsPath(st.us, st.bots, p);
      LinkOfReached(st.dcc, b.via);
      forall path: seq<Bot> | IsPath(st.bots, path) && SameName(Back(path).name, who)
        ensures path[0].name == b.via
      {
        OneOfAName(st.us, st.bots, b, Back(path));
        ViaStartsPath(st.us, st.bots, path);
      }
    }
  }
}
