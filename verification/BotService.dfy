/** dcc.c: events in the order in which they come in, served on the lists in place. */
module BotService {
  import opened BotTree
  import opened BotState
  import opened BotRuns
  import opened BotList
  import opened BotLoss
  import opened BotHandlers

  // What the handler of an event relies on; every run provides it.
  ghost predicate Ready(st: State, e: Event) {
    match e
    case VersionLine(idx, numver, handlen) =>
      idx < |st.dcc| && st.dcc[idx].kind == Linking ==> NameOk(st.dcc[idx].nick)
    case BotLine(idx, text, leaf, isolated, grabbed) =>
      idx < |st.dcc| && st.dcc[idx].kind == Up ==> Known(st, idx, ParseLink(MessageOf(text)).next)
    case _ => true
  }

  lemma InvReady(st: State, e: Event)
    requires Inv(st)
    ensures Ready(st, e)
  {
    match e
    case BotLine(idx, text, leaf, isolated, grabbed) =>
      var next := ParseLink(MessageOf(text)).next;
      if idx < |st.dcc| && st.dcc[idx].kind == Up && NextBot(st, next) == idx {
        ViaFound(st, idx, next);
      }
    case _ =>
  }

  /** dcc_bot() */
  method DccBot(net: Botnet, idx: nat, code: string, msg: string, leaf: bool, isolated: bool, grabbed: int)
    requires net.Valid() && idx < |net.dcc| && Known(net.Abs(), idx, ParseLink(msg).next)
    modifies net, net.pool, net.line
    ensures net.Valid() && fresh(net.pool - old(net.pool))
    ensures net.Abs() == Dispatch(old(net.Abs()), idx, code, msg, leaf, isolated, grabbed)
  {
    if code == "N" || code == "NLINKED" {
      BotNlinked(net, idx, msg, leaf);
    } else if code == "UN" || code == "UNLINKED" {
      BotUnlinked(net, idx, msg);
    } else if code == "U" || code == "UPDATE" {
      BotUpdate(net, msg);
    } else if code == "J" || code == "JOIN" {
      BotJoin(net, idx, msg, isolated, grabbed);
    } else if code == "PT" || code == "PART" {
      BotPart(net, msg, isolated, grabbed);
    } else if code == "TB" || code == "THISBOT" {
      BotThisBot(net, idx, msg);
    } else if code == "BYE" || code == "LINKED" {
      LostDcc(net, idx);
    }
  }

  /** One event, handed to the handler that goes with the connection. */
  method Handle(net: Botnet, e: Event)
    requires net.Valid() && Ready(net.Abs(), e)
    modifies net, net.pool, net.line
    ensures net.Valid() && fresh(net.pool - old(net.pool))
    ensures net.Abs() == Step(old(net.Abs()), e)
  {
    match e
    case Connect(nick, kind) =>
      net.dcc := net.dcc + [Dcc(nick, kind)];
    case VersionLine(idx, numver, handlen) =>
      if idx < |net.dcc| && net.dcc[idx].kind == Linking {
        BotVersion(net, idx, numver, handlen);
      }
    case BotLine(idx, text, leaf, isolated, grabbed) =>
      if idx < |net.dcc| && net.dcc[idx].kind == Up {
        DccBot(net, idx, CodeOf(text), MessageOf(text), leaf, isolated, grabbed);
      }
    case Loss(idx) =>
      if idx < |net.dcc| {
        LostDcc(net, idx);
      }
    case SweepLost =>
      DccRemoveLost(net);
  }

  /** A whole run, from the empty lists on: the lists in place stand, at every moment, for the state
      that the events lead to, and nothing is ever read from a node given back. */
  method Serve(us: string, es: seq<Event>) returns (net: Botnet)
    requires forall i :: 0 <= i < |es| ==> EventOk(es[i])
    ensures net.Valid() && net.Abs() == Run(State(us, [], map[], []), es)
  {
    net := new Botnet(us);
    for i := 0 to |es|
      invariant net.Valid() && fresh(net) && fresh(net.pool) && fresh(net.line)
      invariant net.Abs() == Run(State(us, [], map[], []), es[..i])
    {
      RunReady(us, es, i);
      Handle(net, es[i]);
    }
    assert es[..|es|] == es;
  }

  lemma RunReady(us: string, es: seq<Event>, i: nat)
    requires i < |es| && forall j :: 0 <= j < |es| ==> EventOk(es[j])
    ensures Ready(Run(State(us, [], map[], []), es[..i]), es[i])
    ensures Run(State(us, [], map[], []), es[..i + 1]) == Step(Run(State(us, [], map[], []), es[..i]), es[i])
  {
    RunKeeps(us, es[..i]);
    InvReady(Run(State(us, [], map[], []), es[..i]), es[i]);
    assert es[..i + 1][..i] == es[..i];
  }
}
