/** chanprog.c: lists of timers that are emptied and filled again at every tick, while the commands
    of the timers may add and remove timers. */
module Timers {
  import opened Options

  datatype Timer = Timer(id: nat, mins: int, interval: int, count: int)

  // What a command does to the list; what else it does is not part of this.
  datatype Op = Add(elapse: int, count: int) | Kill(id: nat)

  // The commands of the timers, by their ids.
  type Script = nat -> seq<Op>

  // A list, its head first, and the next id to be given out.
  datatype List = List(stack: seq<Timer>, timer_id: nat)

  // add_timer(), without an id to be kept
  function AddTo(l: List, elapse: int, count: int): List {
    List([Timer(l.timer_id, elapse, elapse, count)] + l.stack, l.timer_id + 1)
  }

  function Without(stack: seq<Timer>, id: nat): seq<Timer> {
    if stack == [] then []
    else (if stack[0].id == id then [] else [stack[0]]) + Without(stack[1..], id)
  }

  function Do(l: List, ops: seq<Op>): List {
    if ops == [] then l
    else
      var before := Do(l, ops[..|ops| - 1]);
      match ops[|ops| - 1]
      case Add(elapse, count) => AddTo(before, elapse, count)
      case Kill(id) => before.(stack := Without(before.stack, id))
  }

  function Aged(t: Timer): Timer {
    t.(mins := if t.mins > 0 then t.mins - 1 else t.mins)
  }

  predicate Due(t: Timer) {
    Aged(t).mins == 0
  }

  // The timer after a tick, if it stays.
  function Ticked(t: Timer): Option<Timer> {
    if !Due(t) then Some(Aged(t))
    else if t.count == 1 then None
    else Some(t.(mins := t.interval, count := if t.count > 1 then t.count - 1 else t.count))
  }

  function Push(l: List, t: Option<Timer>): List {
    if t.None? then l else l.(stack := [t.value] + l.stack)
  }

  // The rest of a tick: mark are the timers still to be looked at.
  function Check(mark: seq<Timer>, l: List, script: Script): List
    decreases |mark|
  {
    if mark == [] then l
    else
      var done := if Due(mark[0]) then Do(l, script(mark[0].id)) else l;
      Check(mark[1..], Push(done, Ticked(mark[0])), script)
  }

  // do_check_timers()
  function Tick(l: List, script: Script): List {
    Check(l.stack, List([], l.timer_id), script)
  }

  function Fired(mark: seq<Timer>): seq<nat> {
    if mark == [] then [] else (if Due(mark[0]) then [mark[0].id] else []) + Fired(mark[1..])
  }

  /** A timer goes off at its last tick, and at each tick when none was left; with less than none it only
      waits. */
  lemma DueIs(t: Timer)
    ensures Due(t) <==> t.mins == 0 || t.mins == 1
    ensures t.mins < 0 ==> Ticked(t) == Some(t)
    ensures t.mins > 1 ==> Ticked(t) == Some(Timer(t.id, t.mins - 1, t.interval, t.count))
    ensures t.mins == 0 || t.mins == 1 ==>
            Ticked(t) == if t.count == 1 then None
                         else Some(Timer(t.id, t.interval, t.interval, if t.count > 1 then t.count - 1 else t.count))
  {
  }

  // ---- Ids

  function Get(stack: seq<Timer>, id: nat): Option<Timer> {
    if stack == [] then None
    else if stack[0].id == id then Some(stack[0])
    else Get(stack[1..], id)
  }

  /** Ids are fresh and pairwise distinct. */
  predicate Ids(stack: seq<Timer>, next: nat) {
    && (forall i :: 0 <= i < |stack| ==> 0 < stack[i].id < next)
    && (forall i, j :: 0 <= i < j < |stack| ==> stack[i].id != stack[j].id)
  }

  lemma {:induction false} GetIs(stack: seq<Timer>, next: nat, i: nat)
    requires Ids(stack, next) && i < |stack|
    ensures Get(stack, stack[i].id) == Some(stack[i])
    decreases |stack|
  {
    if i > 0 {
      GetIs(stack[1..], next, i - 1);
    }
  }

  lemma {:induction false} GetNone(stack: seq<Timer>, id: nat)
    ensures Get(stack, id).None? <==> forall i :: 0 <= i < |stack| ==> stack[i].id != id
    ensures Get(stack, id).Some? ==> Get(stack, id).value in stack && Get(stack, id).value.id == id
  {
    if stack != [] {
      GetNone(stack[1..], id);
      assert forall i :: 1 <= i < |stack| ==> stack[i] == stack[1..][i - 1];
      assert forall i :: 0 <= i < |stack[1..]| ==> stack[1..][i] == stack[i + 1];
    }
  }

  lemma {:induction false} WithoutIn(stack: seq<Timer>, id: nat)
    ensures forall i :: 0 <= i < |Without(stack, id)| ==> Without(stack, id)[i] in stack
  {
    if stack != [] {
      WithoutIn(stack[1..], id);
      assert forall t :: t in stack[1..] ==> t in stack;
      assert stack[0] in stack;
    }
  }

  lemma IdsMore(t: Timer, rest: seq<Timer>, next: nat)
    ensures Ids([t] + rest, next) <==> Ids(rest, next) && 0 < t.id < next && forall i :: 0 <= i < |rest| ==> rest[i].id != t.id
  {
    var all := [t] + rest;
    assert forall i :: 0 <= i < |rest| ==> all[i + 1] == rest[i];
    if Ids(all, next) {
      forall i | 0 <= i < |rest| ensures 0 < rest[i].id < next && rest[i].id != t.id {
        assert all[i + 1] == rest[i] && all[0] == t;
      }
      forall i, j | 0 <= i < j < |rest| ensures rest[i].id != rest[j].id {
        assert all[i + 1] == rest[i] && all[j + 1] == rest[j];
      }
    }
  }

  lemma {:induction false} WithoutIds(stack: seq<Timer>, next: nat, id: nat)
    requires Ids(stack, next)
    ensures Ids(Without(stack, id), next)
  {
    if stack != [] {
      var tail := stack[1..];
      assert stack == [stack[0]] + tail;
      IdsMore(stack[0], tail, next);
      WithoutIds(tail, next, id);
      WithoutIn(tail, id);
      IdsMore(stack[0], Without(tail, id), next);
    }
  }

  lemma {:induction false} WithoutGet(stack: seq<Timer>, id: nat, other: nat)
    ensures Get(Without(stack, id), other) == if other == id then None else Get(stack, other)
  {
    if stack != [] {
      var rest := Without(stack[1..], id);
      WithoutGet(stack[1..], id, other);
      if stack[0].id != id {
        assert ([stack[0]] + rest)[1..] == rest;
      } else {
        assert [] + rest == rest;
      }
    }
  }

  lemma WithoutIs(stack: seq<Timer>, next: nat, id: nat, other: nat)
    requires Ids(stack, next)
    ensures Ids(Without(stack, id), next)
    ensures forall i :: 0 <= i < |Without(stack, id)| ==> Without(stack, id)[i] in stack
    ensures Get(Without(stack, id), other) == if other == id then None else Get(stack, other)
  {
    WithoutIds(stack, next, id);
    WithoutIn(stack, id);
    WithoutGet(stack, id, other);
  }

  // ---- One tick

  lemma PushIs(l: List, t: Timer, other: nat)
    requires Ids(l.stack, l.timer_id) && 0 < t.id < l.timer_id && Get(l.stack, t.id).None?
    ensures Ids(Push(l, Some(t)).stack, l.timer_id)
    ensures Get(Push(l, Some(t)).stack, other) == if other == t.id then Some(t) else Get(l.stack, other)
  {
    GetNone(l.stack, t.id);
    assert ([t] + l.stack)[1..] == l.stack;
  }

  // Timers added since ids stood at since have not been touched.
  predicate NewOnes(stack: seq<Timer>, since: nat) {
    forall i :: 0 <= i < |stack| && stack[i].id >= since ==> stack[i].mins == stack[i].interval
  }

  predicate Ok(l: List) {
    0 < l.timer_id && Ids(l.stack, l.timer_id)
  }

  lemma {:induction false} DoKeeps(l: List, ops: seq<Op>, since: nat, id: nat)
    requires Ok(l) && since <= l.timer_id && NewOnes(l.stack, since)
    ensures var m := Do(l, ops);
            && Ok(m) && l.timer_id <= m.timer_id && NewOnes(m.stack, since)
            && (id < l.timer_id ==> Get(m.stack, id) == if Kill(id) in ops then None else Get(l.stack, id))
  {
    if ops != [] {
      var front, last := ops[..|ops| - 1], ops[|ops| - 1];
      DoKeeps(l, front, since, id);
      assert last in ops && forall o :: o in front ==> o in ops;
      OpKeeps(Do(l, front), last, since, id);
    }
  }

  lemma OpKeeps(l: List, op: Op, since: nat, id: nat)
    requires Ok(l) && since <= l.timer_id && NewOnes(l.stack, since)
    ensures var m := Do(l, [op]);
            && Ok(m) && l.timer_id <= m.timer_id && NewOnes(m.stack, since)
            && (id < l.timer_id ==> Get(m.stack, id) == if op == Kill(id) then None else Get(l.stack, id))
    ensures Do(l, [op]) == if op.Add? then AddTo(l, op.elapse, op.count) else l.(stack := Without(l.stack, op.id))
  {
    assert [op][..0] == [];
    match op
    case Add(elapse, count) =>
      var t := Timer(l.timer_id, elapse, elapse, count);
      GetNone(l.stack, t.id);
      assert ([t] + l.stack)[1..] == l.stack;
    case Kill(k) =>
      WithoutIs(l.stack, l.timer_id, k, id);
      var rest := Without(l.stack, k);
      forall i | 0 <= i < |rest| && rest[i].id >= since ensures rest[i].mins == rest[i].interval {
        assert rest[i] in l.stack;
      }
  }

  // Between two timers of a tick: mark is still to be looked at.
  ghost predicate Midway(mark: seq<Timer>, l: List, since: nat) {
    && Ok(l) && since <= l.timer_id && Ids(mark, since) && NewOnes(l.stack, since)
    && forall i :: 0 <= i < |mark| ==> Get(l.stack, mark[i].id).None?
  }

  function CheckOne(t: Timer, l: List, script: Script): List {
    Push(if Due(t) then Do(l, script(t.id)) else l, Ticked(t))
  }

  // The command of a timer tries to remove the timer of that id.
  predicate Hits(t: Timer, script: Script, id: nat) {
    Due(t) && Kill(id) in script(t.id)
  }

  predicate Hit(mark: seq<Timer>, script: Script, id: nat) {
    exists q :: 0 <= q < |mark| && Hits(mark[q], script, id)
  }

  /** Within a tick a removal reaches only what is on the new list already: a timer that has had its turn. */
  predicate Reached(mark: seq<Timer>, script: Script, id: nat) {
    exists p, q :: 0 <= p < q < |mark| && mark[p].id == id && Hits(mark[q], script, id)
  }

  lemma DoneKeeps(mark: seq<Timer>, l: List, since: nat, script: Script, id: nat)
    requires mark != [] && Midway(mark, l, since)
    ensures var done := if Due(mark[0]) then Do(l, script(mark[0].id)) else l;
            && Midway(mark, done, since) && l.timer_id <= done.timer_id
            && (id < since ==> Get(done.stack, id) == if Hits(mark[0], script, id) then None else Get(l.stack, id))
  {
    if Due(mark[0]) {
      DoKeeps(l, script(mark[0].id), since, id);
      forall i | 0 <= i < |mark| ensures Get(Do(l, script(mark[0].id)).stack, mark[i].id).None? {
        DoKeeps(l, script(mark[0].id), since, mark[i].id);
      }
    }
  }

  lemma OneKeeps(mark: seq<Timer>, l: List, since: nat, script: Script, id: nat)
    requires mark != [] && Midway(mark, l, since)
    ensures var m := CheckOne(mark[0], l, script);
            && Midway(mark[1..], m, since) && l.timer_id <= m.timer_id
            && (id < since ==> Get(m.stack, id) == if id == mark[0].id then Ticked(mark[0])
                                                   else if Hits(mark[0], script, id) then None else Get(l.stack, id))
  {
    var t := mark[0];
    var done := if Due(t) then Do(l, script(t.id)) else l;
    DoneKeeps(mark, l, since, script, id);
    if Ticked(t).Some? {
      PushIs(done, Ticked(t).value, id);
      forall i | 0 <= i < |mark[1..]| ensures Get(Push(done, Ticked(t)).stack, mark[1..][i].id).None? {
        PushIs(done, Ticked(t).value, mark[i + 1].id);
      }
    }
  }

  // What becomes of a timer in the rest of a tick.
  function Fate(mark: seq<Timer>, l: List, script: Script, id: nat): Option<Timer> {
    if Get(mark, id).None? then if Hit(mark, script, id) then None else Get(l.stack, id)
    else if Reached(mark, script, id) then None
    else Ticked(Get(mark, id).value)
  }

  lemma {:induction false} CheckKeeps(mark: seq<Timer>, l: List, since: nat, script: Script, id: nat)
    requires Midway(mark, l, since)
    ensures var m := Check(mark, l, script);
            && Ok(m) && l.timer_id <= m.timer_id && NewOnes(m.stack, since)
            && (id < since ==> Get(m.stack, id) == Fate(mark, l, script, id))
    decreases |mark|
  {
    if mark != [] {
      OneKeeps(mark, l, since, script, id);
      CheckKeeps(mark[1..], CheckOne(mark[0], l, script), since, script, id);
      if id < since {
        FateFirst(mark, l, since, script, id);
      }
    }
  }

  lemma FateFirst(mark: seq<Timer>, l: List, since: nat, script: Script, id: nat)
    requires mark != [] && Midway(mark, l, since) && id < since
    ensures Fate(mark, l, script, id) == Fate(mark[1..], CheckOne(mark[0], l, script), script, id)
  {
    OneKeeps(mark, l, since, script, id);
    GetNone(mark[1..], id);
    HitFirst(mark, script, id);
    ReachedFirst(mark, script, id);
  }

  lemma HitFirst(mark: seq<Timer>, script: Script, id: nat)
    requires mark != []
    ensures Hit(mark, script, id) <==> Hits(mark[0], script, id) || Hit(mark[1..], script, id)
  {
    assert forall q :: 1 <= q < |mark| ==> mark[q] == mark[1..][q - 1];
    assert forall q :: 0 <= q < |mark[1..]| ==> mark[1..][q] == mark[q + 1];
  }

  lemma ReachedFirst(mark: seq<Timer>, script: Script, id: nat)
    requires mark != []
    ensures Reached(mark, script, id) <==>
            (mark[0].id == id && Hit(mark[1..], script, id)) || Reached(mark[1..], script, id)
  {
    var rest := mark[1..];
    if p, q :| 0 <= p < q < |mark| && mark[p].id == id && Hits(mark[q], script, id) {
      assert rest[q - 1] == mark[q];
      assert p > 0 ==> rest[p - 1] == mark[p];
    }
    if mark[0].id == id && Hit(rest, script, id) {
      var q :| 0 <= q < |rest| && Hits(rest[q], script, id);
      assert mark[q + 1] == rest[q];
    }
    if p, q :| 0 <= p < q < |rest| && rest[p].id == id && Hits(rest[q], script, id) {
      assert mark[p + 1] == rest[p] && mark[q + 1] == rest[q];
    }
  }

  lemma {:induction false} FiredIs(mark: seq<Timer>, id: nat)
    requires forall i, j :: 0 <= i < j < |mark| ==> mark[i].id != mark[j].id
    ensures id in Fired(mark) <==> Get(mark, id).Some? && Due(Get(mark, id).value)
    decreases |mark|
  {
    if mark != [] {
      FiredIs(mark[1..], id);
      GetNone(mark[1..], id);
    }
  }

  /** A tick ages every timer that was on the list, whatever is added on the way, unless the command of a
      timer behind it in the list removes it, and leaves those that are added untouched; ids stay distinct. */
  lemma TickIs(l: List, script: Script, id: nat)
    requires Ok(l)
    ensures var m := Tick(l, script);
            && Ok(m) && l.timer_id <= m.timer_id && NewOnes(m.stack, l.timer_id)
            && (id < l.timer_id ==>
                  Get(m.stack, id) == if Get(l.stack, id).None? || Reached(l.stack, script, id) then None
                                      else Ticked(Get(l.stack, id).value))
    ensures id in Fired(l.stack) <==> Get(l.stack, id).Some? && Due(Get(l.stack, id).value)
  {
    CheckKeeps(l.stack, List([], l.timer_id), l.timer_id, script, id);
    FiredIs(l.stack, id);
  }

  // ---- Many ticks

  // A tick, or anything else that adds and removes timers.
  datatype Event = Minute(script: Script) | Between(ops: seq<Op>)

  function Step(l: List, e: Event): List {
    match e
    case Minute(script) => Tick(l, script)
    case Between(ops) => Do(l, ops)
  }

  function Run(l: List, es: seq<Event>): List {
    if es == [] then l else Step(Run(l, es[..|es| - 1]), es[|es| - 1])
  }

  function Ticks(es: seq<Event>): nat {
    if es == [] then 0 else Ticks(es[..|es| - 1]) + if es[|es| - 1].Minute? then 1 else 0
  }

  /** Which removals take effect: in between, all; in a tick, those by timers behind it in the list. */
  predicate Removes(l: List, e: Event, id: nat) {
    match e
    case Minute(script) => Reached(l.stack, script, id)
    case Between(ops) => Kill(id) in ops
  }

  // No event does.
  predicate Kept(l: List, es: seq<Event>, id: nat) {
    forall i :: 0 <= i < |es| ==> !Removes(Run(l, es[..i]), es[i], id)
  }

  /** Over every run, ids stay distinct and are never given out twice. */
  lemma {:induction false} RunKeeps(l: List, es: seq<Event>)
    requires Ok(l)
    ensures Ok(Run(l, es)) && l.timer_id <= Run(l, es).timer_id
  {
    if es != [] {
      var before := Run(l, es[..|es| - 1]);
      RunKeeps(l, es[..|es| - 1]);
      match es[|es| - 1]
      case Minute(script) => TickIs(before, script, 0);
      case Between(ops) => DoKeeps(before, ops, before.timer_id, 0);
    }
  }

  // A timer for every e ticks, c times or forever, after j rounds of e ticks and r more.
  function State(id: nat, e: int, c: int, j: nat, r: nat): Option<Timer> {
    if c == 0 || j < c then Some(Timer(id, e - r, e, if c == 0 then 0 else c - j)) else None
  }

  lemma StepState(l: List, ev: Event, id: nat, e: int, c: int, j: nat, r: nat)
    requires Ok(l) && 0 < id < l.timer_id && 1 <= e && 0 <= c && r < e
    requires Get(l.stack, id) == State(id, e, c, j, r)
    ensures Get(Step(l, ev).stack, id) ==
            if Removes(l, ev, id) then None
            else if ev.Between? then State(id, e, c, j, r)
            else if r < e - 1 then State(id, e, c, j, r + 1)
            else State(id, e, c, j + 1, 0)
  {
    match ev
    case Minute(script) => TickIs(l, script, id);
    case Between(ops) => DoKeeps(l, ops, l.timer_id, id);
  }

  // What is gone stays gone.
  lemma StepGone(l: List, ev: Event, id: nat)
    requires Ok(l) && id < l.timer_id && Get(l.stack, id).None?
    ensures Get(Step(l, ev).stack, id).None?
  {
    match ev
    case Minute(script) => TickIs(l, script, id);
    case Between(ops) => DoKeeps(l, ops, l.timer_id, id);
  }

  lemma KeptMore(l: List, es: seq<Event>, id: nat)
    requires es != []
    ensures var front := es[..|es| - 1];
            Kept(l, es, id) <==> Kept(l, front, id) && !Removes(Run(l, front), es[|es| - 1], id)
  {
    var front := es[..|es| - 1];
    forall i | 0 <= i < |front| ensures Removes(Run(l, front[..i]), front[i], id) <==> Removes(Run(l, es[..i]), es[i], id) {
      assert front[..i] == es[..i];
    }
  }

  /** Where a timer stands after a run: it counts its ticks until a removal takes effect. */
  lemma {:induction false} RunState(l: List, es: seq<Event>, id: nat, e: int, c: int) returns (j: nat, r: nat)
    requires Ok(l) && 0 < id < l.timer_id && 1 <= e && 0 <= c && Get(l.stack, id) == State(id, e, c, 0, 0)
    ensures r < e && Ticks(es) == j * e + r
    ensures Get(Run(l, es).stack, id) == if Kept(l, es, id) then State(id, e, c, j, r) else None
  {
    if es == [] {
      j, r := 0, 0;
    } else {
      j, r := RunState(l, es[..|es| - 1], id, e, c);
      MoreState(l, es, id, e, c, j, r);
      if es[|es| - 1].Minute? {
        j, r := OneTick(j, r, e);
      }
    }
  }

  lemma OneTick(j: nat, r: nat, e: int) returns (j': nat, r': nat)
    requires r < e
    ensures j' * e + r' == j * e + r + 1
    ensures if r < e - 1 then j' == j && r' == r + 1 else j' == j + 1 && r' == 0
  {
    j', r' := j, r + 1;
    if r == e - 1 {
      assert (j + 1) * e == j * e + e;
      j', r' := j + 1, 0;
    }
  }

  lemma MoreState(l: List, es: seq<Event>, id: nat, e: int, c: int, j: nat, r: nat)
    requires es != [] && Ok(l) && 0 < id < l.timer_id && 1 <= e && 0 <= c && r < e
    requires var front := es[..|es| - 1];
             Get(Run(l, front).stack, id) == if Kept(l, front, id) then State(id, e, c, j, r) else None
    ensures Get(Run(l, es).stack, id) ==
            if !Kept(l, es, id) then None
            else if es[|es| - 1].Between? then State(id, e, c, j, r)
            else if r < e - 1 then State(id, e, c, j, r + 1)
            else State(id, e, c, j + 1, 0)
  {
    var front, last := es[..|es| - 1], es[|es| - 1];
    RunKeeps(l, front);
    KeptMore(l, es, id);
    if Kept(l, front, id) {
      StepState(Run(l, front), last, id, e, c, j, r);
    } else {
      StepGone(Run(l, front), last, id);
    }
  }

  lemma Mono(a: int, b: int, e: int)
    requires a <= b && 0 <= e
    ensures a * e <= b * e
  {
  }

  lemma NextMultiple(j: nat, r: nat, e: int, m: nat)
    requires 1 <= e && r < e && j * e + r + 1 == m * e
    ensures m == j + 1 && r == e - 1
  {
    assert (j + 2) * e == j * e + 2 * e && (j + 1) * e == j * e + e;
    if m <= j {
      Mono(m, j, e);
      assert false;
    }
    if m >= j + 2 {
      Mono(j + 2, m, e);
      assert false;
    }
  }

  // Tick number n is one at which a timer for every e ticks, c times or forever, is due.
  ghost predicate OnTime(n: nat, e: int, c: int) {
    exists m: nat :: 1 <= m && (c == 0 || m <= c) && n == m * e
  }

  /** A timer for every e ticks fires at the ticks e, 2e, 3e and so on after it was added, c times or
      without end, and at no other tick, whatever is added or removed meanwhile, until a removal of it
      takes effect. */
  lemma FiresOnTime(l: List, es: seq<Event>, id: nat, e: int, c: int)
    requires Ok(l) && 0 < id < l.timer_id && 1 <= e && 0 <= c && Get(l.stack, id) == Some(Timer(id, e, e, c))
    ensures id in Fired(Run(l, es).stack) <==> Kept(l, es, id) && OnTime(Ticks(es) + 1, e, c)
  {
    var j, r := RunState(l, es, id, e, c);
    RunKeeps(l, es);
    FiredIs(Run(l, es).stack, id);
    if id in Fired(Run(l, es).stack) {
      assert (j + 1) * e == j * e + e;
      assert Ticks(es) + 1 == (j + 1) * e;
    }
    if Kept(l, es, id) && OnTime(Ticks(es) + 1, e, c) {
      var m: nat :| 1 <= m && (c == 0 || m <= c) && Ticks(es) + 1 == m * e;
      NextMultiple(j, r, e, m);
    }
  }

  /** It is on the list until it has fired for the last time or a removal takes effect, and gone from
      then on. */
  lemma GoneInTheEnd(l: List, es: seq<Event>, id: nat, e: int, c: int)
    requires Ok(l) && 0 < id < l.timer_id && 1 <= e && 0 <= c && Get(l.stack, id) == Some(Timer(id, e, e, c))
    ensures Get(Run(l, es).stack, id).Some? <==> Kept(l, es, id) && (c == 0 || Ticks(es) < c * e)
  {
    var j, r := RunState(l, es, id, e, c);
    Before(j, r, e, c);
  }

  lemma Before(j: nat, r: nat, e: int, c: int)
    requires r < e
    ensures j * e + r < c * e <==> j < c
  {
    assert (j + 1) * e == j * e + e;
    if j < c {
      Mono(j + 1, c, e);
    } else {
      Mono(c, j, e);
    }
  }

  // ---- The lists in place

  class TimerList {
    var stack: seq<Timer>
    var timer_id: nat

    ghost function Contents(): List
      reads this
    {
      List(stack, timer_id)
    }

    constructor ()
      ensures Contents() == List([], 1) && Ok(Contents())
    {
      stack, timer_id := [], 1;
    }

    /** add_timer() */
    method AddTimer(elapse: int, count: int) returns (id: nat)
      requires Ok(Contents())
      modifies this
      ensures Contents() == AddTo(old(Contents()), elapse, count) && Ok(Contents())
      ensures id == old(timer_id) && Get(stack, id) == Some(Timer(id, elapse, elapse, count))
    {
      OpKeeps(Contents(), Add(elapse, count), timer_id, timer_id);
      id := timer_id;
      timer_id := timer_id + 1;
      stack := [Timer(id, elapse, elapse, count)] + stack;
    }

    /** remove_timer() */
    method RemoveTimer(id: nat) returns (ok: nat)
      requires Ok(Contents())
      modifies this`stack
      ensures Contents() == old(Contents()).(stack := Without(old(stack), id)) && Ok(Contents())
      ensures ok == if Get(old(stack), id).Some? then 1 else 0
    {
      WithoutIs(stack, timer_id, id, id);
      stack, ok := Remove(stack, timer_id, id);
    }

    // What a command does to the list.
    method Command(ops: seq<Op>)
      requires Ok(Contents())
      modifies this
      ensures Contents() == Do(old(Contents()), ops) && Ok(Contents())
    {
      ghost var before := Contents();
      for i := 0 to |ops|
        invariant Contents() == Do(before, ops[..i]) && Ok(Contents())
      {
        assert ops[..i + 1][..i] == ops[..i];
        match ops[i] {
          case Add(elapse, count) =>
            var id := AddTimer(elapse, count);
          case Kill(id) =>
            var ok := RemoveTimer(id);
        }
      }
      assert ops[..|ops|] == ops;
    }

    // One timer of a tick goes off if it is due, and back on the list if it is to stay.
    method CheckTimer(mark: Timer, script: Script) returns (fires: bool)
      requires Ok(Contents())
      modifies this
      ensures Contents() == CheckOne(mark, old(Contents()), script)
      ensures fires == Due(mark)
    {
      var t := mark;
      if t.mins > 0 {
        t := t.(mins := t.mins - 1);
      }
      fires := t.mins == 0;
      if fires {
        Command(script(t.id));
        if t.count == 1 {
          return;
        }
        t := t.(mins := t.interval);
        if t.count > 1 {
          t := t.(count := t.count - 1);
        }
      }
      stack := [t] + stack;
    }

    /** do_check_timers(): fired are the ids of the timers that went off, in order. */
    method CheckTimers(script: Script) returns (fired: seq<nat>)
      requires Ok(Contents())
      modifies this
      ensures Contents() == Tick(old(Contents()), script) && Ok(Contents())
      ensures fired == Fired(old(stack))
    {
      ghost var all, since := stack, timer_id;
      var mark := stack;
      stack, fired := [], [];
      while mark != []
        invariant Midway(mark, Contents(), since)
        invariant Check(mark, Contents(), script) == Check(all, List([], since), script)
        invariant Fired(all) == fired + Fired(mark)
        decreases |mark|
      {
        Onward(mark, Contents(), since, script, fired);
        var fires := CheckTimer(mark[0], script);
        fired := fired + if fires then [mark[0].id] else [];
        mark := mark[1..];
      }
      assert fired + [] == fired;
    }
  }

  lemma Onward(mark: seq<Timer>, l: List, since: nat, script: Script, fired: seq<nat>)
    requires mark != [] && Midway(mark, l, since)
    ensures Midway(mark[1..], CheckOne(mark[0], l, script), since)
    ensures Check(mark, l, script) == Check(mark[1..], CheckOne(mark[0], l, script), script)
    ensures fired + Fired(mark) == fired + (if Due(mark[0]) then [mark[0].id] else []) + Fired(mark[1..])
  {
    OneKeeps(mark, l, since, script, 0);
    CheckFirst(mark, l, script);
    FiredFirst(mark, fired);
  }

  lemma CheckFirst(mark: seq<Timer>, l: List, script: Script)
    requires mark != []
    ensures Check(mark, l, script) == Check(mark[1..], CheckOne(mark[0], l, script), script)
  {
  }

  lemma FiredFirst(mark: seq<Timer>, fired: seq<nat>)
    requires mark != []
    ensures fired + Fired(mark) == fired + (if Due(mark[0]) then [mark[0].id] else []) + Fired(mark[1..])
  {
  }

  // The loop of remove_timer().
  method Remove(stack: seq<Timer>, ghost next: nat, id: nat) returns (kept: seq<Timer>, ok: nat)
    requires Ids(stack, next)
    ensures kept == Without(stack, id)
    ensures ok == if Get(stack, id).Some? then 1 else 0
  {
    kept, ok := [], 0;
    var i := 0;
    assert stack[0..] == stack;
    while i < |stack|
      invariant 0 <= i <= |stack|
      invariant Without(stack, id) == kept + Without(stack[i..], id)
      invariant ok + Found(stack[i..], id) == Found(stack, id)
    {
      assert stack[i..][1..] == stack[i + 1..];
      GetNone(stack[i + 1..], id);
      if stack[i].id == id {
        ok := ok + 1;
      } else {
        kept := kept + [stack[i]];
      }
      i := i + 1;
    }
  }

  function Found(stack: seq<Timer>, id: nat): nat {
    if Get(stack, id).Some? then 1 else 0
  }
}
