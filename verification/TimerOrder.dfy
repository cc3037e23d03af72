/** chanprog.c: in which order the timers stand after a tick, which is the order they fire in next. */
module TimerOrder {
  import opened Options
  import opened Timers

  function StackIds(stack: seq<Timer>): (ids: seq<nat>)
    ensures |ids| == |stack|
  {
    if stack == [] then [] else [stack[0].id] + StackIds(stack[1..])
  }

  // The ids that are not dead, in order.
  function Drop(ids: seq<nat>, dead: set<nat>): seq<nat> {
    if ids == [] then [] else (if ids[0] in dead then [] else [ids[0]]) + Drop(ids[1..], dead)
  }

  function Killed(ops: seq<Op>): set<nat> {
    set o | o in ops && o.Kill? :: o.id
  }

  // Whom the commands of these timers remove.
  function Dead(mark: seq<Timer>, script: Script): set<nat> {
    if mark == [] then {} else (if Due(mark[0]) then Killed(script(mark[0].id)) else {}) + Dead(mark[1..], script)
  }

  /** The list after a tick, front first: the later its turn, the further in front a timer stands, and right
      behind it those that its command has added; whom a later command removes is missing. */
  function TurnedRound(mark: seq<Timer>, script: Script, next: nat): seq<nat>
    decreases |mark|
  {
    if mark == [] then []
    else
      var t := mark[0];
      var done := if Due(t) then Do(List([], next), script(t.id)) else List([], next);
      TurnedRound(mark[1..], script, done.timer_id)
      + Drop((if Ticked(t).Some? then [t.id] else []) + StackIds(done.stack), Dead(mark[1..], script))
  }

  // ---- Dropping

  lemma {:induction false} DropJoin(a: seq<nat>, b: seq<nat>, dead: set<nat>)
    ensures Drop(a + b, dead) == Drop(a, dead) + Drop(b, dead)
  {
    if a == [] {
      assert a + b == b;
    } else {
      assert (a + b)[1..] == a[1..] + b;
      DropJoin(a[1..], b, dead);
    }
  }

  lemma {:induction false} DropTwice(ids: seq<nat>, a: set<nat>, b: set<nat>)
    ensures Drop(Drop(ids, a), b) == Drop(ids, a + b)
  {
    if ids != [] {
      DropTwice(ids[1..], a, b);
      DropJoin(if ids[0] in a then [] else [ids[0]], Drop(ids[1..], a), b);
      DropOne(ids[0], b);
    }
  }

  lemma DropOne(id: nat, dead: set<nat>)
    ensures Drop([id], dead) == if id in dead then [] else [id]
    ensures Drop([], dead) == []
  {
    assert [id][1..] == [];
  }

  lemma {:induction false} DropNone(ids: seq<nat>)
    ensures Drop(ids, {}) == ids
  {
    if ids != [] {
      DropNone(ids[1..]);
      assert ids == [ids[0]] + ids[1..];
    }
  }

  // ---- Commands

  lemma {:induction false} IdsWithout(stack: seq<Timer>, id: nat)
    ensures StackIds(Without(stack, id)) == Drop(StackIds(stack), {id})
  {
    if stack != [] {
      IdsWithout(stack[1..], id);
      IdsInFront(stack[0], Without(stack[1..], id));
      assert StackIds(stack)[1..] == StackIds(stack[1..]);
      assert [] + Without(stack[1..], id) == Without(stack[1..], id);
    }
  }

  lemma IdsInFront(t: Timer, stack: seq<Timer>)
    ensures StackIds([t] + stack) == [t.id] + StackIds(stack)
  {
    assert ([t] + stack)[1..] == stack;
  }

  lemma KilledMore(ops: seq<Op>, o: Op)
    ensures Killed(ops + [o]) == Killed(ops) + if o.Kill? then {o.id} else {}
  {
    assert forall p :: p in ops + [o] <==> p in ops || p == o;
  }

  lemma DoMore(l: List, ops: seq<Op>, o: Op)
    ensures var m := Do(l, ops);
            Do(l, ops + [o]) == if o.Add? then AddTo(m, o.elapse, o.count) else m.(stack := Without(m.stack, o.id))
  {
    assert (ops + [o])[..|ops|] == ops;
  }

  // What a command adds stands in front of what was there, less whom it removes.
  lemma {:induction false} DoOrder(l: List, ops: seq<Op>)
    ensures var new_ := Do(List([], l.timer_id), ops);
            && Do(l, ops).timer_id == new_.timer_id
            && StackIds(Do(l, ops).stack) == StackIds(new_.stack) + Drop(StackIds(l.stack), Killed(ops))
  {
    var ids := StackIds(l.stack);
    if ops == [] {
      DropNone(ids);
      assert Killed(ops) == {} && [] + ids == ids;
    } else {
      var front, o := ops[..|ops| - 1], ops[|ops| - 1];
      assert ops == front + [o];
      DoOrder(l, front);
      OneOp(l, front, o);
    }
  }

  lemma OneOp(l: List, ops: seq<Op>, o: Op)
    requires var new_ := Do(List([], l.timer_id), ops);
             && Do(l, ops).timer_id == new_.timer_id
             && StackIds(Do(l, ops).stack) == StackIds(new_.stack) + Drop(StackIds(l.stack), Killed(ops))
    ensures var new_ := Do(List([], l.timer_id), ops + [o]);
            && Do(l, ops + [o]).timer_id == new_.timer_id
            && StackIds(Do(l, ops + [o]).stack) == StackIds(new_.stack) + Drop(StackIds(l.stack), Killed(ops + [o]))
  {
    var new_, old_ := Do(List([], l.timer_id), ops), Do(l, ops);
    DoMore(List([], l.timer_id), ops, o);
    DoMore(l, ops, o);
    KilledMore(ops, o);
    if o.Add? {
      AddOp(new_, old_, o, Drop(StackIds(l.stack), Killed(ops)));
      assert Killed(ops) + {} == Killed(ops);
    } else {
      KillOp(new_, old_, o.id, StackIds(l.stack), Killed(ops));
    }
  }

  lemma AddOp(new_: List, old_: List, o: Op, kept: seq<nat>)
    requires o.Add? && old_.timer_id == new_.timer_id && StackIds(old_.stack) == StackIds(new_.stack) + kept
    ensures StackIds(AddTo(old_, o.elapse, o.count).stack) == StackIds(AddTo(new_, o.elapse, o.count).stack) + kept
  {
    var t := Timer(new_.timer_id, o.elapse, o.elapse, o.count);
    IdsInFront(t, new_.stack);
    IdsInFront(t, old_.stack);
    Grouped([t.id], StackIds(new_.stack), kept);
  }

  lemma KillOp(new_: List, old_: List, id: nat, ids: seq<nat>, dead: set<nat>)
    requires StackIds(old_.stack) == StackIds(new_.stack) + Drop(ids, dead)
    ensures StackIds(Without(old_.stack, id)) == StackIds(Without(new_.stack, id)) + Drop(ids, dead + {id})
  {
    IdsWithout(new_.stack, id);
    IdsWithout(old_.stack, id);
    DropJoin(StackIds(new_.stack), Drop(ids, dead), {id});
    DropTwice(ids, dead, {id});
  }

  predicate Falling(stack: seq<Timer>) {
    forall i, j :: 0 <= i < j < |stack| ==> stack[i].id > stack[j].id
  }

  predicate Between(stack: seq<Timer>, from: nat, to: nat) {
    forall i :: 0 <= i < |stack| ==> from <= stack[i].id < to
  }

  lemma FallsMore(t: Timer, stack: seq<Timer>, from: nat)
    requires Falling(stack) && Between(stack, from, t.id) && from <= t.id
    ensures Falling([t] + stack) && Between([t] + stack, from, t.id + 1)
  {
    var more := [t] + stack;
    assert forall i :: 0 < i < |more| ==> more[i] == stack[i - 1];
  }

  lemma FallsLess(stack: seq<Timer>, from: nat, to: nat)
    requires stack != [] && Falling(stack) && Between(stack, from, to)
    ensures Falling(stack[1..]) && Between(stack[1..], from, stack[0].id)
  {
    assert forall i :: 0 <= i < |stack[1..]| ==> stack[1..][i] == stack[i + 1];
  }

  lemma {:induction false} WithoutFalls(stack: seq<Timer>, id: nat, from: nat, to: nat)
    requires Falling(stack) && Between(stack, from, to)
    ensures Falling(Without(stack, id)) && Between(Without(stack, id), from, to)
  {
    if stack != [] {
      FallsLess(stack, from, to);
      WithoutFalls(stack[1..], id, from, stack[0].id);
      if stack[0].id != id {
        FallsMore(stack[0], Without(stack[1..], id), from);
      } else {
        assert [] + Without(stack[1..], id) == Without(stack[1..], id);
      }
    }
  }

  /** What commands add stands newest first. */
  lemma {:induction false} NewestFirst(next: nat, ops: seq<Op>)
    ensures var l := Do(List([], next), ops);
            next <= l.timer_id && Between(l.stack, next, l.timer_id) && Falling(l.stack)
  {
    if ops != [] {
      var front, o := ops[..|ops| - 1], ops[|ops| - 1];
      var l := Do(List([], next), front);
      NewestFirst(next, front);
      if o.Add? {
        FallsMore(Timer(l.timer_id, o.elapse, o.elapse, o.count), l.stack, next);
      } else {
        WithoutFalls(l.stack, o.id, next, l.timer_id);
      }
    }
  }

  // ---- Ticks

  // One turn: the timer, if it stays, then what its command adds, then the rest.
  lemma TurnOrder(t: Timer, l: List, script: Script)
    ensures var done := if Due(t) then Do(List([], l.timer_id), script(t.id)) else List([], l.timer_id);
            var m := CheckOne(t, l, script);
            && m.timer_id == done.timer_id
            && StackIds(m.stack) == (if Ticked(t).Some? then [t.id] else []) + StackIds(done.stack)
                                    + Drop(StackIds(l.stack), if Due(t) then Killed(script(t.id)) else {})
  {
    var before := if Due(t) then Do(l, script(t.id)) else l;
    var done := if Due(t) then Do(List([], l.timer_id), script(t.id)) else List([], l.timer_id);
    var kept := Drop(StackIds(l.stack), if Due(t) then Killed(script(t.id)) else {});
    if Due(t) {
      DoOrder(l, script(t.id));
    } else {
      DropNone(StackIds(l.stack));
    }
    assert StackIds(before.stack) == StackIds(done.stack) + kept;
    PushOrder(before, Ticked(t), t.id, StackIds(done.stack), kept);
  }

  lemma PushOrder(l: List, t: Option<Timer>, id: nat, a: seq<nat>, b: seq<nat>)
    requires StackIds(l.stack) == a + b && (t.Some? ==> t.value.id == id)
    ensures StackIds(Push(l, t).stack) == (if t.Some? then [id] else []) + a + b
  {
    if t.Some? {
      IdsInFront(t.value, l.stack);
      Grouped([id], a, b);
    } else {
      assert [] + a == a;
    }
  }

  lemma {:induction false} CheckOrder(mark: seq<Timer>, l: List, script: Script)
    ensures StackIds(Check(mark, l, script).stack) ==
            TurnedRound(mark, script, l.timer_id) + Drop(StackIds(l.stack), Dead(mark, script))
    decreases |mark|
  {
    var ids := StackIds(l.stack);
    if mark == [] {
      DropNone(ids);
      assert [] + ids == ids;
    } else {
      CheckOrder(mark[1..], CheckOne(mark[0], l, script), script);
      OneTurn(mark, l, script);
    }
  }

  lemma OneTurn(mark: seq<Timer>, l: List, script: Script)
    requires mark != []
    requires var m := CheckOne(mark[0], l, script);
             StackIds(Check(mark[1..], m, script).stack) ==
             TurnedRound(mark[1..], script, m.timer_id) + Drop(StackIds(m.stack), Dead(mark[1..], script))
    ensures StackIds(Check(mark, l, script).stack) ==
            TurnedRound(mark, script, l.timer_id) + Drop(StackIds(l.stack), Dead(mark, script))
  {
    var t, ids, later := mark[0], StackIds(l.stack), Dead(mark[1..], script);
    var done := if Due(t) then Do(List([], l.timer_id), script(t.id)) else List([], l.timer_id);
    var now := if Due(t) then Killed(script(t.id)) else {};
    var head := (if Ticked(t).Some? then [t.id] else []) + StackIds(done.stack);
    TurnOrder(t, l, script);
    DropJoin(head, Drop(ids, now), later);
    DropTwice(ids, now, later);
    Grouped(TurnedRound(mark[1..], script, done.timer_id), Drop(head, later), Drop(ids, now + later));
    CheckFirst(mark, l, script);
  }

  lemma Grouped(a: seq<nat>, b: seq<nat>, c: seq<nat>)
    ensures a + (b + c) == (a + b) + c
  {
  }

  /** The order after a tick, for every list and every script. */
  lemma TickOrder(l: List, script: Script)
    ensures StackIds(Tick(l, script).stack) == TurnedRound(l.stack, script, l.timer_id)
  {
    CheckOrder(l.stack, List([], l.timer_id), script);
    assert Drop([], Dead(l.stack, script)) == [];
  }

  // The timers that stay, from the last one to the first.
  function Backwards(mark: seq<Timer>): seq<nat> {
    if mark == [] then [] else Backwards(mark[1..]) + if Ticked(mark[0]).Some? then [mark[0].id] else []
  }

  /** When no command adds or removes timers, a tick turns the list round. */
  lemma {:induction false} QuietTurn(mark: seq<Timer>, script: Script, next: nat)
    requires forall i :: 0 <= i < |mark| && Due(mark[i]) ==> script(mark[i].id) == []
    ensures Dead(mark, script) == {} && TurnedRound(mark, script, next) == Backwards(mark)
    decreases |mark|
  {
    if mark != [] {
      var rest := mark[1..];
      forall i | 0 <= i < |rest| && Due(rest[i]) ensures script(rest[i].id) == [] {
        assert rest[i] == mark[i + 1];
      }
      QuietTurn(rest, script, next);
      DropNone((if Ticked(mark[0]).Some? then [mark[0].id] else []) + []);
    }
  }
}
