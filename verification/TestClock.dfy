/** The virtual-time clock: timers fire inside `advance`, by deadline and then by creation. */
module TestClocks {
  import opened Basics
  import opened TimerTables

  /** What a timer's task does to the clock: a finite tree of timers set and cleared. */
  datatype Task = Task(ops: seq<Op>)

  datatype Op = Set(delay: nat, task: Task) | Clear(id: nat)

  /** The clock's fields; the entries of the multimap are listed in its order. */
  datatype Clock = Clock(now: int, timers: seq<Entry<Task>>, nextId: nat)

  datatype Firing = Firing(deadline: int, id: nat)

  // ---- the operations ----

  function SetTimer(s: Clock, task: Task, delay: int): Clock {
    Clock(s.now, Emplaced(s.timers, Entry(s.now + delay, s.nextId, task)), s.nextId + 1)
  }

  function ClearTimer(s: Clock, id: nat): Clock { s.(timers := Erased(s.timers, id)) }

  function RunOp(s: Clock, op: Op): Clock {
    match op
    case Set(delay, task) => SetTimer(s, task, delay)
    case Clear(id) => ClearTimer(s, id)
  }

  function RunOps(s: Clock, ops: seq<Op>): Clock
    decreases |ops|
  {
    if ops == [] then s
    else RunOps(RunOp(s, ops[0]), ops[1..])
  }

  /** The first timer fires: time moves to its deadline, and its task runs. */
  function Fired(s: Clock): Clock
    requires s.timers != []
  {
    RunOps(Clock(s.timers[0].deadline, s.timers[1..], s.nextId), s.timers[0].task.ops)
  }

  // ---- how much is left to do ----

  function OpWeight(op: Op): nat
    decreases op
  {
    match op
    case Set(_, task) => 1 + OpsWeight(task.ops)
    case Clear(_) => 0
  }

  function OpsWeight(ops: seq<Op>): nat
    decreases ops
  {
    if ops == [] then 0 else OpWeight(ops[0]) + OpsWeight(ops[1..])
  }

  /** All timers there are, and all they can ever set. */
  function Weight(timers: seq<Entry<Task>>): nat {
    if timers == [] then 0 else 1 + OpsWeight(timers[0].task.ops) + Weight(timers[1..])
  }

  lemma {:induction false} WeightConcat(s: seq<Entry<Task>>, t: seq<Entry<Task>>)
    ensures Weight(s + t) == Weight(s) + Weight(t)
    decreases |s|
  {
    if s == [] {
      assert s + t == t;
    } else {
      assert (s + t)[1..] == s[1..] + t;
      WeightConcat(s[1..], t);
    }
  }

  lemma {:induction false} WeightEmplaced(timers: seq<Entry<Task>>, e: Entry<Task>)
    ensures Weight(Emplaced(timers, e)) == Weight(timers) + 1 + OpsWeight(e.task.ops)
  {
    var k := UpperBound(timers, e.deadline);
    WeightConcat(timers[..k], timers[k..]);
    assert timers[..k] + timers[k..] == timers;
    WeightConcat(timers[..k] + [e], timers[k..]);
    WeightConcat(timers[..k], [e]);
    assert Weight([e]) == 1 + OpsWeight(e.task.ops) + Weight([]);
  }

  lemma {:induction false} WeightErased(timers: seq<Entry<Task>>, id: nat)
    ensures Weight(Erased(timers, id)) <= Weight(timers)
  {
    if timers != [] && timers[0].id != id {
      var rest := Erased(timers[1..], id);
      WeightErased(timers[1..], id);
      assert ([timers[0]] + rest)[1..] == rest;
    }
  }

  lemma {:induction false} WeightOps(s: Clock, ops: seq<Op>)
    ensures Weight(RunOps(s, ops).timers) <= Weight(s.timers) + OpsWeight(ops)
    decreases |ops|
  {
    if ops != [] {
      WeightOp(s, ops[0]);
      WeightOps(RunOp(s, ops[0]), ops[1..]);
    }
  }

  lemma {:induction false} WeightOp(s: Clock, op: Op)
    ensures Weight(RunOp(s, op).timers) <= Weight(s.timers) + OpWeight(op)
  {
    match op
    case Set(delay, task) => WeightEmplaced(s.timers, Entry(s.now + delay, s.nextId, task));
    case Clear(id) => WeightErased(s.timers, id);
  }

  /** Every firing leaves strictly less to do. */
  lemma {:induction false} FiringShrinks(s: Clock)
    requires s.timers != []
    ensures Weight(Fired(s).timers) < Weight(s.timers)
  {
    WeightOps(Clock(s.timers[0].deadline, s.timers[1..], s.nextId), s.timers[0].task.ops);
  }

  // ---- advancing ----

  predicate Due(s: Clock, end: int) { s.timers != [] && s.timers[0].deadline <= end }

  /** Firing whatever is due by `end`: the clock afterwards, and what fired, in order. */
  function FireDue(s: Clock, end: int): (Clock, seq<Firing>)
    decreases Weight(s.timers)
  {
    if !Due(s, end) then (s, [])
    else
      FiringShrinks(s);
      var (t, log) := FireDue(Fired(s), end);
      (t, [Firing(s.timers[0].deadline, s.timers[0].id)] + log)
  }

  function Advanced(s: Clock, delta: int): (Clock, seq<Firing>) {
    var (t, log) := FireDue(s, s.now + delta);
    (t.(now := s.now + delta), log)
  }

  // ---- order ----

  /** Listed by deadline and creation, all ids used up, nothing in the past. */
  ghost predicate Valid(s: Clock) {
    && InOrder(s.timers)
    && forall e :: e in s.timers ==> e.id < s.nextId && s.now <= e.deadline
  }

  lemma {:induction false} SetValid(s: Clock, task: Task, delay: nat)
    requires Valid(s)
    ensures Valid(SetTimer(s, task, delay))
    ensures forall e :: e in SetTimer(s, task, delay).timers <==>
        e in s.timers || e == Entry(s.now + delay, s.nextId, task)
  {
    EmplacedOrder(s.timers, Entry(s.now + delay, s.nextId, task));
    EmplacedMembers(s.timers, Entry(s.now + delay, s.nextId, task));
  }

  /** Every entry comes after a given firing. */
  ghost predicate AllAfter(s: Clock, d: int, i: nat) {
    d <= s.now && i < s.nextId && forall e :: e in s.timers ==> Before(d, i, e.deadline, e.id)
  }

  lemma {:induction false} OpsValid(s: Clock, ops: seq<Op>, d: int, i: nat)
    requires Valid(s) && AllAfter(s, d, i)
    ensures Valid(RunOps(s, ops)) && AllAfter(RunOps(s, ops), d, i) && RunOps(s, ops).now == s.now
    decreases |ops|
  {
    if ops != [] {
      match ops[0] {
        case Set(delay, task) =>
          SetValid(s, task, delay);
          OpsValid(SetTimer(s, task, delay), ops[1..], d, i);
        case Clear(id) =>
          ErasedOrder(s.timers, id);
          OpsValid(ClearTimer(s, id), ops[1..], d, i);
      }
    }
  }

  lemma {:induction false} FiredValid(s: Clock)
    requires Valid(s) && s.timers != []
    ensures Valid(Fired(s)) && AllAfter(Fired(s), s.timers[0].deadline, s.timers[0].id)
    ensures Fired(s).now == s.timers[0].deadline
  {
    var first, rest := s.timers[0], s.timers[1..];
    var t := Clock(first.deadline, rest, s.nextId);
    assert first in s.timers;
    assert forall i :: 0 <= i < |rest| ==> rest[i] == s.timers[i + 1];
    forall e | e in rest ensures e in s.timers && Before(first.deadline, first.id, e.deadline, e.id) {
      var i :| 0 <= i < |rest| && rest[i] == e;
      assert s.timers[i + 1] == e;
    }
    OpsValid(t, first.task.ops, first.deadline, first.id);
  }

  ghost predicate LogInOrder(log: seq<Firing>) {
    forall i, j :: 0 <= i < j < |log| ==> Before(log[i].deadline, log[i].id, log[j].deadline, log[j].id)
  }

  /** Firing what is due keeps the clock valid, goes strictly by deadline and creation, and leaves nothing due. */
  lemma {:induction false} FiresInOrder(s: Clock, end: int)
    requires Valid(s)
    ensures var (t, log) := FireDue(s, end);
            && Valid(t) && !Due(t, end) && LogInOrder(log)
            && (forall f :: f in log ==> s.now <= f.deadline <= end)
            && (forall d: int, i: nat :: AllAfter(s, d, i) ==> forall f :: f in log ==> Before(d, i, f.deadline, f.id))
    decreases Weight(s.timers)
  {
    if Due(s, end) {
      var first := s.timers[0];
      assert first in s.timers;
      FiringShrinks(s);
      FiredValid(s);
      FiresInOrder(Fired(s), end);
      var (t, log) := FireDue(Fired(s), end);
      var all := [Firing(first.deadline, first.id)] + log;
      assert forall i :: 0 <= i < |log| ==> log[i] in log;
      forall d: int, i: nat, f | AllAfter(s, d, i) && f in all ensures Before(d, i, f.deadline, f.id) {
        if f in log { assert Before(first.deadline, first.id, f.deadline, f.id); }
      }
    }
  }

  /** Advancing fires strictly by deadline and creation, and leaves no timer due at the new time. */
  lemma {:induction false} AdvanceInOrder(s: Clock, delta: nat)
    requires Valid(s)
    ensures var (t, log) := Advanced(s, delta);
            && Valid(t) && t.now == s.now + delta && (forall e :: e in t.timers ==> e.deadline > t.now)
            && LogInOrder(log) && forall f :: f in log ==> s.now <= f.deadline <= t.now
  {
    FiresInOrder(s, s.now + delta);
    var (t, log) := FireDue(s, s.now + delta);
    forall e | e in t.timers ensures e.deadline > s.now + delta {
      var i :| 0 <= i < |t.timers| && t.timers[i] == e;
      assert i > 0 ==> Before(t.timers[0].deadline, t.timers[0].id, e.deadline, e.id);
    }
  }

  // ---- which timers fire ----

  /** No timer there is has this id, and none to come will. */
  ghost predicate Gone(s: Clock, id: nat) {
    id < s.nextId && forall e :: e in s.timers ==> e.id != id
  }

  lemma {:induction false} OpsGone(s: Clock, ops: seq<Op>, id: nat)
    requires Gone(s, id)
    ensures Gone(RunOps(s, ops), id)
    decreases |ops|
  {
    if ops != [] {
      match ops[0] {
        case Set(delay, task) => EmplacedMembers(s.timers, Entry(s.now + delay, s.nextId, task));
        case Clear(j) => ErasedMembers(s.timers, j);
      }
      OpsGone(RunOp(s, ops[0]), ops[1..], id);
    }
  }

  lemma {:induction false} ErasedMembers(timers: seq<Entry<Task>>, id: nat)
    ensures forall e :: e in Erased(timers, id) ==> e in timers
    ensures forall e :: e in timers && e.id != id ==> e in Erased(timers, id)
  {
    if timers != [] {
      assert forall e :: e in timers <==> e == timers[0] || e in timers[1..];
      ErasedMembers(timers[1..], id);
    }
  }

  lemma {:induction false} GoneNeverFires(s: Clock, end: int, id: nat)
    requires Gone(s, id)
    ensures forall f :: f in FireDue(s, end).1 ==> f.id != id
    decreases Weight(s.timers)
  {
    if Due(s, end) {
      FiringShrinks(s);
      assert s.timers[0] in s.timers && forall e :: e in s.timers[1..] ==> e in s.timers;
      OpsGone(Clock(s.timers[0].deadline, s.timers[1..], s.nextId), s.timers[0].task.ops, id);
      GoneNeverFires(Fired(s), end, id);
    }
  }

  /** A timer that was cleared does not fire, however far time advances. */
  lemma {:induction false} ClearedNeverFires(s: Clock, id: nat, delta: nat)
    requires DistinctIds(s.timers) && id < s.nextId
    ensures forall f :: f in Advanced(ClearTimer(s, id), delta).1 ==> f.id != id
  {
    ErasedExact(s.timers, id);
    GoneNeverFires(ClearTimer(s, id), s.now + delta, id);
  }

  /** Nothing in these, and nothing they lead to, clears the timer. */
  predicate Spares(ops: seq<Op>, id: nat)
    decreases ops
  {
    ops != [] ==> SparesOne(ops[0], id) && Spares(ops[1..], id)
  }

  predicate SparesOne(op: Op, id: nat)
    decreases op
  {
    match op
    case Set(_, task) => Spares(task.ops, id)
    case Clear(j) => j != id
  }

  ghost predicate AllSpare(s: Clock, id: nat) {
    forall e :: e in s.timers ==> Spares(e.task.ops, id)
  }

  lemma {:induction false} OpsSpare(s: Clock, ops: seq<Op>, e: Entry<Task>)
    requires e in s.timers && AllSpare(s, e.id) && Spares(ops, e.id)
    ensures e in RunOps(s, ops).timers && AllSpare(RunOps(s, ops), e.id)
    decreases |ops|
  {
    if ops != [] {
      match ops[0] {
        case Set(delay, task) => EmplacedMembers(s.timers, Entry(s.now + delay, s.nextId, task));
        case Clear(j) => ErasedMembers(s.timers, j);
      }
      OpsSpare(RunOp(s, ops[0]), ops[1..], e);
    }
  }

  lemma {:induction false} SparedFires(s: Clock, end: int, e: Entry<Task>)
    requires Valid(s) && e in s.timers && e.deadline <= end && AllSpare(s, e.id)
    ensures Firing(e.deadline, e.id) in FireDue(s, end).1
    decreases Weight(s.timers)
  {
    var first, rest := s.timers[0], s.timers[1..];
    var i :| 0 <= i < |s.timers| && s.timers[i] == e;
    assert i > 0 ==> Before(first.deadline, first.id, e.deadline, e.id) && rest[i - 1] == e;
    FiringShrinks(s);
    if i > 0 {
      assert first in s.timers && forall x :: x in rest ==> x in s.timers;
      FiredValid(s);
      OpsSpare(Clock(first.deadline, rest, s.nextId), first.task.ops, e);
      SparedFires(Fired(s), end, e);
    }
  }

  /** A timer that falls due while time advances fires, unless a task clears it. */
  lemma {:induction false} DueFires(s: Clock, delta: nat, e: Entry<Task>)
    requires Valid(s) && e in s.timers && e.deadline <= s.now + delta && AllSpare(s, e.id)
    ensures Firing(e.deadline, e.id) in Advanced(s, delta).1
  {
    SparedFires(s, s.now + delta, e);
  }

  /** Firing what is due by `e` is firing what is due by an earlier `d`, letting time pass to `d`, and going on. */
  lemma {:induction false} FireDueSplits(s: Clock, d: int, e: int)
    requires d <= e
    ensures var (t, log) := FireDue(s, d);
            var (u, more) := FireDue(t.(now := d), e);
            var (v, all) := FireDue(s, e);
            u.(now := e) == v.(now := e) && all == log + more
    decreases Weight(s.timers)
  {
    if Due(s, d) {
      FiringShrinks(s);
      FireDueSplits(Fired(s), d, e);
      var f := [Firing(s.timers[0].deadline, s.timers[0].id)];
      var (t, log) := FireDue(Fired(s), d);
      var (u, more) := FireDue(t.(now := d), e);
      AppendAfter(f, log, more);
    } else if Due(s, e) {
      assert Fired(s.(now := d)) == Fired(s);
    }
  }

  /** Advancing twice is advancing once by the sum: same firings, same clock. */
  lemma {:induction false} AdvanceAdditive(s: Clock, x: nat, y: nat)
    ensures var (t, log) := Advanced(s, x);
            var (u, more) := Advanced(t, y);
            Advanced(s, x + y) == (u, log + more)
  {
    FireDueSplits(s, s.now + x, s.now + x + y);
  }

  // ---- the class ----

  class TestClock {
    var now: int
    var timers: seq<Entry<Task>>
    var nextId: nat

    constructor ()
      ensures State() == Clock(0, [], 1) && Valid(State())
    {
      now, timers, nextId := 0, [], 1;
    }

    ghost function State(): Clock
      reads this
    {
      Clock(now, timers, nextId)
    }

    method SetTimeout(task: Task, delay: int) returns (id: nat)
      modifies this
      ensures id == old(nextId) && State() == SetTimer(old(State()), task, delay)
    {
      id := nextId;
      nextId := nextId + 1;
      timers := Emplaced(timers, Entry(now + delay, id, task));
    }

    method ClearTimeout(id: nat)
      modifies this`timers
      ensures State() == ClearTimer(old(State()), id)
    {
      timers := EraseById(timers, id);
    }

    /** Running a task. */
    method Run(task: Task)
      modifies this
      ensures State() == RunOps(old(State()), task.ops)
    {
      var ops := task.ops;
      for i := 0 to |ops|
        invariant RunOps(State(), ops[i..]) == RunOps(old(State()), ops)
      {
        assert ops[i..][1..] == ops[i + 1..];
        match ops[i] {
          case Set(delay, t) => var id := SetTimeout(t, delay);
          case Clear(id) => ClearTimeout(id);
        }
      }
    }

    method Advance(delta: int) returns (ghost fired: seq<Firing>)
      modifies this
      ensures (State(), fired) == Advanced(old(State()), delta)
    {
      var end := now + delta;
      fired := [];
      assert [] + FireDue(State(), end).1 == FireDue(State(), end).1;
      while timers != [] && timers[0].deadline <= end
        invariant end == old(now) + delta
        invariant FireDue(old(State()), end) == (FireDue(State(), end).0, fired + FireDue(State(), end).1)
        decreases Weight(timers)
      {
        FiringShrinks(State());
        ghost var s := State();
        ghost var f := [Firing(timers[0].deadline, timers[0].id)];
        AppendAfter(fired, f, FireDue(Fired(s), end).1);
        now := timers[0].deadline;
        var task := timers[0].task;
        timers := timers[1..];
        Run(task);
        fired := fired + f;
      }
      assert fired + [] == fired;
      now := end;
    }
  }
}
