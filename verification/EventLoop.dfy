/**
 The threaded event loop as interleaved atomic steps: what runs while the lock
 is held is one step, and any thread may come in between two of them.
 */
module EventLoops {
  import opened Basics
  import opened TimerTables

  /** A timer that fired, and when. */
  datatype Firing = Firing(id: nat, at: int)

  /**
   The loop's fields, with tasks as labels and time in nanoseconds. `busy` says
   that a task is running, with the lock released; `exited` that the loop's
   thread is done. The rest is history: the tasks posted and those run, the
   timers that fired, those cleared while pending, and all deadlines ever set.
   */
  datatype Loop = Loop(
    now: int, queue: seq<int>, timers: seq<Entry<int>>, nextId: nat, stopping: bool, busy: bool, exited: bool,
    posted: seq<int>, ran: seq<int>, fired: seq<Firing>, cleared: set<nat>, deadlines: map<nat, int>)

  const NANOS_PER_MILLI := 1000000

  /** When a timer of so many milliseconds set now falls due. */
  function DueAt(now: int, delay: int): int { now + delay * NANOS_PER_MILLI }

  function NewLoop(now: int): Loop {
    Loop(now, [], [], 1, false, false, false, [], [], [], {}, map[])
  }

  // ---- what any thread may do ----

  function Post(s: Loop, task: int): Loop {
    s.(queue := s.queue + [task], posted := s.posted + [task])
  }

  function SetTimeout(s: Loop, task: int, delay: int): Loop {
    var deadline := DueAt(s.now, delay);
    s.(timers := Emplaced(s.timers, Entry(deadline, s.nextId, task)), nextId := s.nextId + 1,
       deadlines := s.deadlines[s.nextId := deadline])
  }

  predicate IsPending(timers: seq<Entry<int>>, id: nat) {
    exists i :: 0 <= i < |timers| && timers[i].id == id
  }

  function ClearTimeout(s: Loop, id: nat): Loop {
    if IsPending(s.timers, id) then s.(timers := Erased(s.timers, id), cleared := s.cleared + {id}) else s
  }

  function RequestStop(s: Loop): Loop { s.(stopping := true) }

  function Tick(s: Loop, elapsed: nat): Loop { s.(now := s.now + elapsed) }

  // ---- what the loop's thread does ----

  function RunNext(s: Loop): Loop
    requires s.queue != []
  {
    s.(queue := s.queue[1..], ran := s.ran + [s.queue[0]], busy := true)
  }

  function FireNext(s: Loop): Loop
    requires s.timers != []
  {
    s.(timers := s.timers[1..], fired := s.fired + [Firing(s.timers[0].id, s.now)], busy := true)
  }

  /** One turn of the loop, or of draining; a turn with nothing to do waits, and may be woken for no reason. */
  function Turn(s: Loop): Loop {
    if s.busy || s.exited then s
    else if !s.stopping then
      if s.queue != [] then RunNext(s)
      else if s.timers != [] && s.timers[0].deadline <= s.now then FireNext(s)
      else s
    else if s.queue != [] then RunNext(s)
    else s.(timers := [], exited := true)
  }

  /** The running task returns, or throws, and the lock is taken again. */
  function TaskDone(s: Loop): Loop { s.(busy := false) }

  datatype Step =
    | Posting(task: int) | Setting(task: int, delay: int) | Clearing(id: nat) | Stopping
    | Ticking(elapsed: nat) | Turning | Returning

  function Next(s: Loop, step: Step): Loop {
    match step
    case Posting(task) => Post(s, task)
    case Setting(task, delay) => SetTimeout(s, task, delay)
    case Clearing(id) => ClearTimeout(s, id)
    case Stopping => RequestStop(s)
    case Ticking(elapsed) => Tick(s, elapsed)
    case Turning => Turn(s)
    case Returning => TaskDone(s)
  }

  // ---- what always holds ----

  ghost predicate FiredAll(s: Loop) {
    && (forall i, j :: 0 <= i < j < |s.fired| ==> s.fired[i].id != s.fired[j].id)
    && (forall f :: f in s.fired ==>
          f.id in s.deadlines && s.deadlines[f.id] <= f.at <= s.now && f.id !in s.cleared && !IsPending(s.timers, f.id))
  }

  ghost predicate TimersPending(s: Loop) {
    && InOrder(s.timers) && DistinctIds(s.timers)
    && (forall e :: e in s.timers ==> e.id in s.deadlines && s.deadlines[e.id] == e.deadline && e.id !in s.cleared)
  }

  /** First in, first out; each timer fires at most once, not before its deadline, and not after being cleared. */
  ghost predicate Sound(s: Loop) {
    && s.posted == s.ran + s.queue
    && TimersPending(s) && FiredAll(s)
    && (forall id :: id in s.deadlines ==> id < s.nextId) && (forall id :: id in s.cleared ==> id < s.nextId)
    && (s.exited ==> s.stopping)
  }

  lemma {:induction false} PendingIs(timers: seq<Entry<int>>, id: nat)
    ensures IsPending(timers, id) <==> HasId(timers, id)
  {
    if i :| 0 <= i < |timers| && timers[i].id == id { assert timers[i] in timers; }
  }

  lemma {:induction false} NotPendingKept(timers: seq<Entry<int>>, id: nat)
    ensures !IsPending(timers, id) ==> Erased(timers, id) == timers
  {
    if timers != [] && !IsPending(timers, id) {
      var rest := timers[1..];
      assert forall i :: 0 <= i < |rest| ==> rest[i] == timers[i + 1];
      NotPendingKept(rest, id);
      assert timers == [timers[0]] + rest;
    }
  }

  lemma {:induction false} SetSound(s: Loop, task: int, delay: int)
    requires Sound(s)
    ensures Sound(SetTimeout(s, task, delay))
  {
    var e := Entry(DueAt(s.now, delay), s.nextId, task);
    forall a | a in s.timers ensures a.id < s.nextId {}
    EmplacedOrder(s.timers, e);
    EmplacedMembers(s.timers, e);
    EmplacedDistinct(s.timers, e);
    SetFired(s, SetTimeout(s, task, delay), e);
  }

  lemma {:induction false} SetFired(s: Loop, s': Loop, e: Entry<int>)
    requires FiredAll(s) && e.id !in s.deadlines
    requires s' == s.(timers := s'.timers, nextId := s'.nextId, deadlines := s.deadlines[e.id := e.deadline])
    requires forall a :: a in s'.timers <==> a in s.timers || a == e
    ensures FiredAll(s')
  {
    forall f | f in s'.fired ensures !IsPending(s'.timers, f.id) {
      PendingIs(s'.timers, f.id);
      PendingIs(s.timers, f.id);
    }
  }

  lemma {:induction false} ClearSound(s: Loop, id: nat)
    requires Sound(s)
    ensures Sound(ClearTimeout(s, id))
    ensures !IsPending(ClearTimeout(s, id).timers, id)
  {
    var s' := ClearTimeout(s, id);
    if IsPending(s.timers, id) {
      ErasedOrder(s.timers, id);
      ErasedExact(s.timers, id);
      PendingIs(s'.timers, id);
      PendingIs(s.timers, id);
      forall f | f in s.fired ensures f.id !in s'.cleared && !IsPending(s'.timers, f.id) {
        PendingIs(s'.timers, f.id);
        PendingIs(s.timers, f.id);
      }
    }
  }

  lemma {:induction false} FireSound(s: Loop)
    requires Sound(s) && s.timers != [] && s.timers[0].deadline <= s.now
    ensures Sound(FireNext(s))
  {
    var s', e := FireNext(s), s.timers[0];
    assert e in s.timers && IsPending(s.timers, e.id);
    assert forall i :: 0 <= i < |s'.timers| ==> s'.timers[i] == s.timers[i + 1];
    forall a | a in s'.timers ensures a in s.timers && a.id != e.id {
      var i :| 0 <= i < |s'.timers| && s'.timers[i] == a;
      assert s.timers[i + 1] == a;
    }
    forall f | f in s'.fired ensures !IsPending(s'.timers, f.id) && f.id !in s'.cleared {
      PendingIs(s'.timers, f.id);
      PendingIs(s.timers, f.id);
      assert f in s.fired || f.id == e.id;
    }
    forall i, j | 0 <= i < j < |s'.fired| ensures s'.fired[i].id != s'.fired[j].id {
      if j == |s.fired| { assert s.fired[i] in s.fired; }
    }
  }

  lemma {:induction false} NextSound(s: Loop, step: Step)
    requires Sound(s)
    ensures Sound(Next(s, step))
  {
    match step
    case Posting(task) => assert s.ran + (s.queue + [task]) == (s.ran + s.queue) + [task];
    case Setting(task, delay) => SetSound(s, task, delay);
    case Clearing(id) => ClearSound(s, id);
    case Turning =>
      if !s.busy && !s.exited {
        if s.queue != [] {
          assert s.ran + [s.queue[0]] + s.queue[1..] == s.ran + s.queue;
        } else if !s.stopping && s.timers != [] && s.timers[0].deadline <= s.now {
          FireSound(s);
        }
      }
    case _ =>
  }

  // ---- what a step cannot do ----

  /**
   Once stopping, the loop fires no timer; once gone, it runs nothing; and it goes only with every task posted so far
   run.
   */
  lemma {:induction false} StopHolds(s: Loop, step: Step)
    requires Sound(s)
    ensures var s' := Next(s, step);
            && (s.stopping ==> s'.stopping && s'.fired == s.fired)
            && (s.exited ==> s'.exited && s'.ran == s.ran && s'.fired == s.fired)
            && (s'.exited && !s.exited ==> s'.ran == s'.posted && s'.timers == [])
            && s.cleared <= s'.cleared && s.now <= s'.now
  {
    if step.Turning? && !s.busy && !s.exited && s.queue == [] {
      assert s.ran + s.queue == s.ran;
    }
  }

  /** Of what is due, the earliest fires, and only while no task waits. */
  lemma {:induction false} FiresEarliest(s: Loop, step: Step)
    requires Sound(s) && Next(s, step).fired != s.fired
    ensures s.queue == [] && !s.stopping && !s.busy && s.timers != []
    ensures Next(s, step).fired == s.fired + [Firing(s.timers[0].id, s.now)]
    ensures forall e :: e in s.timers ==>
        e == s.timers[0] || Before(s.timers[0].deadline, s.timers[0].id, e.deadline, e.id)
  {
    forall e | e in s.timers && e != s.timers[0]
      ensures Before(s.timers[0].deadline, s.timers[0].id, e.deadline, e.id) {
      var i :| 0 <= i < |s.timers| && s.timers[i] == e;
      assert i > 0;
    }
  }

  // ---- every interleaving ----

  ghost predicate Interleaving(states: seq<Loop>, steps: seq<Step>) {
    && |states| == |steps| + 1
    && (exists now :: states[0] == NewLoop(now))
    && forall i :: 0 <= i < |steps| ==> states[i + 1] == Next(states[i], steps[i])
  }

  /**
   Under every interleaving: tasks run in posting order, and timers fire at most once, never early, never after a
   clear that found them.
   */
  lemma {:induction false} AlwaysSound(states: seq<Loop>, steps: seq<Step>, k: nat)
    requires Interleaving(states, steps) && k <= |steps|
    ensures Sound(states[k])
  {
    if k > 0 {
      AlwaysSound(states, steps, k - 1);
      NextSound(states[k - 1], steps[k - 1]);
    }
  }

  /**
   From the moment stopping is set no timer fires, and from the moment the loop is gone nothing runs; a timer cleared
   while pending never fires.
   */
  lemma {:induction false} NothingAfterStop(states: seq<Loop>, steps: seq<Step>, j: nat, k: nat)
    requires Interleaving(states, steps) && j <= k <= |steps|
    ensures states[j].stopping ==> states[k].stopping && states[k].fired == states[j].fired
    ensures states[j].exited ==> states[k].exited && states[k].ran == states[j].ran
    ensures forall id, f :: id in states[j].cleared && f in states[k].fired ==> f.id != id
    decreases k - j
  {
    AlwaysSound(states, steps, k);
    StopGoesOn(states, steps, j, k);
  }

  lemma {:induction false} StopGoesOn(states: seq<Loop>, steps: seq<Step>, j: nat, k: nat)
    requires Interleaving(states, steps) && j <= k <= |steps|
    ensures states[j].stopping ==> states[k].stopping && states[k].fired == states[j].fired
    ensures states[j].exited ==> states[k].exited && states[k].ran == states[j].ran
    ensures states[j].cleared <= states[k].cleared
    decreases k - j
  {
    if j < k {
      StopGoesOn(states, steps, j, k - 1);
      AlwaysSound(states, steps, k - 1);
      StopHolds(states[k - 1], steps[k - 1]);
    }
  }

  /** The loop goes only once it has run every task posted by then. */
  lemma {:induction false} DrainedBeforeExit(states: seq<Loop>, steps: seq<Step>, k: nat)
    requires Interleaving(states, steps) && k < |steps| && !states[k].exited && states[k + 1].exited
    ensures states[k + 1].ran == states[k + 1].posted && states[k + 1].queue == [] && states[k + 1].timers == []
  {
    AlwaysSound(states, steps, k);
    StopHolds(states[k], steps[k]);
  }

  // ---- the object ----

  class EventLoop {
    var queue: seq<int>
    var timers: seq<Entry<int>>
    var nextTimerId: nat
    var stopping: bool
    ghost var loop: Loop

    /** The history goes with the fields. */
    ghost predicate Valid()
      reads this
    {
      && loop.queue == queue && loop.timers == timers
      && loop.nextId == nextTimerId && loop.stopping == stopping && Sound(loop)
    }

    constructor (ghost now: int)
      ensures Valid() && loop == NewLoop(now)
    {
      queue, timers, nextTimerId, stopping := [], [], 1, false;
      loop := NewLoop(now);
    }

    method Post(task: int)
      requires Valid()
      modifies this
      ensures Valid() && loop == Next(old(loop), Posting(task))
    {
      NextSound(loop, Posting(task));
      queue := queue + [task];
      loop := Next(loop, Posting(task));
    }

    method SetTimeout(task: int, delay: int, now: int) returns (id: nat)
      requires Valid() && now == loop.now
      modifies this
      ensures Valid() && id == old(nextTimerId) && loop == Next(old(loop), Setting(task, delay))
      ensures id in loop.deadlines && loop.deadlines[id] == now + delay * 1_000_000
      ensures Entry(now + delay * 1_000_000, id, task) in timers
    {
      ghost var next := Next(loop, Setting(task, delay));
      NextSound(loop, Setting(task, delay));
      var deadline := DueAt(now, delay);
      assert next.timers == Emplaced(timers, Entry(deadline, nextTimerId, task));
      EmplacedMembers(timers, Entry(deadline, nextTimerId, task));
      id := nextTimerId;
      nextTimerId := nextTimerId + 1;
      timers := Emplaced(timers, Entry(deadline, id, task));
      loop := next;
    }

    method ClearTimeout(id: nat)
      requires Valid()
      modifies this
      ensures Valid() && loop == Next(old(loop), Clearing(id))
    {
      NextSound(loop, Clearing(id));
      NotPendingKept(timers, id);
      timers := EraseById(timers, id);
      loop := Next(loop, Clearing(id));
    }

    method Stop()
      requires Valid()
      modifies this
      ensures Valid() && loop == Next(old(loop), Stopping)
    {
      NextSound(loop, Stopping);
      stopping := true;
      loop := Next(loop, Stopping);
    }

    /**
     One turn of `run` with the lock held: the task to run with the lock released, or none, and whether the thread is
     done.
     */
    method Turn(now: int) returns (task: Option<int>, exited: bool)
      requires Valid() && now == loop.now && !loop.busy && !loop.exited
      modifies this
      ensures Valid() && loop == Next(old(loop), Turning)
      ensures task.Some? == loop.busy && exited == loop.exited
      ensures old(queue) != [] ==> task == Some(old(queue)[0])
      ensures old(queue) == [] ==>
        task == (if !old(stopping) && old(timers) != [] && old(timers)[0].deadline <= now then Some(old(timers)[0].task)
                 else None)
      ensures exited <==> old(stopping) && old(queue) == []
    {
      NextSound(loop, Turning);
      task, exited := None, false;
      if !stopping {
        if queue != [] {
          task := Some(queue[0]);
          queue := queue[1..];
        } else if timers != [] && timers[0].deadline <= now {
          task := Some(timers[0].task);
          timers := timers[1..];
        }
      } else if queue != [] {
        task := Some(queue[0]);
        queue := queue[1..];
      } else {
        timers, exited := [], true;
      }
      loop := Next(loop, Turning);
    }
  }
}
