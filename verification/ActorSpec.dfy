/**
 The actor runtime as functions on the state of a whole system: the actors by
 session number, the timers pending in the clock, and the executor's queue.
 What an actor's logic answers is an argument.
 */
module ActorSpecs {
  import opened Basics
  import opened Keys
  import opened StateNodes
  import opened Actions
  import F = Finals

  /** An actor's fields. An actor whose last owner let go of it is no longer alive. */
  datatype Actor = Actor(
    alive: bool, id: string, parent: int, status: Option<F.Status>, timers: map<string, nat>,
    children: map<string, nat>, completionReported: bool, startRequested: bool)

  /** Who set a timer, under which send id, and what it delivers where. */
  datatype Pending = Pending(actor: nat, sendId: string, event: Event, target: string)

  datatype Job = StartJob(actor: nat) | ReceiveJob(actor: nat, event: Event) | StopJob(actor: nat)

  /** `missed` counts the timers cleared that were not pending, `reports` lists who has reported its completion. */
  datatype Sys = Sys(
    actors: seq<Actor>, pending: map<nat, Pending>, nextTimer: nat, queue: seq<Job>,
    registry: map<string, nat>, factories: set<string>, missed: nat, reports: seq<nat>)

  // ---- clock and executor ----

  function Post(s: Sys, job: Job): Sys { s.(queue := s.queue + [job]) }

  function SetTimeout(s: Sys, p: Pending): Sys {
    s.(pending := s.pending[s.nextTimer := p], nextTimer := s.nextTimer + 1)
  }

  function ClearTimeout(s: Sys, t: nat): Sys {
    if t in s.pending then s.(pending := s.pending - {t}) else s.(missed := s.missed + 1)
  }

  // ---- effects ----

  function Put(s: Sys, a: nat, actor: Actor): Sys
    requires a < |s.actors|
  {
    s.(actors := s.actors[a := actor])
  }

  /** The actor a target names, if there is one. */
  function Resolve(s: Sys, a: nat, target: string): Option<nat>
    requires a < |s.actors|
  {
    if target == "" then Some(a)
    else if target == PARENT then
      var p := s.actors[a].parent;
      if 0 <= p < |s.actors| && s.actors[p].alive then Some(p) else None
    else if target in s.actors[a].children then Some(s.actors[a].children[target])
    else if target in s.registry then Some(s.registry[target])
    else None
  }

  function Deliver(s: Sys, a: nat, target: string, event: Event): Sys
    requires a < |s.actors|
  {
    match Resolve(s, a, target)
    case None => s
    case Some(t) => Post(s, ReceiveJob(t, event))
  }

  /** Setting a timer under a send id that has one replaces it. */
  function StartTimerOf(s: Sys, a: nat, sendId: string, event: Event, target: string): Sys
    requires a < |s.actors|
  {
    var timers := s.actors[a].timers;
    var s1 := if sendId in timers then ClearTimeout(s, timers[sendId]) else s;
    var s2 := SetTimeout(s1, Pending(a, sendId, event, target));
    Put(s2, a, s2.actors[a].(timers := timers[sendId := s1.nextTimer]))
  }

  function CancelTimerOf(s: Sys, a: nat, sendId: string): Sys
    requires a < |s.actors|
  {
    var timers := s.actors[a].timers;
    if sendId !in timers then s
    else
      var s1 := ClearTimeout(s, timers[sendId]);
      Put(s1, a, s1.actors[a].(timers := timers - {sendId}))
  }

  function Born(id: string, parent: int): Actor {
    Actor(true, id, parent, None, map[], map[], false, false)
  }

  function Start(s: Sys, a: nat): Sys
    requires a < |s.actors|
  {
    if s.actors[a].startRequested then s
    else Post(Put(s, a, s.actors[a].(startRequested := true)), StartJob(a))
  }

  function SpawnOf(s: Sys, a: nat, id: string, src: string): Sys
    requires a < |s.actors|
  {
    if src !in s.factories then s
    else
      var child := |s.actors|;
      var s1 := s.(actors := s.actors + [Born(id, a)]);
      Start(Put(s1, a, s1.actors[a].(children := s1.actors[a].children[id := child])), child)
  }

  function StopChildOf(s: Sys, a: nat, id: string): Sys
    requires a < |s.actors|
  {
    var children := s.actors[a].children;
    if id !in children then s
    else
      var s1 := Post(s, StopJob(children[id]));
      Put(s1, a, s1.actors[a].(children := children - {id}))
  }

  function ApplyEffect(s: Sys, a: nat, e: Effect): (s': Sys)
    requires a < |s.actors|
    ensures |s.actors| <= |s'.actors|
  {
    match e
    case Send(_, target, event) => Deliver(s, a, target, event)
    case StartTimer(id, target, event, _) => StartTimerOf(s, a, id, event, target)
    case CancelTimer(id) => CancelTimerOf(s, a, id)
    case SpawnChild(id, src, _) => SpawnOf(s, a, id, src)
    case StopChild(id) => StopChildOf(s, a, id)
    case EmitEffect(_) => s
    case LogEffect(_) => s
  }

  function ApplyEffects(s: Sys, a: nat, effects: seq<Effect>): (s': Sys)
    requires a < |s.actors|
    ensures |s.actors| <= |s'.actors|
    decreases |effects|
  {
    if effects == [] then s else ApplyEffects(ApplyEffect(s, a, effects[0]), a, effects[1..])
  }

  // ---- lifecycle ----

  function SetStatus(s: Sys, a: nat, status: F.Status): Sys
    requires a < |s.actors|
  {
    Put(s, a, s.actors[a].(status := Some(status)))
  }

  function CompletionEvent(actor: Actor): Event {
    Event((if actor.status == Some(F.Done) then "xstate.done.actor." else "xstate.error.actor.") + actor.id, None)
  }

  /** A finished actor tells its parent, once. */
  function Report(s: Sys, a: nat): Sys
    requires a < |s.actors|
  {
    var actor := s.actors[a];
    if actor.completionReported then s
    else if !(0 <= actor.parent < |s.actors| && s.actors[actor.parent].alive) then s
    else if actor.status != Some(F.Done) && actor.status != Some(F.Error) then s
    else
      var s1 := Put(s, a, actor.(completionReported := true));
      Post(s1, ReceiveJob(actor.parent, CompletionEvent(actor))).(reports := s1.reports + [a])
  }

  function BecomeError(s: Sys, a: nat): Sys
    requires a < |s.actors|
  {
    Report(SetStatus(s, a, F.Error), a)
  }

  /**
   What the logic made of an event: an exception once some effects were done, or a new status with effects; and
   whether an observer threw at the end.
   */
  datatype Outcome = Throws(done: seq<Effect>) | Yields(status: F.Status, effects: seq<Effect>, observerThrows: bool)

  function Settle(s: Sys, a: nat, o: Outcome): Sys
    requires a < |s.actors|
  {
    match o
    case Throws(done) => BecomeError(ApplyEffects(s, a, done), a)
    case Yields(status, effects, observerThrows) =>
      var s1 := Report(ApplyEffects(SetStatus(s, a, status), a, effects), a);
      if observerThrows then BecomeError(s1, a) else s1
  }

  function DoStart(s: Sys, a: nat, o: Outcome): Sys
    requires a < |s.actors|
  {
    if s.actors[a].status.Some? then s else Settle(s, a, o)
  }

  function DoReceive(s: Sys, a: nat, o: Outcome): Sys
    requires a < |s.actors|
  {
    if s.actors[a].status != Some(F.Active) then s else Settle(s, a, o)
  }

  // ---- stopping ----

  /** The children of an actor, in the order of their ids. */
  function Kids(actor: Actor): seq<nat> {
    var ids := Sorted(actor.children.Keys);
    seq(|ids|, i requires 0 <= i < |ids| => assert ids[i] in ids; actor.children[ids[i]])
  }

  function ClearAll(s: Sys, timers: seq<nat>): (s': Sys)
    ensures s'.actors == s.actors
    decreases |timers|
  {
    if timers == [] then s else ClearAll(ClearTimeout(s, timers[0]), timers[1..])
  }

  /** The timers of an actor, in the order of their send ids. */
  function TimersOf(actor: Actor): seq<nat> {
    var ids := Sorted(actor.timers.Keys);
    seq(|ids|, i requires 0 <= i < |ids| => assert ids[i] in ids; actor.timers[ids[i]])
  }

  /** What stopping brings out: the effects of each actor's logic, and which actors have an observer that throws. */
  datatype Reactions = Reactions(onStop: nat -> seq<Effect>, throws: nat -> bool)

  /** Where stopping has got to, and whether an exception ended it. */
  datatype StopResult = StopResult(sys: Sys, threw: bool)

  /**
   Stopping `a`: its children first, then its timers, then what its logic does
   on stopping; last its observers are told. Nothing catches what an observer
   throws then: it ends the stopping of every actor above, which stays as it
   was. Only actors below `bound` are gone through; children always have higher
   numbers than their parents.
   */
  function DoStop(s: Sys, a: nat, on: Reactions, bound: nat): (r: StopResult)
    requires a < |s.actors|
    ensures |s.actors| <= |r.sys.actors|
    decreases bound - a, 0
  {
    if s.actors[a].status == Some(F.Stopped) || bound <= a then StopResult(s, false)
    else
      var r := StopEach(s, a, Kids(s.actors[a]), on, bound);
      if r.threw then r else StopResult(StopRest(r.sys, a, on.onStop(a)), on.throws(a))
  }

  /** What stopping an actor does once its children are stopped. */
  function StopRest(s: Sys, a: nat, effects: seq<Effect>): (s': Sys)
    requires a < |s.actors|
    ensures |s.actors| <= |s'.actors|
  {
    var s2 := Put(s, a, s.actors[a].(children := map[]));
    var s3 := ClearAll(s2, TimersOf(s2.actors[a]));
    var s4 := Put(s3, a, s3.actors[a].(timers := map[]));
    SetStatus(ApplyEffects(s4, a, effects), a, F.Stopped)
  }

  function StopEach(s: Sys, a: nat, kids: seq<nat>, on: Reactions, bound: nat): (r: StopResult)
    requires a < |s.actors| && a < bound
    ensures |s.actors| <= |r.sys.actors|
    decreases bound - a - 1, |kids| + 1
  {
    if kids == [] then StopResult(s, false)
    else
      var r := if a < kids[0] < |s.actors| then DoStop(s, kids[0], on, bound) else StopResult(s, false);
      if r.threw then r else StopEach(r.sys, a, kids[1..], on, bound)
  }

  // ---- timers fire, actors go ----

  /**
   A pending timer fires: the clock forgets it first, then its actor, if still there, does too and sends the event.
   */
  function Fire(s: Sys, t: nat): Sys
    requires t in s.pending && s.pending[t].actor < |s.actors|
  {
    var p := s.pending[t];
    var s1 := s.(pending := s.pending - {t});
    if !s.actors[p.actor].alive then s1
    else
      var actor := s.actors[p.actor];
      Deliver(Put(s1, p.actor, actor.(timers := actor.timers - {p.sendId})), p.actor, p.target, p.event)
  }

  function Drop(s: Sys, a: nat): Sys
    requires a < |s.actors|
  {
    Put(s, a, s.actors[a].(alive := false))
  }
}
