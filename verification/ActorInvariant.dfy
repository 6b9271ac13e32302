/**
 What every reachable state of an actor system satisfies: the actors' timer tables mirror the clock, and completion is
 reported once.
 */
module ActorInvariants {
  import opened Basics
  import opened StateNodes
  import opened Actions
  import opened ActorSpecs

  /** The actor that set `t`, if still alive, has it in its table. */
  ghost predicate Kept(s: Sys, t: nat, p: Pending) {
    && p.actor < |s.actors|
    && (s.actors[p.actor].alive ==> p.sendId in s.actors[p.actor].timers && s.actors[p.actor].timers[p.sendId] == t)
  }

  /** The timer tables of the actors that are alive and the pending timers they set are the same. */
  ghost predicate TimersMirrored(s: Sys) {
    && (forall a, id {:trigger id in s.actors[a].timers} ::
              0 <= a < |s.actors| && s.actors[a].alive && id in s.actors[a].timers ==>
          s.actors[a].timers[id] in s.pending && s.pending[s.actors[a].timers[id]].actor == a
          && s.pending[s.actors[a].timers[id]].sendId == id)
    && (forall t {:trigger t in s.pending} :: t in s.pending ==> t < s.nextTimer && Kept(s, t, s.pending[t]))
  }

  ghost predicate Living(s: Sys, a: int) { 0 <= a < |s.actors| && s.actors[a].alive }

  /**
   Whoever is referred to is there: children are younger than their parents, and nobody waits for an actor that has
   gone.
   */
  ghost predicate Linked(s: Sys) {
    && (forall a, id {:trigger id in s.actors[a].children} ::
              0 <= a < |s.actors| && s.actors[a].alive && id in s.actors[a].children ==>
          a < s.actors[a].children[id] && Living(s, s.actors[a].children[id]))
    && (forall a {:trigger s.actors[a]} :: 0 <= a < |s.actors| ==> s.actors[a].parent < a)
    && (forall id {:trigger id in s.registry} :: id in s.registry ==> Living(s, s.registry[id]))
    && (forall i {:trigger s.queue[i]} :: 0 <= i < |s.queue| ==> Living(s, s.queue[i].actor))
  }

  ghost predicate ReportedOnce(s: Sys) {
    && NoDup(s.reports)
    && forall a {:trigger a in s.reports} :: a in s.reports ==> a < |s.actors| && s.actors[a].completionReported
  }

  /** No timer was ever cleared that was not pending. */
  ghost predicate Inv(s: Sys) {
    TimersMirrored(s) && Linked(s) && ReportedOnce(s) && s.missed == 0
  }

  // ---- what stays the same ----

  ghost predicate SameLife(x: Actor, y: Actor) {
    && y.alive == x.alive && y.id == x.id && y.parent == x.parent && y.status == x.status
    && (x.completionReported ==> y.completionReported)
  }

  /** Actors stay, but for their tables; only `a` has its tables changed. */
  ghost predicate OnlyTables(s: Sys, s': Sys, a: nat) {
    && |s.actors| <= |s'.actors|
    && s'.registry == s.registry
    && (forall i :: 0 <= i < |s.actors| && i != a ==> s'.actors[i] == s.actors[i])
    && (a < |s.actors| ==> SameLife(s.actors[a], s'.actors[a]))
  }

  lemma {:induction false} OnlyTablesTrans(s: Sys, t: Sys, u: Sys, a: nat)
    requires OnlyTables(s, t, a) && OnlyTables(t, u, a)
    ensures OnlyTables(s, u, a)
  {}

  // ---- effects ----

  lemma {:induction false} PostInv(s: Sys, job: Job)
    requires Inv(s) && Living(s, job.actor)
    ensures Inv(Post(s, job))
  {
    var s' := Post(s, job);
    forall i | 0 <= i < |s'.queue| ensures Living(s', s'.queue[i].actor) {
      if i < |s.queue| { assert s'.queue[i] == s.queue[i]; }
    }
  }

  lemma {:induction false} SendInv(s: Sys, a: nat, target: string, event: Event)
    requires Inv(s) && Living(s, a)
    ensures Inv(Deliver(s, a, target, event)) && Deliver(s, a, target, event).actors == s.actors
    ensures Deliver(s, a, target, event).registry == s.registry
  {
    var t := Resolve(s, a, target);
    if t.Some? {
      assert Living(s, t.value);
      PostInv(s, ReceiveJob(t.value, event));
    }
  }

  /** Two states that differ at most in their timers and in the tables of `a`. */
  ghost predicate SameButTables(s: Sys, s': Sys, a: nat) {
    && |s'.actors| == |s.actors| && s'.registry == s.registry && s'.queue == s.queue && s'.reports == s.reports
    && (forall i :: 0 <= i < |s.actors| && i != a ==> s'.actors[i] == s.actors[i])
    && (a < |s.actors| ==> SameLife(s.actors[a], s'.actors[a]))
  }

  lemma {:induction false} LinksKept(s: Sys, s': Sys, a: nat)
    requires Linked(s) && ReportedOnce(s) && Living(s, a) && SameButTables(s, s', a)
    requires forall id :: id in s'.actors[a].children ==>
        id in s.actors[a].children && s'.actors[a].children[id] == s.actors[a].children[id]
    ensures Linked(s') && ReportedOnce(s') && OnlyTables(s, s', a)
  {
    forall n: int | Living(s, n) ensures Living(s', n) { assert n != a ==> s'.actors[n] == s.actors[n]; }
    forall i, id | 0 <= i < |s'.actors| && s'.actors[i].alive && id in s'.actors[i].children
      ensures i < s'.actors[i].children[id] && Living(s', s'.actors[i].children[id])
    {
      assert i != a ==> s'.actors[i] == s.actors[i];
      assert id in s.actors[i].children && Living(s, s.actors[i].children[id]);
    }
    forall i | 0 <= i < |s'.queue| ensures Living(s', s'.queue[i].actor) {
      assert Living(s, s.queue[i].actor);
    }
  }

  lemma {:induction false} StartTimerInv(s: Sys, a: nat, id: string, event: Event, target: string)
    requires Inv(s) && Living(s, a)
    ensures Inv(StartTimerOf(s, a, id, event, target)) && OnlyTables(s, StartTimerOf(s, a, id, event, target), a)
  {
    StartTimerMirrored(s, a, id, event, target);
    LinksKept(s, StartTimerOf(s, a, id, event, target), a);
  }

  lemma {:induction false} StartTimerMirrored(s: Sys, a: nat, id: string, event: Event, target: string)
    requires TimersMirrored(s) && Living(s, a)
    ensures var s' := StartTimerOf(s, a, id, event, target);
            && TimersMirrored(s') && s'.missed == s.missed && SameButTables(s, s', a)
            && s'.actors[a].children == s.actors[a].children
  {
    var s1 := CancelTimerOf(s, a, id);
    CancelTimerMirrored(s, a, id);
    StartAfterCancel(s, a, id, event, target);
    FreshTimerMirrored(s1, a, id, event, target);
  }

  /** Starting a timer again is cancelling it and starting it. */
  lemma StartAfterCancel(s: Sys, a: nat, id: string, event: Event, target: string)
    requires a < |s.actors|
    ensures StartTimerOf(s, a, id, event, target) == StartTimerOf(CancelTimerOf(s, a, id), a, id, event, target)
  {
    var timers := s.actors[a].timers;
    assert (timers - {id})[id := s.nextTimer] == timers[id := s.nextTimer];
  }

  lemma {:induction false} FreshTimerMirrored(s: Sys, a: nat, id: string, event: Event, target: string)
    requires TimersMirrored(s) && Living(s, a) && id !in s.actors[a].timers
    ensures var s' := StartTimerOf(s, a, id, event, target);
            && TimersMirrored(s') && s'.missed == s.missed && SameButTables(s, s', a)
            && s'.actors[a].children == s.actors[a].children
  {
    var s', timers := StartTimerOf(s, a, id, event, target), s.actors[a].timers;
    assert s.nextTimer !in s.pending;
    assert forall i :: 0 <= i < |s.actors| && i != a ==> s'.actors[i] == s.actors[i];
    assert s'.actors[a].timers == timers[id := s.nextTimer];
    forall t | t in s'.pending ensures t < s'.nextTimer && Kept(s', t, s'.pending[t]) {
      if t != s.nextTimer { assert t in s.pending && Kept(s, t, s.pending[t]); }
    }
  }

  lemma {:induction false} CancelTimerMirrored(s: Sys, a: nat, id: string)
    requires TimersMirrored(s) && Living(s, a)
    ensures var s' := CancelTimerOf(s, a, id);
            && TimersMirrored(s') && s'.missed == s.missed && SameButTables(s, s', a)
            && s'.actors[a].children == s.actors[a].children
  {
    var s', timers := CancelTimerOf(s, a, id), s.actors[a].timers;
    if id in timers {
      assert timers[id] in s.pending;
      assert forall i :: 0 <= i < |s.actors| && i != a ==> s'.actors[i] == s.actors[i];
      assert s'.actors[a].timers == timers - {id};
      forall t | t in s'.pending ensures t < s'.nextTimer && Kept(s', t, s'.pending[t]) {
        assert t in s.pending && Kept(s, t, s.pending[t]);
      }
    }
  }

  lemma {:induction false} CancelTimerInv(s: Sys, a: nat, id: string)
    requires Inv(s) && Living(s, a)
    ensures Inv(CancelTimerOf(s, a, id)) && OnlyTables(s, CancelTimerOf(s, a, id), a)
  {
    CancelTimerMirrored(s, a, id);
    LinksKept(s, CancelTimerOf(s, a, id), a);
  }

  lemma {:induction false} StartInv(s: Sys, a: nat)
    requires Inv(s) && Living(s, a)
    ensures Inv(Start(s, a)) && OnlyTables(s, Start(s, a), a)
  {
    if !s.actors[a].startRequested {
      var s1 := Put(s, a, s.actors[a].(startRequested := true));
      assert forall i :: 0 <= i < |s.actors| && i != a ==> s1.actors[i] == s.actors[i];
      LinksKept(s, s1, a);
      PostInv(s1, StartJob(a));
    }
  }

  /** A new child, not started yet. */
  function Adopt(s: Sys, a: nat, id: string): Sys
    requires a < |s.actors|
  {
    var s1 := s.(actors := s.actors + [Born(id, a)]);
    Put(s1, a, s1.actors[a].(children := s1.actors[a].children[id := |s.actors|]))
  }

  lemma {:induction false} AdoptInv(s: Sys, a: nat, id: string)
    requires Inv(s) && Living(s, a)
    ensures Inv(Adopt(s, a, id)) && OnlyTables(s, Adopt(s, a, id), a) && Living(Adopt(s, a, id), |s.actors|)
  {
    var s', child := Adopt(s, a, id), |s.actors|;
    assert forall i :: 0 <= i < |s.actors| && i != a ==> s'.actors[i] == s.actors[i];
    assert s'.actors[child] == Born(id, a);
    assert s'.actors[a] == s.actors[a].(children := s.actors[a].children[id := child]);
    forall n: int | Living(s, n) ensures Living(s', n) {}
    AdoptMirrored(s, s', a);
    forall i, k | 0 <= i < |s'.actors| && s'.actors[i].alive && k in s'.actors[i].children
      ensures i < s'.actors[i].children[k] && Living(s', s'.actors[i].children[k])
    {
      if i < child && !(i == a && k == id) {
        assert k in s.actors[i].children && Living(s, s.actors[i].children[k]);
      }
    }
    forall i | 0 <= i < |s'.queue| ensures Living(s', s'.queue[i].actor) {
      assert Living(s, s.queue[i].actor);
    }
  }

  lemma {:induction false} AdoptMirrored(s: Sys, s': Sys, a: nat)
    requires TimersMirrored(s) && s'.pending == s.pending && s'.nextTimer == s.nextTimer
    requires |s'.actors| == |s.actors| + 1
    requires forall i :: 0 <= i < |s.actors| ==>
        s'.actors[i].timers == s.actors[i].timers && s'.actors[i].alive == s.actors[i].alive
    requires s'.actors[|s.actors|].timers == map[]
    ensures TimersMirrored(s')
  {
    forall i, id | 0 <= i < |s'.actors| && s'.actors[i].alive && id in s'.actors[i].timers
      ensures s'.actors[i].timers[id] in s'.pending && s'.pending[s'.actors[i].timers[id]].actor == i
           && s'.pending[s'.actors[i].timers[id]].sendId == id
    {
      assert i < |s.actors| && id in s.actors[i].timers;
    }
    forall t | t in s'.pending ensures t < s'.nextTimer && Kept(s', t, s'.pending[t]) {
      assert Kept(s, t, s.pending[t]);
    }
  }

  lemma {:induction false} SpawnInv(s: Sys, a: nat, id: string, src: string)
    requires Inv(s) && Living(s, a)
    ensures Inv(SpawnOf(s, a, id, src)) && OnlyTables(s, SpawnOf(s, a, id, src), a)
  {
    if src in s.factories {
      var s2 := Adopt(s, a, id);
      AdoptInv(s, a, id);
      StartInv(s2, |s.actors|);
      SpawnedTables(s, s2, Start(s2, |s.actors|), a);
    }
  }

  lemma {:induction false} SpawnedTables(s: Sys, s2: Sys, s': Sys, a: nat)
    requires OnlyTables(s, s2, a) && OnlyTables(s2, s', |s.actors|)
    ensures OnlyTables(s, s', a)
  {}

  lemma {:induction false} StopChildInv(s: Sys, a: nat, id: string)
    requires Inv(s) && Living(s, a)
    ensures Inv(StopChildOf(s, a, id)) && OnlyTables(s, StopChildOf(s, a, id), a)
  {
    var children := s.actors[a].children;
    if id in children {
      var s1 := Post(s, StopJob(children[id]));
      var s' := Put(s1, a, s1.actors[a].(children := children - {id}));
      PostInv(s, StopJob(children[id]));
      assert forall i :: 0 <= i < |s.actors| && i != a ==> s'.actors[i] == s.actors[i];
      LinksKept(s1, s', a);
      TimersKept(s1, s');
    }
  }

  lemma {:induction false} TimersKept(s: Sys, s': Sys)
    requires TimersMirrored(s) && s'.pending == s.pending && s'.nextTimer == s.nextTimer && |s'.actors| == |s.actors|
    requires forall i :: 0 <= i < |s.actors| ==>
        s'.actors[i].timers == s.actors[i].timers && s'.actors[i].alive == s.actors[i].alive
    ensures TimersMirrored(s')
  {
    forall t | t in s'.pending ensures t < s'.nextTimer && Kept(s', t, s'.pending[t]) {
      assert Kept(s, t, s.pending[t]);
    }
  }

  lemma {:induction false} EffectInv(s: Sys, a: nat, e: Effect)
    requires Inv(s) && Living(s, a)
    ensures Inv(ApplyEffect(s, a, e)) && OnlyTables(s, ApplyEffect(s, a, e), a)
  {
    match e
    case Send(_, target, event) => SendInv(s, a, target, event);
    case StartTimer(id, target, event, _) => StartTimerInv(s, a, id, event, target);
    case CancelTimer(id) => CancelTimerInv(s, a, id);
    case SpawnChild(id, src, _) => SpawnInv(s, a, id, src);
    case StopChild(id) => StopChildInv(s, a, id);
    case _ =>
  }

  lemma {:induction false} EffectsInv(s: Sys, a: nat, effects: seq<Effect>)
    requires Inv(s) && Living(s, a)
    ensures Inv(ApplyEffects(s, a, effects)) && OnlyTables(s, ApplyEffects(s, a, effects), a)
    decreases |effects|
  {
    if effects != [] {
      var s1 := ApplyEffect(s, a, effects[0]);
      EffectInv(s, a, effects[0]);
      EffectsInv(s1, a, effects[1..]);
      OnlyTablesTrans(s, s1, ApplyEffects(s1, a, effects[1..]), a);
    }
  }
}
