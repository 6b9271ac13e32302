/** The actor runtime as an object that its methods update in place. */
module ActorSystems {
  import opened Basics
  import opened Keys
  import opened StateNodes
  import opened Actions
  import opened ActorSpecs
  import opened ActorInvariants
  import opened ActorRuns
  import S = ActorSpecs
  import F = Finals

  // ---- whom a stop goes through ----

  /**
   The children of every living actor before `bound`, other than `but`, that has not been stopped lie before `bound`
   too.
   */
  ghost predicate Bounded(s: Sys, bound: nat, but: int) {
    && bound <= |s.actors|
    && forall p, id {:trigger id in s.actors[p].children} ::
         Living(s, p) && p < bound && p != but && s.actors[p].status != Some(F.Stopped)
             && id in s.actors[p].children ==>
         s.actors[p].children[id] < bound
  }

  lemma {:induction false} LinkedBounded(s: Sys)
    requires Inv(s)
    ensures Bounded(s, |s.actors|, -1)
  {
    forall p, id | Living(s, p) && id in s.actors[p].children ensures s.actors[p].children[id] < |s.actors| {
      assert Living(s, s.actors[p].children[id]);
    }
  }

  lemma {:induction false} BoundedOthers(s: Sys, s': Sys, bound: nat, a: nat)
    requires Bounded(s, bound, a) && |s.actors| <= |s'.actors| && a < |s.actors|
    requires forall i :: 0 <= i < |s.actors| && i != a ==> s'.actors[i] == s.actors[i]
    ensures Bounded(s', bound, a)
    ensures s'.actors[a].status == Some(F.Stopped) || s'.actors[a].children == map[] ==> Bounded(s', bound, -1)
  {
    forall p, id | Living(s', p) && p < bound && p != a && s'.actors[p].status != Some(F.Stopped)
        && id in s'.actors[p].children
      ensures s'.actors[p].children[id] < bound
    {
      assert s'.actors[p] == s.actors[p];
    }
  }

  lemma {:induction false} DoStopBounded(s: Sys, a: nat, on: Reactions, bound: nat)
    requires Inv(s) && Living(s, a) && Bounded(s, bound, -1)
    ensures Bounded(DoStop(s, a, on, bound).sys, bound, -1)
    decreases bound - a, 0
  {
    if s.actors[a].status != Some(F.Stopped) && a < bound {
      KidsLinked(s, a);
      StopEachInv(s, a, Kids(s.actors[a]), on, bound);
      StopEachBounded(s, a, Kids(s.actors[a]), on, bound);
      var r := StopEach(s, a, Kids(s.actors[a]), on, bound);
      assert r.sys.actors[a] == s.actors[a];
      if !r.threw { StopRestBounded(r.sys, a, on.onStop(a), bound); }
    }
  }

  lemma {:induction false} StopRestBounded(s: Sys, a: nat, effects: seq<Effect>, bound: nat)
    requires Inv(s) && Living(s, a) && Bounded(s, bound, -1)
    ensures Bounded(StopRest(s, a, effects), bound, -1)
  {
    ClearedInv(s, a);
    var s4 := Cleared(s, a);
    EffectsInv(s4, a, effects);
    var s5 := ApplyEffects(s4, a, effects);
    BoundedOthers(s, SetStatus(s5, a, F.Stopped), bound, a);
  }

  lemma {:induction false} StopEachBounded(s: Sys, a: nat, kids: seq<nat>, on: Reactions, bound: nat)
    requires Inv(s) && Living(s, a) && a < bound && (forall k :: k in kids ==> a < k && Living(s, k))
    requires Bounded(s, bound, -1)
    ensures Bounded(StopEach(s, a, kids, on, bound).sys, bound, -1)
    decreases bound - a - 1, |kids| + 1
  {
    if kids != [] {
      var k := kids[0];
      assert k in kids;
      StopKeeps(s, k, on, bound);
      DoStopBounded(s, k, on, bound);
      var s1 := DoStop(s, k, on, bound).sys;
      forall j | j in kids[1..] ensures a < j && Living(s1, j) {
        assert j in kids && StoppedAtMost(s.actors[j], s1.actors[j]);
      }
      StopEachBounded(s1, a, kids[1..], on, bound);
    }
  }

  /** Stopping the children from the `i`-th on. */
  ghost function StopFrom(s: Sys, a: nat, kids: seq<nat>, i: nat, on: Reactions, bound: nat): StopResult
    requires i <= |kids| && a < |s.actors| && a < bound
  {
    StopEach(s, a, kids[i..], on, bound)
  }

  lemma {:induction false} StopFromNext(s: Sys, a: nat, kids: seq<nat>, i: nat, on: Reactions, bound: nat)
    requires i < |kids| && a < kids[i] < |s.actors| && a < bound
    ensures var r := S.DoStop(s, kids[i], on, bound);
            StopFrom(s, a, kids, i, on, bound) == if r.threw then r else StopFrom(r.sys, a, kids, i + 1, on, bound)
  {
    assert kids[i..][1..] == kids[i + 1..];
  }

  // ---- the object ----

  class ActorSystem {
    var actors: seq<Actor>
    var pending: map<nat, Pending>
    var nextTimer: nat
    var queue: seq<Job>
    const registry: map<string, nat>
    const factories: set<string>
    var missed: nat
    var reports: seq<nat>

    constructor (registry: map<string, nat>, factories: set<string>)
      ensures State() == NewSystem(registry, factories)
    {
      this.registry, this.factories := registry, factories;
      actors, pending, nextTimer, queue, missed, reports := [Born("root", -1)], map[], 1, [], 0, [];
    }

    ghost function State(): Sys
      reads this
    {
      Sys(actors, pending, nextTimer, queue, registry, factories, missed, reports)
    }

    // -- executor and clock --

    method Post(job: Job)
      modifies this
      ensures State() == S.Post(old(State()), job)
    {
      queue := queue + [job];
    }

    method SetTimeout(p: Pending) returns (t: nat)
      modifies this
      ensures t == old(nextTimer) && State() == S.SetTimeout(old(State()), p)
    {
      t := nextTimer;
      nextTimer := nextTimer + 1;
      pending := pending[t := p];
    }

    method ClearTimeout(t: nat)
      modifies this
      ensures State() == S.ClearTimeout(old(State()), t)
    {
      if t in pending { pending := pending - {t}; } else { missed := missed + 1; }
    }

    // -- effects --

    method ResolveTarget(a: nat, target: string) returns (t: Option<nat>)
      requires a < |actors|
      ensures t == Resolve(State(), a, target)
    {
      if target == "" { return Some(a); }
      if target == PARENT {
        var p := actors[a].parent;
        return if 0 <= p < |actors| && actors[p].alive then Some(p) else None;
      }
      if target in actors[a].children { return Some(actors[a].children[target]); }
      if target in registry { return Some(registry[target]); }
      return None;
    }

    method Deliver(a: nat, target: string, event: Event)
      requires a < |actors|
      modifies this
      ensures State() == S.Deliver(old(State()), a, target, event)
    {
      var t := ResolveTarget(a, target);
      if t.Some? { Post(ReceiveJob(t.value, event)); }
    }

    method StartTimer(a: nat, sendId: string, event: Event, target: string)
      requires a < |actors|
      modifies this
      ensures State() == StartTimerOf(old(State()), a, sendId, event, target)
    {
      if sendId in actors[a].timers { ClearTimeout(actors[a].timers[sendId]); }
      var t := SetTimeout(Pending(a, sendId, event, target));
      actors := actors[a := actors[a].(timers := actors[a].timers[sendId := t])];
    }

    method CancelTimer(a: nat, sendId: string)
      requires a < |actors|
      modifies this
      ensures State() == CancelTimerOf(old(State()), a, sendId)
    {
      if sendId in actors[a].timers {
        ClearTimeout(actors[a].timers[sendId]);
        actors := actors[a := actors[a].(timers := actors[a].timers - {sendId})];
      }
    }

    method Start(a: nat)
      requires a < |actors|
      modifies this
      ensures State() == S.Start(old(State()), a)
    {
      if actors[a].startRequested { return; }
      actors := actors[a := actors[a].(startRequested := true)];
      Post(StartJob(a));
    }

    method Spawn(a: nat, id: string, src: string)
      requires a < |actors|
      modifies this
      ensures State() == SpawnOf(old(State()), a, id, src)
    {
      if src !in factories { return; }
      var child := |actors|;
      actors := actors + [Born(id, a)];
      actors := actors[a := actors[a].(children := actors[a].children[id := child])];
      Start(child);
    }

    method StopChild(a: nat, id: string)
      requires a < |actors|
      modifies this
      ensures State() == StopChildOf(old(State()), a, id)
    {
      if id in actors[a].children {
        Post(StopJob(actors[a].children[id]));
        actors := actors[a := actors[a].(children := actors[a].children - {id})];
      }
    }

    method ExecuteEffect(a: nat, e: Effect)
      requires a < |actors|
      modifies this
      ensures State() == ApplyEffect(old(State()), a, e)
    {
      match e {
        case Send(_, target, event) => Deliver(a, target, event);
        case StartTimer(id, target, event, _) => StartTimer(a, id, event, target);
        case CancelTimer(id) => CancelTimer(a, id);
        case SpawnChild(id, src, _) => Spawn(a, id, src);
        case StopChild(id) => StopChild(a, id);
        case _ =>
      }
    }

    method ExecuteEffects(a: nat, effects: seq<Effect>)
      requires a < |actors|
      modifies this
      ensures State() == ApplyEffects(old(State()), a, effects)
    {
      for i := 0 to |effects|
        invariant a < |actors|
        invariant ApplyEffects(State(), a, effects[i..]) == ApplyEffects(old(State()), a, effects)
      {
        assert effects[i..][1..] == effects[i + 1..];
        ExecuteEffect(a, effects[i]);
      }
    }

    // -- lifecycle --

    method StoreStatus(a: nat, status: F.Status)
      requires a < |actors|
      modifies this
      ensures State() == SetStatus(old(State()), a, status)
    {
      actors := actors[a := actors[a].(status := Some(status))];
    }

    method ReportCompletionToParent(a: nat)
      requires a < |actors|
      modifies this
      ensures State() == Report(old(State()), a)
    {
      var actor := actors[a];
      if actor.completionReported { return; }
      if !(0 <= actor.parent < |actors| && actors[actor.parent].alive) { return; }
      if actor.status == Some(F.Done) || actor.status == Some(F.Error) {
        actors := actors[a := actor.(completionReported := true)];
        reports := reports + [a];
        Post(ReceiveJob(actor.parent, CompletionEvent(actor)));
      }
    }

    method BecomeError(a: nat)
      requires a < |actors|
      modifies this
      ensures State() == S.BecomeError(old(State()), a)
    {
      StoreStatus(a, F.Error);
      ReportCompletionToParent(a);
    }

    /** What starting and receiving share: store, run the effects, report; an exception anywhere ends in an error. */
    method Settle(a: nat, o: Outcome)
      requires a < |actors|
      modifies this
      ensures State() == S.Settle(old(State()), a, o)
    {
      match o {
        case Throws(done) =>
          ExecuteEffects(a, done);
          BecomeError(a);
        case Yields(status, effects, observerThrows) =>
          StoreStatus(a, status);
          ExecuteEffects(a, effects);
          ReportCompletionToParent(a);
          if observerThrows { BecomeError(a); }
      }
    }

    method DoStart(a: nat, o: Outcome)
      requires a < |actors|
      modifies this
      ensures State() == S.DoStart(old(State()), a, o)
    {
      if actors[a].status.Some? { return; }
      Settle(a, o);
    }

    method DoReceive(a: nat, o: Outcome)
      requires a < |actors|
      modifies this
      ensures State() == S.DoReceive(old(State()), a, o)
    {
      if actors[a].status != Some(F.Active) { return; }
      Settle(a, o);
    }

    method DoStop(a: nat, on: Reactions, ghost bound: nat) returns (threw: bool)
      requires Inv(State()) && Living(State(), a) && a < bound && Bounded(State(), bound, -1)
      modifies this
      ensures StopResult(State(), threw) == S.DoStop(old(State()), a, on, bound)
      decreases bound - a, 0
    {
      if actors[a].status == Some(F.Stopped) { return false; }
      threw := StopChildren(a, on, bound);
      if threw { return; }
      actors := actors[a := actors[a].(children := map[])];
      ClearTimers(a);
      actors := actors[a := actors[a].(timers := map[])];
      ExecuteEffects(a, on.onStop(a));
      StoreStatus(a, F.Stopped);
      threw := on.throws(a);
    }

    method StopChildren(a: nat, on: Reactions, ghost bound: nat) returns (threw: bool)
      requires Inv(State()) && Living(State(), a) && a < bound && Bounded(State(), bound, -1)
      requires actors[a].status != Some(F.Stopped)
      modifies this
      ensures StopResult(State(), threw) == StopEach(old(State()), a, Kids(old(actors[a])), on, bound)
      ensures a < |actors| && actors[a] == old(actors[a])
      decreases bound - a - 1, 2
    {
      threw := false;
      var ids := Sorted(actors[a].children.Keys);
      ghost var kids: seq<nat> := Kids(actors[a]);
      assert kids[0..] == kids && kids[|kids|..] == [];
      KidsLinked(State(), a);
      for i := 0 to |ids|
        invariant !threw && Inv(State()) && Living(State(), a) && Bounded(State(), bound, -1)
        invariant actors[a] == old(actors[a])
        invariant forall k :: k in kids ==> a < k && Living(State(), k)
        invariant StopFrom(State(), a, kids, i, on, bound) == StopEach(old(State()), a, kids, on, bound)
      {
        assert ids[i] in ids;
        var child := actors[a].children[ids[i]];
        assert child == kids[i] && child in kids && child < bound;
        StopFromNext(State(), a, kids, i, on, bound);
        threw := StopOne(child, on, bound, a, kids);
        if threw { return; }
      }
    }

    method StopOne(child: nat, on: Reactions, ghost bound: nat, ghost a: nat, ghost kids: seq<nat>)
      returns (threw: bool)
      requires Inv(State()) && Living(State(), child) && a < child < bound && Bounded(State(), bound, -1)
      requires Living(State(), a)
      requires forall k :: k in kids ==> a < k && Living(State(), k)
      modifies this
      ensures StopResult(State(), threw) == S.DoStop(old(State()), child, on, bound) && Inv(State())
      ensures Bounded(State(), bound, -1)
      ensures Living(State(), a) && actors[a] == old(actors[a]) && forall k :: k in kids ==> a < k && Living(State(), k)
      decreases bound - child, 1
    {
      ghost var s := State();
      StopKeeps(s, child, on, bound);
      DoStopBounded(s, child, on, bound);
      threw := DoStop(child, on, bound);
      forall k | k in kids ensures Living(State(), k) {
        assert StoppedAtMost(s.actors[k], State().actors[k]);
      }
    }

    method ClearTimers(a: nat)
      requires a < |actors|
      modifies this
      ensures State() == ClearAll(old(State()), TimersOf(old(actors[a])))
    {
      var ids := Sorted(actors[a].timers.Keys);
      ghost var timers := TimersOf(actors[a]);
      for i := 0 to |ids|
        invariant actors == old(actors)
        invariant ClearAll(State(), timers[i..]) == ClearAll(old(State()), timers)
      {
        assert ids[i] in ids;
        assert timers[i..][1..] == timers[i + 1..];
        ClearTimeout(actors[a].timers[ids[i]]);
      }
    }

    // -- timers and tasks --

    /** The clock runs a timer's callback after forgetting the timer. */
    method FireTimer(t: nat)
      requires t in pending && pending[t].actor < |actors|
      modifies this
      ensures State() == Fire(old(State()), t)
    {
      var p := pending[t];
      pending := pending - {t};
      if actors[p.actor].alive {
        actors := actors[p.actor := actors[p.actor].(timers := actors[p.actor].timers - {p.sendId})];
        Deliver(p.actor, p.target, p.event);
      }
    }

    /** The executor runs its next task. */
    method RunTask(outcome: Outcome, on: Reactions)
      requires Inv(State()) && queue != []
      modifies this
      ensures Possible(old(State()), RunNext(outcome, on)) && State() == Next(old(State()), RunNext(outcome, on))
      ensures Inv(State()) && missed == 0
    {
      DequeueInv(State());
      ghost var before := State();
      NextInv(before, RunNext(outcome, on));
      var job := queue[0];
      queue := queue[1..];
      match job {
        case StartJob(a) => DoStart(a, outcome);
        case ReceiveJob(a, _) => DoReceive(a, outcome);
        case StopJob(a) =>
          LinkedBounded(State());
          var _ := DoStop(a, on, |actors|);
      }
    }
  }
}
