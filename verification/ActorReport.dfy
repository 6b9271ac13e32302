/** How a finished actor's parent hears of it: which event, from which step, and how often. */
module ActorReports {
  import opened Basics
  import opened StateNodes
  import opened Actions
  import opened ActorSpecs
  import opened ActorInvariants
  import opened ActorRuns
  import F = Finals

  // ---- one answer of the logic ----

  /** How an actor first ends with what its logic answers, if it does. */
  function Verdict(o: Outcome): Option<F.Status> {
    match o
    case Throws(_) => Some(F.Error)
    case Yields(status, _, observerThrows) =>
      if status == F.Done || status == F.Error then Some(status)
      else if observerThrows then Some(F.Error)
      else None
  }

  /** What the parent of an actor called `id` is told. */
  function Told(verdict: F.Status, id: string): Event {
    Event((if verdict == F.Done then "xstate.done.actor." else "xstate.error.actor.") + id, None)
  }

  /** `a` has not told anyone yet, and has a parent to tell. */
  ghost predicate MayTell(s: Sys, a: nat) {
    a < |s.actors| && !s.actors[a].completionReported && Living(s, s.actors[a].parent)
  }

  /** What the effects of an answer leave. */
  function AfterEffects(s: Sys, a: nat, o: Outcome): Sys
    requires a < |s.actors|
  {
    match o
    case Throws(done) => ApplyEffects(s, a, done)
    case Yields(status, effects, _) => ApplyEffects(SetStatus(s, a, status), a, effects)
  }

  lemma {:induction false} EffectReports(s: Sys, a: nat, e: Effect)
    requires a < |s.actors|
    ensures ApplyEffect(s, a, e).reports == s.reports
    ensures ApplyEffect(s, a, e).actors[a].completionReported == s.actors[a].completionReported
  {}

  /** Effects report nothing themselves. */
  lemma {:induction false} EffectsReport(s: Sys, a: nat, effects: seq<Effect>)
    requires a < |s.actors|
    ensures ApplyEffects(s, a, effects).reports == s.reports
    ensures ApplyEffects(s, a, effects).actors[a].completionReported == s.actors[a].completionReported
    decreases |effects|
  {
    if effects != [] {
      EffectReports(s, a, effects[0]);
      EffectsReport(ApplyEffect(s, a, effects[0]), a, effects[1..]);
    }
  }

  /** What `Report` adds to the queue and to the reports. */
  ghost predicate Tells(s: Sys, a: nat, verdict: F.Status, s': Sys)
    requires a < |s.actors| && 0 <= s.actors[a].parent
  {
    && s'.queue == s.queue + [ReceiveJob(s.actors[a].parent, Told(verdict, s.actors[a].id))]
    && s'.reports == s.reports + [a]
  }

  lemma ReportTells(s: Sys, a: nat)
    requires a < |s.actors| && s.actors[a].parent < |s.actors|
    ensures var status, s' := s.actors[a].status, Report(s, a);
            if MayTell(s, a) && status in {Some(F.Done), Some(F.Error)} then
              Tells(s, a, status.value, s') && s'.actors[a].completionReported
            else s' == s
  {}

  lemma BecomeErrorTells(s: Sys, a: nat)
    requires a < |s.actors| && s.actors[a].parent < |s.actors| && s.actors[a].parent != a
    ensures var s' := BecomeError(s, a);
            if MayTell(s, a) then Tells(s, a, F.Error, s') else s'.queue == s.queue && s'.reports == s.reports
  {
    ReportTells(SetStatus(s, a, F.Error), a);
  }

  /** Effects leave the actor's parent, its id and whether it has told anyone as they were. */
  lemma {:induction false} StillToTell(s: Sys, a: nat, o: Outcome)
    requires Inv(s) && Living(s, a)
    ensures var mid := AfterEffects(s, a, o);
            && a < |mid.actors| && mid.actors[a].parent < a && mid.reports == s.reports
            && mid.actors[a].parent == s.actors[a].parent && mid.actors[a].id == s.actors[a].id
            && (MayTell(mid, a) <==> MayTell(s, a))
            && (o.Yields? ==> mid.actors[a].status == Some(o.status))
  {
    var effects, s1 := if o.Throws? then o.done else o.effects, if o.Throws? then s else SetStatus(s, a, o.status);
    if o.Yields? { StatusInv(s, a, o.status); }
    EffectsInv(s1, a, effects);
    EffectsReport(s1, a, effects);
  }

  /**
   An actor that first ends with an answer of its logic, and has a living parent
   it has not told yet, tells it once, after its own effects: that it is done,
   or that it failed. Any other answer tells nobody.
   */
  lemma {:induction false} SettleTells(s: Sys, a: nat, o: Outcome)
    requires Inv(s) && Living(s, a)
    ensures var s', mid := Settle(s, a, o), AfterEffects(s, a, o);
            if MayTell(s, a) && Verdict(o).Some? then
              && s'.queue == mid.queue + [ReceiveJob(s.actors[a].parent, Told(Verdict(o).value, s.actors[a].id))]
              && s'.reports == s.reports + [a]
            else s'.queue == mid.queue && s'.reports == s.reports
  {
    var mid := AfterEffects(s, a, o);
    StillToTell(s, a, o);
    if o.Throws? {
      BecomeErrorTells(mid, a);
    } else {
      ReportTells(mid, a);
      if o.observerThrows { BecomeErrorTells(Report(mid, a), a); }
    }
  }

  // ---- whole runs ----

  /** The task starts `a`, which has not been started, or hands an event to `a`, which is active. */
  ghost predicate Answers(s: Sys, job: Job, a: nat) {
    && job.actor == a && Living(s, a)
    && ((job.StartJob? && s.actors[a].status == None) || (job.ReceiveJob? && s.actors[a].status == Some(F.Active)))
  }

  /** In this step `a` answers, and ends for the first time with a parent to tell. */
  ghost predicate Ends(s: Sys, step: Step, a: nat) {
    step.RunNext? && s.queue != [] && Answers(s, s.queue[0], a) && MayTell(s, a) && Verdict(step.outcome).Some?
  }

  /** In this step `a` ends, and the last task posted tells its parent how. */
  ghost predicate TellsIn(s: Sys, step: Step, s': Sys, a: nat) {
    && Ends(s, step, a)
    && s'.reports == s.reports + [a]
    && s'.queue != []
    && s'.queue[|s'.queue| - 1] == ReceiveJob(s.actors[a].parent, Told(Verdict(step.outcome).value, s.actors[a].id))
    && a < |s'.actors| && s'.actors[a].status in {Verdict(step.outcome), Some(F.Error)}
  }

  lemma {:induction false} ClearAllReports(s: Sys, timers: seq<nat>)
    ensures ClearAll(s, timers).reports == s.reports
    decreases |timers|
  {
    if timers != [] { ClearAllReports(ClearTimeout(s, timers[0]), timers[1..]); }
  }

  /** Stopping reports nothing. */
  lemma {:induction false} DoStopReports(s: Sys, a: nat, on: Reactions, bound: nat)
    requires a < |s.actors|
    ensures DoStop(s, a, on, bound).sys.reports == s.reports
    decreases bound - a, 0
  {
    if s.actors[a].status != Some(F.Stopped) && a < bound {
      var r := StopEach(s, a, Kids(s.actors[a]), on, bound);
      StopEachReports(s, a, Kids(s.actors[a]), on, bound);
      if !r.threw {
        var s2 := Put(r.sys, a, r.sys.actors[a].(children := map[]));
        var s3 := ClearAll(s2, TimersOf(s2.actors[a]));
        ClearAllReports(s2, TimersOf(s2.actors[a]));
        EffectsReport(Put(s3, a, s3.actors[a].(timers := map[])), a, on.onStop(a));
      }
    }
  }

  lemma {:induction false} StopEachReports(s: Sys, a: nat, kids: seq<nat>, on: Reactions, bound: nat)
    requires a < |s.actors| && a < bound
    ensures StopEach(s, a, kids, on, bound).sys.reports == s.reports
    decreases bound - a - 1, |kids| + 1
  {
    if kids != [] {
      if a < kids[0] < |s.actors| { DoStopReports(s, kids[0], on, bound); }
      var r := if a < kids[0] < |s.actors| then DoStop(s, kids[0], on, bound) else StopResult(s, false);
      if !r.threw { StopEachReports(r.sys, a, kids[1..], on, bound); }
    }
  }

  /** A step in which an actor ends tells its parent; any other reports nothing. */
  lemma {:induction false} StepTells(s: Sys, step: Step, s': Sys, a: nat)
    requires Inv(s) && Happens(s, step, s')
    ensures Ends(s, step, a) ==> TellsIn(s, step, s', a)
    ensures s'.reports == s.reports || (step.RunNext? && s.queue != [] && Ends(s, step, s.queue[0].actor))
  {
    if step.RunNext? {
      var s0, job := s.(queue := s.queue[1..]), s.queue[0];
      DequeueInv(s);
      if job.StopJob? {
        DoStopReports(s0, job.actor, step.on, |s0.actors|);
      } else if Answers(s, job, job.actor) {
        SettleTells(s0, job.actor, step.outcome);
        SettleInv(s0, job.actor, step.outcome);
      }
    }
  }

  ghost predicate TellsAt(states: seq<Sys>, steps: seq<Step>, i: nat, a: nat)
    requires |states| == |steps| + 1 && i < |steps|
  {
    TellsIn(states[i], steps[i], states[i + 1], a)
  }

  lemma {:induction false} RunStepTells(states: seq<Sys>, steps: seq<Step>, i: nat, a: nat)
    requires Reached(states, steps) && i < |steps|
    ensures states[i].reports <= states[i + 1].reports
    ensures a in states[i + 1].reports <==> a in states[i].reports || TellsAt(states, steps, i, a)
    ensures TellsAt(states, steps, i, a) ==> a !in states[i].reports
    ensures Ends(states[i], steps[i], a) ==> TellsAt(states, steps, i, a)
  {
    RunInv(states, steps, i);
    assert HappensAt(states, steps, i);
    StepTells(states[i], steps[i], states[i + 1], a);
    if states[i + 1].reports != states[i].reports {
      StepTells(states[i], steps[i], states[i + 1], states[i].queue[0].actor);
    }
  }

  /**
   Over a whole run, the actors that have reported are those that told their
   parent in some step: that they were done if that is how they ended, else that
   they failed. Each did so in one step only.
   */
  lemma {:induction false} ToldOnce(states: seq<Sys>, steps: seq<Step>, k: nat, a: nat)
    requires Reached(states, steps) && k <= |steps|
    ensures a in states[k].reports <==> exists i :: 0 <= i < k && TellsAt(states, steps, i, a)
    ensures forall i, j :: 0 <= i < k && 0 <= j < k && TellsAt(states, steps, i, a) && TellsAt(states, steps, j, a) ==>
      i == j
  {
    if k > 0 {
      ToldOnce(states, steps, k - 1, a);
      RunStepTells(states, steps, k - 1, a);
    }
  }
}
