/** Whole lives of a machine: any number of events delivered one after the other. */
module Lifetimes {
  import opened StateNodes
  import opened Configurations
  import opened Actions
  import opened Microsteps
  import opened Selection
  import opened Macrosteps
  import F = Finals

  /**
   A machine's life: started, or resumed from a good snapshot, and then each event delivered to it with how its
   macrostep went.
   */
  datatype Life =
    | Born(ctx: Context, macro: Macro, snap: Snapshot, effects: seq<Effect>)
    | Resumed(snap: Snapshot)
    | Lived(before: Life, event: Event, macro: Macro, snap: Snapshot, effects: seq<Effect>)

  ghost predicate IsLife(c: WFChart, l: Life) {
    match l
    case Born(ctx, macro, snap, effects) => IsInitial(c, ctx, macro, snap, effects)
    case Resumed(snap) => Good(c, snap)
    case Lived(before, event, macro, snap, effects) =>
      IsLife(c, before) && IsMacrostep(c, before.snap, event, macro, snap, effects)
  }

  /** `l` goes on from `l0`. */
  ghost predicate Extends(l: Life, l0: Life) {
    l == l0 || (l.Lived? && Extends(l.before, l0))
  }

  /** All effects of a life, in order. */
  function EffectsOfLife(l: Life): seq<Effect> {
    match l
    case Born(_, _, _, effects) => effects
    case Resumed(_) => []
    case Lived(before, _, _, _, effects) => EffectsOfLife(before) + effects
  }

  lemma {:induction false} ConclusionGood(c: RunChart, m: Macro, event: Event, next: Snapshot, effects: seq<Effect>)
    requires Good(c, m.first) && Concludes(c, m, event, next, effects)
    ensures Good(c, next) && Good(c, Last(m.run).snap)
  {
    RunKeepsGood(c, m.run, |m.run.passes|);
  }

  /** A machine that enters its chart starts out good. */
  lemma {:induction false} InitialGood(c: RunChart, ctx: Context, m: Macro, next: Snapshot, effects: seq<Effect>)
    requires IsInitial(c, ctx, m, next, effects)
    ensures Good(c, next)
  {
    InitialStepGood(c, ctx, m.first, m.own);
    ConclusionGood(c, m, INIT_EVENT, next, effects);
  }

  lemma {:induction false} MacrostepGood(c: RunChart, cur: Snapshot, event: Event, m: Macro, next: Snapshot,
                                         effects: seq<Effect>)
    requires Good(c, cur) && IsMacrostep(c, cur, event, m, next, effects)
    ensures Good(c, next)
    ensures Accepts(c, cur, event) ==> Good(c, m.first)
  {
    if Accepts(c, cur, event) {
      MicrostepKeepsGood(c, cur, event, NOTHING, m.first, m.own, m.progress);
      ConclusionGood(c, m, event, next, effects);
    }
  }

  /**
   Safety over whole lives: every snapshot has a legal configuration in document order, and is done exactly when its
   configuration is.
   */
  lemma {:induction false} EverySnapshotGood(c: RunChart, l: Life)
    requires IsLife(c, l)
    ensures Good(c, l.snap)
  {
    match l {
      case Born(ctx, macro, snap, effects) =>
        InitialGood(c, ctx, macro, snap, effects);
      case Resumed(_) =>
      case Lived(before, event, macro, snap, effects) =>
        EverySnapshotGood(c, before);
        MacrostepGood(c, before.snap, event, macro, snap, effects);
    }
  }

  /** The last thing that happened was a start, or an event that was accepted. */
  ghost predicate Moved(c: Chart, l: Life) {
    l.Born? || (l.Lived? && Accepts(c, l.before.snap, l.event))
  }

  /** So is every snapshot in between, after any microstep of any macrostep, starting included. */
  lemma {:induction false} EveryMicrostepGood(c: RunChart, l: Life, k: nat)
    requires IsLife(c, l) && Moved(c, l) && k < |l.macro.run.states|
    ensures Good(c, l.macro.run.states[k].snap)
  {
    if l.Born? {
      InitialStepGood(c, l.ctx, l.macro.first, l.macro.own);
    } else {
      EverySnapshotGood(c, l.before);
      MacrostepGood(c, l.before.snap, l.event, l.macro, l.snap, l.effects);
    }
    RunKeepsGood(c, l.macro.run, k);
  }

  /** Every snapshot of the life is good, those in between included. */
  ghost predicate AllGood(c: WFChart, l: Life) {
    match l
    case Born(_, macro, snap, _) => RunGood(c, macro.run) && Good(c, snap)
    case Resumed(snap) => Good(c, snap)
    case Lived(before, event, macro, snap, _) =>
      && AllGood(c, before) && Good(c, snap)
      && (Accepts(c, before.snap, event) ==> RunGood(c, macro.run))
  }

  /** What every microstep of the life selected fits. */
  ghost predicate AllFits(c: Chart, l: Life) {
    match l
    case Born(_, macro, _, _) => RunFits(c, macro.run)
    case Resumed(_) => true
    case Lived(before, event, macro, _, _) =>
      && AllFits(c, before)
      && (Accepts(c, before.snap, event) ==>
            StepFits(c, before.snap, event) && RunFits(c, macro.run))
  }

  lemma {:induction false} AllGoodLast(c: WFChart, l: Life)
    requires AllGood(c, l)
    ensures Good(c, l.snap)
  {}

  /** Settling from a good snapshot, and finishing. */
  lemma {:induction false} ConclusionGoodExactly(c: WFChart, m: Macro, event: Event, next: Snapshot,
                                                 effects: seq<Effect>)
    requires Orthogonal(c) && Good(c, m.first) && Concludes(c, m, event, next, effects)
    ensures RunGood(c, m.run) <==> RunFits(c, m.run)
    ensures RunGood(c, m.run) ==> Good(c, next)
  {
    RunGoodExactly(c, m.run, |m.run.passes|);
    if RunGood(c, m.run) {
      FinishedGood(c, Last(m.run).snap, event);
    }
  }

  lemma {:induction false} FinishedGood(c: WFChart, snap: Snapshot, event: Event)
    requires Good(c, snap)
    ensures Good(c, Finish(c, snap, event).0)
  {}

  /**
   In any chart whose targets can be active together: every snapshot of a life
   is good, those in between included, exactly if what every microstep of it
   selected fits.
   */
  lemma {:induction false} LifeGoodExactly(c: WFChart, l: Life)
    requires Orthogonal(c) && IsLife(c, l)
    ensures AllGood(c, l) <==> AllFits(c, l)
  {
    match l {
      case Born(ctx, macro, snap, effects) =>
        InitialStepGood(c, ctx, macro.first, macro.own);
        ConclusionGoodExactly(c, macro, INIT_EVENT, snap, effects);
      case Resumed(_) =>
      case Lived(before, event, macro, snap, effects) =>
        LifeGoodExactly(c, before);
        if AllGood(c, before) {
          AllGoodLast(c, before);
          EventGoodExactly(c, before.snap, event, macro, snap, effects);
        }
    }
  }

  lemma {:induction false} EventGoodExactly(c: WFChart, cur: Snapshot, event: Event, m: Macro, next: Snapshot,
                                            effects: seq<Effect>)
    requires Orthogonal(c) && Good(c, cur) && IsMacrostep(c, cur, event, m, next, effects)
    ensures !Accepts(c, cur, event) ==> Good(c, next)
    ensures Accepts(c, cur, event) ==>
      (RunGood(c, m.run) <==> StepFits(c, cur, event) && RunFits(c, m.run))
    ensures Accepts(c, cur, event) && RunGood(c, m.run) ==> Good(c, next)
  {
    if Accepts(c, cur, event) {
      GoodExactly(c, cur, event, NOTHING, m.first, m.own, m.progress);
      if Good(c, m.first) {
        ConclusionGoodExactly(c, m, event, next, effects);
      } else if RunGood(c, m.run) {
        GoodAt(c, m.run, |m.run.passes|, 0);
      }
    }
  }

  lemma {:induction false} LifeGoesOn(c: WFChart, l: Life)
    requires IsLife(c, l) && l.Lived?
    ensures IsMacrostep(c, l.before.snap, l.event, l.macro, l.snap, l.effects)
    ensures EffectsOfLife(l) == EffectsOfLife(l.before) + l.effects
  {}

  lemma {:induction false} DoneStays(c: Chart, cur: Snapshot, event: Event, m: Macro, next: Snapshot,
                                     effects: seq<Effect>)
    requires IsMacrostep(c, cur, event, m, next, effects) && cur.status == F.Done
    ensures next == cur && effects == []
  {}

  /** Once done, always done: no event changes the snapshot or has an effect. */
  lemma {:induction false} DoneForever(c: WFChart, l: Life, l0: Life)
    requires IsLife(c, l) && Extends(l, l0) && l0.snap.status == F.Done
    ensures l.snap == l0.snap && EffectsOfLife(l) == EffectsOfLife(l0)
  {
    if l != l0 {
      DoneForever(c, l.before, l0);
      LifeGoesOn(c, l);
      DoneStays(c, l.before.snap, l.event, l.macro, l.snap, l.effects);
    }
  }

  lemma {:induction false} AllConserved(c: Chart, run: Run)
    requires IsRun(c, run)
    ensures ConsumedBy(run.passes) + Last(run).queue == run.states[0].queue + RaisedBy(run.passes)
    ensures Last(run).queue == [] ==> ConsumedBy(run.passes) == run.states[0].queue + RaisedBy(run.passes)
  {
    QueueConserved(c, run, |run.passes|);
    assert run.passes[..|run.passes|] == run.passes;
  }

  /**
   A start or macrostep that ends active has settled: its queue is empty, what
   was raised was processed in order, and eventless transitions are either not
   to be found or no longer looked for.
   */
  lemma {:induction false} ActiveSettled(c: Chart, event: Event, m: Macro, next: Snapshot, effects: seq<Effect>)
    requires Concludes(c, m, event, next, effects) && next.status == F.Active
    ensures m.run.states != [] && Last(m.run).snap == next && Last(m.run).queue == []
    ensures Last(m.run).armed ==> Selected(c, next, EVENTLESS) == []
    ensures ConsumedBy(m.run.passes) == m.own.queue + RaisedBy(m.run.passes)
  {
    AllConserved(c, m.run);
  }
}
