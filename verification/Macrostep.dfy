/** Macrosteps: the initial step, settling, finishing, and what every snapshot of a run satisfies. */
module Macrosteps {
  import opened Basics
  import opened StateNodes
  import opened Configurations
  import opened Entry
  import opened Targeting
  import opened Stepping
  import opened StepStarts
  import opened Histories
  import opened StateValues
  import opened Actions
  import opened Microsteps
  import opened Selection
  import opened Conflicts
  import F = Finals

  /** Targets can be active together, and below a parallel state self loops reenter. */
  ghost predicate Runnable(c: WFChart) {
    Orthogonal(c) && LoopsReenter(c)
  }

  lemma SolitaryIsRunnable()
    ensures Tree(SOLITARY) && WellFormed(SOLITARY) && Runnable(SOLITARY)
  {
    SolitaryIsWellFormed();
  }

  type RunChart = c: WFChart | Runnable(c) ghost witness (SolitaryIsRunnable(); SOLITARY)

  /** A compound root has an active final child; a parallel root is in final. */
  ghost predicate DoneAt(c: Chart, active: set<int>) {
    if Kind(c, 0) == Parallel then F.IsInFinal(c, 0, active)
    else exists f :: f in active && Kind(c, f) == Final && Parent(c, f) == 0
  }

  /** Values are only stored for history nodes. */
  ghost predicate HistoryKeyed(c: Chart, hist: HistoryMap) {
    forall k :: k in hist ==> exists h :: 0 < h < Size(c) && Kind(c, h) == History && Id(c, h) == k
  }

  lemma {:induction false} RecordingKeepsKeyed(c: Chart, active: set<int>, exits: set<int>, hist: HistoryMap,
                                               hist': HistoryMap)
    requires HistoryKeyed(c, hist) && Updated(c, active, HistoryChildren(c, exits), hist, hist')
    ensures HistoryKeyed(c, hist')
  {
    forall k | k in hist' && k !in hist ensures exists h :: 0 < h < Size(c) && Kind(c, h) == History && Id(c, h) == k {
      var h :| h in HistoryChildren(c, exits) && Id(c, h) == k;
      assert h in c.heap;
    }
  }

  /** What every snapshot of a run satisfies. */
  ghost predicate Good(c: WFChart, s: Snapshot) {
    && LegalSnapshot(c, s)
    && HistoryValid(c, s.historyValue) && HistoryKeyed(c, s.historyValue)
    && s.value == ValueOf(c, 0, Elems(s.configuration)) && s.tags == TagsOf(c, s.configuration)
    && s.status in {F.Active, F.Done}
    && (s.status == F.Done <==> DoneAt(c, Elems(s.configuration)))
  }

  const NOTHING := Surroundings([], [])

  /** An active snapshot can take what is selected in it, and no selected transition exits the domain of another. */
  lemma {:induction false} GoodTakes(c: RunChart, cur: Snapshot, event: Event)
    requires Good(c, cur)
    ensures Takes(c, cur, Selected(c, cur, event))
    ensures Consistent(c, Elems(cur.configuration), Selected(c, cur, event))
  {
    SelectedTakes(c, cur, event);
    OrthogonalTargetsExist(c);
    ReenteringChartsConsistent(c, cur, event);
  }

  /**
   In what `cur` selects on `event`, every idle state that another transition
   exits fits that transition, given what history records on leaving.
   */
  ghost predicate StepFits(c: Chart, cur: Snapshot, event: Event) {
    forall hist {:trigger Records(c, Selected(c, cur, event), cur, hist)} ::
      Records(c, Selected(c, cur, event), cur, hist) ==>
        LoopsFit(c, Elems(cur.configuration), hist, Selected(c, cur, event))
  }

  /** There is one history to ask about. */
  lemma {:induction false} FitsOnce(c: Chart, cur: Snapshot, event: Event, hist: HistoryMap)
    requires Records(c, Selected(c, cur, event), cur, hist)
    ensures StepFits(c, cur, event) <==> LoopsFit(c, Elems(cur.configuration), hist, Selected(c, cur, event))
  {
    var active, sel := Elems(cur.configuration), Selected(c, cur, event);
    forall other | Records(c, sel, cur, other) ensures other == hist {
      UpdatedUnique(c, active, HistoryChildren(c, Exits(c, active, sel)), cur.historyValue, other, hist);
    }
  }

  /** A microstep leads from a good active snapshot to a good one exactly if what is selected fits. */
  lemma {:induction false} GoodExactly(c: WFChart, cur: Snapshot, event: Event, env: Surroundings, next: Snapshot,
                                       env': Surroundings, progress: bool)
    requires Orthogonal(c) && Good(c, cur) && cur.status == F.Active
    requires IsMicrostep(c, Selected(c, cur, event), cur, event, env, next, env', progress)
    ensures Good(c, next) <==> StepFits(c, cur, event)
  {
    var sel := Selected(c, cur, event);
    var active, active' := Elems(cur.configuration), Elems(next.configuration);
    var exits, entered := Exits(c, active, sel), EnteredBy(c, active, sel, active');
    SelectedTakes(c, cur, event);
    FitsOnce(c, cur, event, next.historyValue);
    LegalExactly(c, sel, cur, next.historyValue, event, env, next, env', progress);
    RecordingKeepsKeyed(c, active, exits, cur.historyValue, next.historyValue);
    if Legal(c, active') {
      var order := Ordered(Size(c), entered);
      var given := Given(c, active, next.historyValue, sel);
      var left := LeaveActions(c, ExitOrder(c, exits), sel, MicroCtx(cur.context, env.effects, env.queue, 0, false),
                               event);
      var mc := EnterActions(c, order, entered - given, left, event);
      F.DoneStatusExact(c, order, active', mc.draft, event);
      DoneKept(c, active, active', entered, order);
    }
  }

  /** Where self loops below parallel states reenter, microsteps lead from good active snapshots to good ones. */
  lemma {:induction false} MicrostepKeepsGood(c: RunChart, cur: Snapshot, event: Event, env: Surroundings,
                                              next: Snapshot, env': Surroundings, progress: bool)
    requires Good(c, cur) && cur.status == F.Active
    requires IsMicrostep(c, Selected(c, cur, event), cur, event, env, next, env', progress)
    ensures Good(c, next)
  {
    AlwaysFits(c, cur, event);
    GoodExactly(c, cur, event, env, next, env', progress);
  }

  lemma {:induction false} AlwaysFits(c: RunChart, cur: Snapshot, event: Event)
    requires Good(c, cur)
    ensures StepFits(c, cur, event)
  {
    var active, sel := Elems(cur.configuration), Selected(c, cur, event);
    GoodTakes(c, cur, event);
    forall hist | Records(c, sel, cur, hist) ensures LoopsFit(c, active, hist, sel) {
      RecordingKeepsValid(c, active, Exits(c, active, sel), cur.historyValue, hist);
      ConsistentFits(c, active, hist, sel);
    }
  }

  /** A step from an undone configuration ends done exactly when what it entered makes it so. */
  lemma {:induction false} DoneKept(c: WFChart, active: set<int>, active': set<int>, entered: set<int>, order: seq<int>)
    requires Legal(c, active) && Legal(c, active') && !DoneAt(c, active)
    requires active' - active <= entered <= active' && order == Ordered(Size(c), entered)
    ensures DoneAt(c, active') <==>
            if Kind(c, 0) == Parallel then order != [] && F.IsInFinal(c, 0, active')
            else exists f :: f in order && Kind(c, f) == Final && Parent(c, f) == 0
  {
    if Kind(c, 0) == Parallel {
      if order == [] && F.IsInFinal(c, 0, active') {
        forall n | n in active' ensures n in active { assert n in entered ==> n in order; }
        LegalMinimal(c, active', active);
      }
    } else if f :| f in active' && Kind(c, f) == Final && Parent(c, f) == 0 {
      assert f !in active && f in order;
    }
  }

  // ---- what a microstep does, apart from what came before it ----

  lemma {:induction false} LeaveAfter(c: Chart, exited: seq<int>, sel: seq<TransitionRef>, effects: seq<Effect>,
                                      queue: seq<Event>, mc: MicroCtx, event: Event)
    ensures LeaveActions(c, exited, sel, After(effects, queue, mc), event)
        == After(effects, queue, LeaveActions(c, exited, sel, mc, event))
  {
    RunBlocksAfter(c, ExitBlocks(exited), effects, queue, mc, event);
    var m := RunBlocks(c, ExitBlocks(exited), mc, event);
    var m' := m.(effects := m.effects + Cancels(c, exited) + Stops(c, exited));
    RunBlocksAfter(c, TransitionBlocks(sel), effects, queue, m', event);
    AppendAfter(effects, m.effects, Cancels(c, exited));
    AppendAfter(effects, m.effects + Cancels(c, exited), Stops(c, exited));
  }

  lemma {:induction false} EnterAfter(c: Chart, toEnter: seq<int>, via: set<int>, effects: seq<Effect>,
                                      queue: seq<Event>, mc: MicroCtx, event: Event)
    ensures EnterActions(c, toEnter, via, After(effects, queue, mc), event)
        == After(effects, queue, EnterActions(c, toEnter, via, mc, event))
  {
    var m := mc.(effects := mc.effects + Spawns(c, toEnter));
    assert (effects + mc.effects) + Spawns(c, toEnter) == effects + m.effects;
    RunBlocksAfter(c, EntryBlocks(c, toEnter, via), effects, queue, m, event);
    var r := RunBlocks(c, EntryBlocks(c, toEnter, via), m, event);
    AppendAfter(effects, r.effects, Starts(c, toEnter, r.draft, event));
  }

  /** All actions of a step append to the effects and events there were. */
  lemma {:induction false} ActionsAfter(c: Chart, exited: seq<int>, sel: seq<TransitionRef>, toEnter: seq<int>,
                                        via: set<int>, ctx: Context, effects: seq<Effect>, queue: seq<Event>,
                                        event: Event)
    returns (mc: MicroCtx)
    ensures var left := LeaveActions(c, exited, sel, MicroCtx(ctx, [], [], 0, false), event);
            mc == EnterActions(c, toEnter, via, left, event)
    ensures var left := LeaveActions(c, exited, sel, MicroCtx(ctx, effects, queue, 0, false), event);
            EnterActions(c, toEnter, via, left, event) == After(effects, queue, mc)
  {
    var start := MicroCtx(ctx, [], [], 0, false);
    assert effects + [] == effects && queue + [] == queue;
    LeaveAfter(c, exited, sel, effects, queue, start, event);
    var left := LeaveActions(c, exited, sel, start, event);
    EnterAfter(c, toEnter, via, effects, queue, left, event);
    mc := EnterActions(c, toEnter, via, left, event);
  }

  /** A microstep appends its own effects and raised events to whatever there was. */
  lemma {:induction false} MicrostepAlone(c: Chart, sel: seq<TransitionRef>, cur: Snapshot, event: Event,
                                          env: Surroundings, next: Snapshot, env': Surroundings, progress: bool)
    returns (own: Surroundings)
    requires IsMicrostep(c, sel, cur, event, env, next, env', progress)
    ensures IsMicrostep(c, sel, cur, event, NOTHING, next, own, progress)
    ensures env'.effects == env.effects + own.effects && env'.queue == env.queue + own.queue
  {
    var active, active' := Elems(cur.configuration), Elems(next.configuration);
    var exits, entered := Exits(c, active, sel), EnteredBy(c, active, sel, active');
    var order, via := Ordered(Size(c), entered), entered - Given(c, active, next.historyValue, sel);
    var mc := ActionsAfter(c, ExitOrder(c, exits), sel, order, via, cur.context, env.effects, env.queue, event);
    var done := F.Completed(c, order, active', mc.draft, event);
    own := Surroundings(mc.effects, mc.queue + done.raised);
    AppendAfter(env.queue, mc.queue, done.raised);
  }

  /** The relation leaves nothing open: it determines the next snapshot, the effects and the raised events. */
  lemma {:induction false} MicrostepDeterministic(c: Chart, sel: seq<TransitionRef>, cur: Snapshot, event: Event,
                                                  env: Surroundings, next: Snapshot, env': Surroundings, p: bool,
                                                  other: Snapshot, env'': Surroundings, q: bool)
    requires IsMicrostep(c, sel, cur, event, env, next, env', p)
    requires IsMicrostep(c, sel, cur, event, env, other, env'', q)
    ensures next == other && env' == env'' && p == q
  {
    var active := Elems(cur.configuration);
    UpdatedUnique(c, active, HistoryChildren(c, Exits(c, active, sel)), cur.historyValue, next.historyValue,
                  other.historyValue);
    FillingUnique(c, Start(c, active, next.historyValue, sel), Elems(next.configuration), Elems(other.configuration));
  }

  // ---- settling ----

  const EVENTLESS := Event("", None)

  /**
   The state of the settling loop: the snapshot, the internal queue, and whether eventless transitions are looked for.
   */
  datatype Loop = Loop(snap: Snapshot, queue: seq<Event>, armed: bool)

  /** What one pass of the loop takes from the queue, adds to it, and leaves as effects. */
  datatype Pass = Pass(consumed: seq<Event>, raised: seq<Event>, effects: seq<Effect>)

  ghost predicate Pending(c: Chart, s: Loop) {
    s.armed && Selected(c, s.snap, EVENTLESS) != []
  }

  /** `sel` is taken from `s` on `event`, and its own effects and raised events are those of the pass. */
  ghost predicate Took(c: Chart, s: Loop, sel: seq<TransitionRef>, event: Event, pass: Pass, snap: Snapshot,
                       progress: bool) {
    IsMicrostep(c, sel, s.snap, event, NOTHING, snap, Surroundings(pass.effects, pass.raised), progress)
  }

  /** The head of the queue is taken, or has no effect. */
  ghost predicate Handles(c: Chart, s: Loop, pass: Pass, s': Loop)
    requires s.queue != []
  {
    var e := s.queue[0];
    var sel := Selected(c, s.snap, e);
    if sel == [] then s'.snap == s.snap && pass.raised == [] && pass.effects == []
    else Took(c, s, sel, e, pass, s'.snap, true) || Took(c, s, sel, e, pass, s'.snap, false)
  }

  ghost predicate Iterates(c: Chart, s: Loop, pass: Pass, s': Loop) {
    && s.snap.status == F.Active
    && (if Pending(c, s) then
          && pass.consumed == [] && s'.queue == s.queue + pass.raised
          && Took(c, s, Selected(c, s.snap, EVENTLESS), EVENTLESS, pass, s'.snap, s'.armed)
        else
          && s.queue != [] && s'.armed
          && pass.consumed == [s.queue[0]] && s'.queue == s.queue[1..] + pass.raised
          && Handles(c, s, pass, s'))
  }

  /**
   Nothing is left to do: the machine is done, or its queue is empty and no eventless transition is looked for and
   found.
   */
  ghost predicate Stable(c: Chart, s: Loop) {
    s.snap.status == F.Active ==> s.queue == [] && !Pending(c, s)
  }

  /** A run of the loop. */
  datatype Run = Run(states: seq<Loop>, passes: seq<Pass>)

  ghost predicate IteratesAt(c: Chart, run: Run, i: nat)
    requires |run.states| == |run.passes| + 1 && i < |run.passes|
  {
    Iterates(c, run.states[i], run.passes[i], run.states[i + 1])
  }

  ghost predicate IsRun(c: Chart, run: Run) {
    && |run.states| == |run.passes| + 1
    && forall i {:trigger IteratesAt(c, run, i)} :: 0 <= i < |run.passes| ==> IteratesAt(c, run, i)
  }

  ghost function Last(run: Run): Loop
    requires run.states != []
  {
    run.states[|run.states| - 1]
  }

  function EffectsOf(passes: seq<Pass>): seq<Effect> {
    if passes == [] then [] else EffectsOf(passes[..|passes| - 1]) + passes[|passes| - 1].effects
  }

  function ConsumedBy(passes: seq<Pass>): seq<Event> {
    if passes == [] then [] else ConsumedBy(passes[..|passes| - 1]) + passes[|passes| - 1].consumed
  }

  function RaisedBy(passes: seq<Pass>): seq<Event> {
    if passes == [] then [] else RaisedBy(passes[..|passes| - 1]) + passes[|passes| - 1].raised
  }

  const STEP_LIMIT := 1000000

  /** What the next pass selects, if there is one, fits. */
  ghost predicate PassFits(c: Chart, s: Loop) {
    s.snap.status == F.Active ==>
      if Pending(c, s) then StepFits(c, s.snap, EVENTLESS) else s.queue != [] ==> StepFits(c, s.snap, s.queue[0])
  }

  /** However far settling gets from `s`, what the next pass selects fits. */
  ghost predicate Fitting(c: Chart, s: Loop) {
    forall run {:trigger IsRun(c, run)} :: IsRun(c, run) && run.states[0] == s ==> PassFits(c, Last(run))
  }

  method Stabilize(c: WFChart, start: Snapshot, env: Surroundings)
    returns (r: Result<Snapshot, string>, env': Surroundings, ghost run: Run)
    requires Orthogonal(c) && Good(c, start) && Fitting(c, Loop(start, env.queue, true))
    ensures IsRun(c, run) && run.states[0] == Loop(start, env.queue, true) && Good(c, Last(run).snap)
    ensures r.Ok? ==> r.value == Last(run).snap && Stable(c, Last(run))
    ensures r.Err? <==> |run.passes| == 1_000_000 && Last(run).snap.status == F.Active
    ensures |run.passes| <= STEP_LIMIT
    ensures r.Ok? ==> Good(c, r.value) && (r.value.status == F.Active ==> env'.queue == [])
    ensures env' == Surroundings(env.effects + EffectsOf(run.passes), Last(run).queue)
  {
    var snap, armed, steps := start, true, 0;
    env' := env;
    run := Run([Loop(start, env.queue, true)], []);
    assert env.effects + EffectsOf([]) == env.effects;
    while true
      invariant IsRun(c, run) && run.states[0] == Loop(start, env.queue, true)
      invariant Last(run) == Loop(snap, env'.queue, armed) && Good(c, snap)
      invariant env'.effects == env.effects + EffectsOf(run.passes)
      invariant |run.passes| == steps <= STEP_LIMIT
      decreases STEP_LIMIT - steps
    {
      if snap.status != F.Active { return Ok(snap), env', run; }
      steps := steps + 1;
      if steps > STEP_LIMIT { return Err("infinite loop detected in always transitions"), env', run; }
      ghost var pass: Pass;
      assert PassFits(c, Last(run));
      if armed {
        OrthogonalTargetsExist(c);
        var always := SelectTransitions(c, snap, EVENTLESS);
        if always != [] {
          snap, env', armed, pass := EventlessStep(c, snap, env', always);
          run := Extend(c, run, pass, Loop(snap, env'.queue, armed), env.effects, env'.effects);
          continue;
        }
      }
      if env'.queue != [] {
        snap, env', pass := QueuedStep(c, snap, env', armed);
        armed := true;
        run := Extend(c, run, pass, Loop(snap, env'.queue, armed), env.effects, env'.effects);
        continue;
      }
      return Ok(snap), env', run;
    }
  }

  /** The eventless half of a pass. */
  method EventlessStep(c: WFChart, snap: Snapshot, env: Surroundings, always: seq<TransitionRef>)
    returns (snap': Snapshot, env': Surroundings, progress: bool, ghost pass: Pass)
    requires Orthogonal(c) && StepFits(c, snap, EVENTLESS)
    requires Good(c, snap) && snap.status == F.Active && always == Selected(c, snap, EVENTLESS) && always != []
    ensures Iterates(c, Loop(snap, env.queue, true), pass, Loop(snap', env'.queue, progress))
    ensures Good(c, snap') && env'.effects == env.effects + pass.effects
  {
    SelectedTakes(c, snap, EVENTLESS);
    snap', env', progress := Microstep(c, always, snap, EVENTLESS, env);
    ghost var own := MicrostepAlone(c, always, snap, EVENTLESS, env, snap', env', progress);
    GoodExactly(c, snap, EVENTLESS, env, snap', env', progress);
    pass := Pass([], own.queue, own.effects);
    assert Took(c, Loop(snap, env.queue, true), always, EVENTLESS, pass, snap', progress);
  }

  /** The queued half of a pass. */
  method QueuedStep(c: WFChart, snap: Snapshot, env: Surroundings, ghost armed: bool)
    returns (snap': Snapshot, env': Surroundings, ghost pass: Pass)
    requires Orthogonal(c) && Good(c, snap) && snap.status == F.Active && env.queue != []
    requires StepFits(c, snap, env.queue[0])
    requires !Pending(c, Loop(snap, env.queue, armed))
    ensures Iterates(c, Loop(snap, env.queue, armed), pass, Loop(snap', env'.queue, true))
    ensures Good(c, snap') && env'.effects == env.effects + pass.effects
  {
    var e := env.queue[0];
    var rest := env.(queue := env.queue[1..]);
    OrthogonalTargetsExist(c);
    var sel := SelectTransitions(c, snap, e);
    snap', env', pass := snap, rest, Pass([e], [], []);
    if sel != [] {
      SelectedTakes(c, snap, e);
      var progress;
      snap', env', progress := Microstep(c, sel, snap, e, rest);
      ghost var own := MicrostepAlone(c, sel, snap, e, rest, snap', env', progress);
      GoodExactly(c, snap, e, rest, snap', env', progress);
      pass := Pass([e], own.queue, own.effects);
      assert Took(c, Loop(snap, env.queue, armed), sel, e, pass, snap', progress);
    } else {
      assert rest.queue + [] == rest.queue && env.effects + [] == env.effects;
    }
  }

  lemma {:induction false} ExtendedAt(c: Chart, run: Run, pass: Pass, s: Loop, i: nat)
    requires IsRun(c, run) && Iterates(c, Last(run), pass, s) && i <= |run.passes|
    ensures IteratesAt(c, Run(run.states + [s], run.passes + [pass]), i)
  {
    if i < |run.passes| { IterationOf(c, run, i, run.states[i], run.passes[i], run.states[i + 1]); }
  }

  lemma {:induction false} ExtendedIsRun(c: Chart, run: Run, pass: Pass, s: Loop)
    requires IsRun(c, run) && Iterates(c, Last(run), pass, s)
    ensures IsRun(c, Run(run.states + [s], run.passes + [pass]))
  {
    var run' := Run(run.states + [s], run.passes + [pass]);
    forall i | 0 <= i < |run'.passes| ensures IteratesAt(c, run', i) {
      ExtendedAt(c, run, pass, s, i);
    }
  }

  lemma EffectsSnoc(passes: seq<Pass>, pass: Pass)
    ensures EffectsOf(passes + [pass]) == EffectsOf(passes) + pass.effects
  {
    assert (passes + [pass])[..|passes|] == passes;
  }

  lemma {:induction false} Extend(c: Chart, run: Run, pass: Pass, s: Loop, effects: seq<Effect>, effects': seq<Effect>)
    returns (run': Run)
    requires IsRun(c, run) && Iterates(c, Last(run), pass, s)
    requires effects' == effects + EffectsOf(run.passes) + pass.effects
    ensures IsRun(c, run') && run'.states[0] == run.states[0] && Last(run') == s && |run'.passes| == |run.passes| + 1
    ensures effects' == effects + EffectsOf(run'.passes)
  {
    run' := Run(run.states + [s], run.passes + [pass]);
    ExtendedIsRun(c, run, pass, s);
    EffectsSnoc(run.passes, pass);
    AppendAfter(effects, EffectsOf(run.passes), pass.effects);
  }

  lemma {:induction false} IterationOf(c: Chart, run: Run, i: nat, s: Loop, pass: Pass, s': Loop)
    requires IsRun(c, run) && i < |run.passes|
    requires s == run.states[i] && pass == run.passes[i] && s' == run.states[i + 1]
    ensures Iterates(c, s, pass, s')
  {
    assert IteratesAt(c, run, i);
  }

  // ---- what holds of every run of the loop ----

  lemma {:induction false} NothingFits(c: Chart, cur: Snapshot, event: Event)
    requires Selected(c, cur, event) == []
    ensures StepFits(c, cur, event)
  {}

  /** A pass leads from a good snapshot to a good one exactly if what it selects fits. */
  lemma {:induction false} PassGoodExactly(c: WFChart, s: Loop, pass: Pass, s': Loop)
    requires Orthogonal(c) && Iterates(c, s, pass, s') && Good(c, s.snap)
    ensures Good(c, s'.snap) <==> PassFits(c, s)
  {
    var own := Surroundings(pass.effects, pass.raised);
    if Pending(c, s) {
      GoodExactly(c, s.snap, EVENTLESS, NOTHING, s'.snap, own, s'.armed);
    } else if Selected(c, s.snap, s.queue[0]) != [] {
      var progress := Took(c, s, Selected(c, s.snap, s.queue[0]), s.queue[0], pass, s'.snap, true);
      GoodExactly(c, s.snap, s.queue[0], NOTHING, s'.snap, own, progress);
    } else {
      NothingFits(c, s.snap, s.queue[0]);
    }
  }

  lemma {:induction false} StepGoodExactly(c: WFChart, run: Run, j: nat, k: nat)
    requires Orthogonal(c) && IsRun(c, run) && k == j + 1 <= |run.passes| && Good(c, run.states[j].snap)
    ensures Good(c, run.states[k].snap) <==> PassFits(c, run.states[j])
  {
    IterationOf(c, run, j, run.states[j], run.passes[j], run.states[j + 1]);
    PassGoodExactly(c, run.states[j], run.passes[j], run.states[j + 1]);
  }

  /** All snapshots of a run up to the `k`-th are good. */
  ghost predicate GoodUpTo(c: WFChart, run: Run, k: nat)
    requires k < |run.states|
  {
    Good(c, run.states[k].snap) && (k > 0 ==> GoodUpTo(c, run, k - 1))
  }

  /** What the first `k` passes select fits. */
  ghost predicate FitsUpTo(c: Chart, run: Run, k: nat)
    requires k <= |run.states|
  {
    k > 0 ==> PassFits(c, run.states[k - 1]) && FitsUpTo(c, run, k - 1)
  }

  ghost predicate RunGood(c: WFChart, run: Run) {
    |run.states| == |run.passes| + 1 && GoodUpTo(c, run, |run.passes|)
  }

  ghost predicate RunFits(c: Chart, run: Run) {
    |run.states| == |run.passes| + 1 && FitsUpTo(c, run, |run.passes|)
  }

  lemma {:induction false} GoodAt(c: WFChart, run: Run, k: nat, i: nat)
    requires i <= k < |run.states| && GoodUpTo(c, run, k)
    ensures Good(c, run.states[i].snap)
  {
    if i < k { GoodAt(c, run, k - 1, i); }
  }

  /** Up to any point of a run, every snapshot is good exactly if what every pass before it selected fits. */
  lemma {:induction false} RunGoodExactly(c: WFChart, run: Run, k: nat)
    requires Orthogonal(c) && IsRun(c, run) && Good(c, run.states[0].snap) && k <= |run.passes|
    ensures GoodUpTo(c, run, k) <==> FitsUpTo(c, run, k)
  {
    if k > 0 {
      RunGoodExactly(c, run, k - 1);
      if GoodUpTo(c, run, k - 1) { StepGoodExactly(c, run, k - 1, k); }
    }
  }

  lemma {:induction false} PassAlwaysFits(c: RunChart, s: Loop)
    requires Good(c, s.snap)
    ensures PassFits(c, s)
  {
    AlwaysFits(c, s.snap, EVENTLESS);
    if s.queue != [] { AlwaysFits(c, s.snap, s.queue[0]); }
  }

  lemma {:induction false} StepKeepsGood(c: RunChart, run: Run, j: nat, k: nat)
    requires IsRun(c, run) && k == j + 1 <= |run.passes| && Good(c, run.states[j].snap)
    ensures Good(c, run.states[k].snap)
  {
    PassAlwaysFits(c, run.states[j]);
    StepGoodExactly(c, run, j, k);
  }

  /** Every snapshot settling goes through is good, legal configuration included. */
  lemma {:induction false} RunKeepsGood(c: RunChart, run: Run, k: nat)
    requires IsRun(c, run) && Good(c, run.states[0].snap) && k <= |run.passes|
    ensures Good(c, run.states[k].snap)
  {
    if k > 0 {
      RunKeepsGood(c, run, k - 1);
      StepKeepsGood(c, run, k - 1, k);
    }
  }

  /** Where self loops below parallel states reenter, settling always fits. */
  lemma {:induction false} AlwaysFitting(c: RunChart, s: Loop)
    requires Good(c, s.snap)
    ensures Fitting(c, s)
  {
    forall run | IsRun(c, run) && run.states[0] == s ensures PassFits(c, Last(run)) { LastFits(c, run); }
  }

  lemma {:induction false} LastFits(c: RunChart, run: Run)
    requires IsRun(c, run) && Good(c, run.states[0].snap)
    ensures PassFits(c, Last(run))
  {
    RunKeepsGood(c, run, |run.passes|);
    PassAlwaysFits(c, Last(run));
  }

  /** What was processed in the first `k` passes and is queued after them was queued before or raised in them. */
  ghost predicate ConservedAt(run: Run, k: nat)
    requires |run.states| == |run.passes| + 1 && k <= |run.passes|
  {
    ConsumedBy(run.passes[..k]) + run.states[k].queue == run.states[0].queue + RaisedBy(run.passes[..k])
  }

  lemma ConservedStart(run: Run)
    requires |run.states| == |run.passes| + 1
    ensures ConservedAt(run, 0)
  {
    assert run.passes[..0] == [];
    assert [] + run.states[0].queue == run.states[0].queue == run.states[0].queue + [];
  }

  lemma {:induction false} ConservedNext(c: Chart, run: Run, k: nat)
    requires IsRun(c, run) && k < |run.passes| && ConservedAt(run, k)
    ensures ConservedAt(run, k + 1)
  {
    var s, pass, s' := run.states[k], run.passes[k], run.states[k + 1];
    IterationOf(c, run, k, s, pass, s');
    PassShape(c, s, pass, s');
    PassConserves(s, pass, s');
    SumsNext(run.passes, k);
    Conserved(ConsumedBy(run.passes[..k]), pass.consumed, s.queue, s'.queue,
              run.states[0].queue, RaisedBy(run.passes[..k]), pass.raised);
  }

  lemma SumsNext(passes: seq<Pass>, k: nat)
    requires k < |passes|
    ensures ConsumedBy(passes[..k + 1]) == ConsumedBy(passes[..k]) + passes[k].consumed
    ensures RaisedBy(passes[..k + 1]) == RaisedBy(passes[..k]) + passes[k].raised
  {
    assert passes[..k + 1][..k] == passes[..k];
  }

  /**
   First in, first out, and nothing lost: what was processed and what is still queued are what was there and what was
   raised, in order.
   */
  lemma {:induction false} QueueConserved(c: Chart, run: Run, k: nat)
    requires IsRun(c, run) && k <= |run.passes|
    ensures ConservedAt(run, k)
  {
    if k == 0 {
      ConservedStart(run);
    } else {
      QueueConserved(c, run, k - 1);
      ConservedNext(c, run, k - 1);
    }
  }

  /** What a pass takes from the queue and adds to it: the head or nothing, and what it raised. */
  ghost predicate TakesHead(s: Loop, pass: Pass, s': Loop) {
    if pass.consumed == [] then s'.queue == s.queue + pass.raised
    else s.queue != [] && pass.consumed == [s.queue[0]] && s'.queue == s.queue[1..] + pass.raised
  }

  lemma {:induction false} PassShape(c: Chart, s: Loop, pass: Pass, s': Loop)
    requires Iterates(c, s, pass, s')
    ensures TakesHead(s, pass, s')
  {
    if Pending(c, s) { assert pass.consumed == []; } else { assert pass.consumed == [s.queue[0]]; }
  }

  lemma {:induction false} PassConserves(s: Loop, pass: Pass, s': Loop)
    requires TakesHead(s, pass, s')
    ensures s.queue + pass.raised == pass.consumed + s'.queue
  {
    if pass.consumed == [] {
      assert [] + s'.queue == s'.queue;
    } else {
      assert s.queue == pass.consumed + s.queue[1..];
      AppendAfter(pass.consumed, s.queue[1..], pass.raised);
    }
  }

  lemma Conserved(before: seq<Event>, consumed: seq<Event>, q: seq<Event>, q': seq<Event>, start: seq<Event>,
                  raised: seq<Event>, more: seq<Event>)
    requires before + q == start + raised && q + more == consumed + q'
    ensures before + consumed + q' == start + (raised + more)
  {
    AppendAfter(before, consumed, q');
    AppendAfter(before, q, more);
    AppendAfter(start, raised, more);
  }

  lemma {:induction false} RunInOrder(c: Chart, run: Run, k: nat)
    requires IsRun(c, run) && InOrder(c, run.states[0].snap) && k <= |run.passes|
    ensures InOrder(c, run.states[k].snap)
  {
    if k > 0 {
      RunInOrder(c, run, k - 1);
      IterationOf(c, run, k - 1, run.states[k - 1], run.passes[k - 1], run.states[k]);
    }
  }

  /**
   Only an eventless microstep that changed no configuration and ran no assign stops the search for eventless
   transitions, and only until the next queued event.
   */
  lemma {:induction false} DisarmedBy(c: Chart, run: Run)
    requires IsRun(c, run) && InOrder(c, run.states[0].snap) && run.states[0].armed && !Last(run).armed
    ensures run.passes != []
    ensures var k := |run.passes| - 1;
            && run.passes[k].consumed == [] && Pending(c, run.states[k])
            && Took(c, run.states[k], Selected(c, run.states[k].snap, EVENTLESS), EVENTLESS, run.passes[k],
                    Last(run).snap, false)
            && Last(run).snap.configuration == run.states[k].snap.configuration
  {
    var k := |run.passes| - 1;
    assert IteratesAt(c, run, k);
    RunInOrder(c, run, k);
    Unmoved(c, Selected(c, run.states[k].snap, EVENTLESS), run.states[k].snap, EVENTLESS, run.passes[k],
            Last(run).snap);
  }

  /**
   Each pass of a settling machine takes eventless transitions if it looks for
   them and finds any; only otherwise does it take the head of the queue, which
   it takes even if nothing comes of it. What it raises goes to the end.
   */
  lemma {:induction false} EventlessFirst(c: Chart, run: Run, i: nat)
    requires IsRun(c, run) && i < |run.passes|
    ensures var s, s', pass := run.states[i], run.states[i + 1], run.passes[i];
            var eventless := Event("", None);
            var always := Selected(c, s.snap, eventless);
            && s.snap.status == F.Active && |pass.consumed| <= |s.queue|
            && s'.queue == s.queue[|pass.consumed|..] + pass.raised
            && if s.armed && always != [] then
                 pass.consumed == [] && Took(c, s, always, eventless, pass, s'.snap, s'.armed)
               else
                 && s.queue != [] && pass.consumed == [s.queue[0]] && s'.armed
                 && var e := s.queue[0];
                    if Selected(c, s.snap, e) == [] then s'.snap == s.snap && pass.raised == [] && pass.effects == []
                    else exists moved :: Took(c, s, Selected(c, s.snap, e), e, pass, s'.snap, moved)
  {
    assert IteratesAt(c, run, i);
  }

  lemma {:induction false} Unmoved(c: Chart, sel: seq<TransitionRef>, cur: Snapshot, event: Event, pass: Pass,
                                   next: Snapshot)
    requires InOrder(c, cur)
    requires IsMicrostep(c, sel, cur, event, NOTHING, next, Surroundings(pass.effects, pass.raised), false)
    ensures next.configuration == cur.configuration
  {
    StaysPut(c, Elems(cur.configuration), sel, next.historyValue, Elems(next.configuration));
  }

  lemma {:induction false} StaysPut(c: Chart, active: set<int>, sel: seq<TransitionRef>, hist: HistoryMap,
                                    active': set<int>)
    requires Exits(c, active, sel) == {} && EnteredBy(c, active, sel, active') == {}
    requires Start(c, active, hist, sel) <= active'
    ensures active' == active
  {
    assert active - {} == active;
    forall n | n in active' ensures n in active {
      assert n !in active ==> n in EnteredBy(c, active, sel, active');
    }
  }

  // ---- starting, transitions, finishing ----

  const INIT_EVENT := Event("xstate.init", None)

  /**
   Reaching the top-level final state runs the exit actions of every active state, deepest first, and ends what they
   started.
   */
  function Finish(c: Chart, snap: Snapshot, event: Event): (Snapshot, seq<Effect>) {
    if snap.status != F.Done then (snap, [])
    else
      var exited := Reverse(snap.configuration);
      var mc := RunBlocks(c, ExitBlocks(exited), MicroCtx(snap.context, [], [], 0, false), event);
      (snap.(context := mc.draft), mc.effects + Cancels(c, exited) + Stops(c, exited))
  }

  method RunExits(c: Chart, exited: seq<int>, ctx: Context, event: Event, effects: seq<Effect>)
    returns (ctx': Context, effects': seq<Effect>)
    ensures var mc := RunBlocks(c, ExitBlocks(exited), MicroCtx(ctx, [], [], 0, false), event);
            ctx' == mc.draft && effects' == effects + mc.effects
  {
    var start := MicroCtx(ctx, [], [], 0, false);
    var mc := MicroCtx(ctx, effects, [], 0, false);
    assert effects + [] == effects && [] + start.queue == start.queue;
    assert mc == After(effects, [], start);
    RunBlocksAfter(c, ExitBlocks(exited), effects, [], start, event);
    for i := 0 to |exited|
      invariant RunBlocks(c, ExitBlocks(exited[i..]), mc, event)
             == RunBlocks(c, ExitBlocks(exited), MicroCtx(ctx, effects, [], 0, false), event)
    {
      var rest := exited[i..];
      assert ExitBlocks(rest)[1..] == ExitBlocks(exited[i + 1..]);
      mc := ExecuteActions(At(c, exited[i]).exit, mc, event);
    }
    return mc.draft, mc.effects;
  }

  method FinishIfDone(c: Chart, snap: Snapshot, event: Event, effects: seq<Effect>)
    returns (next: Snapshot, effects': seq<Effect>)
    ensures next == Finish(c, snap, event).0 && effects' == effects + Finish(c, snap, event).1
  {
    next, effects' := snap, effects;
    if snap.status != F.Done { return; }
    var exited := Reverse(snap.configuration);
    var ctx;
    ctx, effects' := RunExits(c, exited, snap.context, event, effects);
    ghost var own := RunBlocks(c, ExitBlocks(exited), MicroCtx(snap.context, [], [], 0, false), event).effects;
    effects' := EmitDelayEffects(c, exited, [], ctx, event, effects');
    effects' := EmitInvokeEffects(c, exited, [], effects');
    Regroup(effects, own, Cancels(c, exited), Stops(c, exited));
    assert effects + own + Cancels(c, exited) + [] + Stops(c, exited) + []
        == effects + own + Cancels(c, exited) + Stops(c, exited);
    next := snap.(context := ctx);
  }

  const STOP_EVENT := Event("xstate.stop", None)

  /** Stopping from outside runs the exit actions of an active machine, deepest first, and nothing else. */
  method OnStop(c: Chart, cur: Snapshot, effects: seq<Effect>) returns (effects': seq<Effect>)
    ensures cur.status != F.Active ==> effects' == effects
    ensures cur.status == F.Active ==>
      effects' == effects + RunBlocks(c, ExitBlocks(Reverse(cur.configuration)),
                                      MicroCtx(cur.context, [], [], 0, false), Event("xstate.stop", None)).effects
  {
    effects' := effects;
    if cur.status != F.Active { return; }
    var ctx;
    ctx, effects' := RunExits(c, Reverse(cur.configuration), cur.context, STOP_EVENT, effects);
  }

  /** How a macrostep went: its first microstep, what that left, and how it settled. */
  datatype Macro = Macro(first: Snapshot, own: Surroundings, progress: bool, run: Run)

  /** Having taken its first step, the machine settles and, if done, finishes. */
  ghost predicate Concludes(c: Chart, m: Macro, event: Event, next: Snapshot, effects: seq<Effect>) {
    && IsRun(c, m.run) && m.run.states[0] == Loop(m.first, m.own.queue, true) && Stable(c, Last(m.run))
    && next == Finish(c, Last(m.run).snap, event).0
    && effects == m.own.effects + EffectsOf(m.run.passes) + Finish(c, Last(m.run).snap, event).1
  }

  /** `snap` enters the chart from its root with context `ctx`. */
  ghost predicate IsInitialStep(c: Chart, ctx: Context, snap: Snapshot, own: Surroundings) {
    var active := Elems(snap.configuration);
    var order := Ordered(Size(c), active);
    var mc := EnterActions(c, order, active - {0}, MicroCtx(ctx, [], [], 0, false), INIT_EVENT);
    var done := F.Completed(c, order, active, mc.draft, INIT_EVENT);
    && Completes(c, {0}, active) && snap.configuration == order && snap.historyValue == map[]
    && snap.context == mc.draft && own == Surroundings(mc.effects, mc.queue + done.raised)
    && snap.status == done.status && snap.output == done.output && snap.error == None
    && snap.value == ValueOf(c, 0, active) && snap.tags == TagsOf(c, order)
  }

  ghost predicate IsInitial(c: Chart, ctx: Context, m: Macro, next: Snapshot, effects: seq<Effect>) {
    IsInitialStep(c, ctx, m.first, m.own) && Concludes(c, m, INIT_EVENT, next, effects)
  }

  /** Whether `event` changes anything. */
  predicate Accepts(c: Chart, cur: Snapshot, event: Event) {
    cur.status == F.Active && Selected(c, cur, event) != []
  }

  /** What delivering `event` does to `cur`; `m` tells how, if it does anything. */
  ghost predicate IsMacrostep(c: Chart, cur: Snapshot, event: Event, m: Macro, next: Snapshot, effects: seq<Effect>) {
    if !Accepts(c, cur, event) then next == cur && effects == []
    else
      && IsMicrostep(c, Selected(c, cur, event), cur, event, NOTHING, m.first, m.own, m.progress)
      && Concludes(c, m, event, next, effects)
  }

  /** The loop limit was hit with the machine still active and its `m.own.queue` unsettled. */
  ghost predicate Loops(c: Chart, m: Macro) {
    && IsRun(c, m.run) && m.run.states[0] == Loop(m.first, m.own.queue, true)
    && |m.run.passes| == STEP_LIMIT && Last(m.run).snap.status == F.Active
  }

  /** Descending from the root gives the one legal configuration entered by default. */
  lemma {:induction false} InitialConfiguration(c: WFChart, l: seq<int>)
    requires Descent(c, 0, l)
    ensures Completes(c, {0}, Elems(l)) && l == Ordered(Size(c), Elems(l)) && 0 in l
    ensures SameVia(c, l, ViaOf(c, 0, l, false), Elems(l) - {0})
  {
    var t := Elems(l);
    assert l[0] in l;
    forall n | n in t ensures Settled(c, t, n) {
      assert Expanded(c, n, l);
      if Initial(c, n) != NULL { EntryChildIsChild(c, n); }
    }
    forall n | n in t && n != 0 ensures Parent(c, n) in t && Missing(c, {0}, n) {
      assert Parent(c, n) in l;
    }
    FillsLegal(c, {0}, t);
    AscendingUnique(l, Ordered(Size(c), t));
  }

  ghost predicate SameVia(c: Chart, nodes: seq<int>, via: set<int>, via': set<int>) {
    forall n :: n in nodes && Parent(c, n) != NULL && Initial(c, Parent(c, n)) == n ==> (n in via <==> n in via')
  }

  lemma {:induction false} InitialStepGood(c: WFChart, ctx: Context, snap: Snapshot, own: Surroundings)
    requires IsInitialStep(c, ctx, snap, own)
    ensures Good(c, snap)
  {
    var active := Elems(snap.configuration);
    var order := Ordered(Size(c), active);
    var mc := EnterActions(c, order, active - {0}, MicroCtx(ctx, [], [], 0, false), INIT_EVENT);
    F.DoneStatusExact(c, order, active, mc.draft, INIT_EVENT);
    assert 0 in order;
  }

  /** Entering the initial configuration appends to whatever effects there were. */
  lemma {:induction false} InitialEntry(c: Chart, l: seq<int>, via: set<int>, ctx: Context, effects: seq<Effect>)
    returns (mc: MicroCtx)
    requires SameVia(c, l, via, Elems(l) - {0})
    ensures mc == EnterActions(c, l, Elems(l) - {0}, MicroCtx(ctx, [], [], 0, false), INIT_EVENT)
    ensures EnterActions(c, l, via, MicroCtx(ctx, effects, [], 0, false), INIT_EVENT) == After(effects, [], mc)
    ensures After(effects, [], mc).queue == mc.queue
  {
    var start := MicroCtx(ctx, [], [], 0, false);
    mc := EnterActions(c, l, Elems(l) - {0}, start, INIT_EVENT);
    SameEntryBlocks(c, l, via, Elems(l) - {0});
    assert effects + [] == effects && [] + start.queue == start.queue;
    EnterAfter(c, l, Elems(l) - {0}, effects, [], start, INIT_EVENT);
    assert [] + mc.queue == mc.queue;
  }

  /** The initial configuration and which of it was entered through initial transitions. */
  method InitialNodes(c: WFChart) returns (cfg: seq<int>, via: set<int>)
    ensures Completes(c, {0}, Elems(cfg)) && cfg == Ordered(Size(c), Elems(cfg)) && 0 in cfg
    ensures SameVia(c, cfg, via, Elems(cfg) - {0})
  {
    ghost var l;
    cfg, via, l := AddInitial(c, 0, [], {}, false);
    assert cfg == l;
    InitialConfiguration(c, l);
  }

  /** Entering the chart from its root, behind the effects there were. */
  method EnterChart(c: WFChart, ctx: Context, effects: seq<Effect>)
    returns (snap: Snapshot, scope: Surroundings, ghost env: Surroundings)
    ensures IsInitialStep(c, ctx, snap, env) && scope == Surroundings(effects + env.effects, env.queue)
  {
    var cfg, via := InitialNodes(c);
    var active := Elems(cfg);
    ghost var alone := InitialEntry(c, cfg, via, ctx, effects);
    var mc := Enter(c, cfg, via, MicroCtx(ctx, effects, [], 0, false), INIT_EVENT);
    var status, output, queue := F.ProcessFinals(c, cfg, active, mc.draft, INIT_EVENT, mc.queue);
    var value, tags := FinalizeSnapshot(c, cfg);
    snap := Snapshot(status, output, None, value, mc.draft, tags, cfg, map[]);
    scope, env := Surroundings(mc.effects, queue), Surroundings(alone.effects, queue);
  }

  /** However the chart is entered with `ctx`, settling then fits. */
  ghost predicate StartFits(c: Chart, ctx: Context) {
    forall snap, own {:trigger IsInitialStep(c, ctx, snap, own)} ::
      IsInitialStep(c, ctx, snap, own) ==> Fitting(c, Loop(snap, own.queue, true))
  }

  /** What `event` selects fits, and so does settling after it. */
  ghost predicate EventFits(c: Chart, cur: Snapshot, event: Event) {
    Accepts(c, cur, event) ==>
      && StepFits(c, cur, event)
      && forall first, own, p {:trigger IsMicrostep(c, Selected(c, cur, event), cur, event, NOTHING, first, own, p)} ::
           IsMicrostep(c, Selected(c, cur, event), cur, event, NOTHING, first, own, p) ==>
             Fitting(c, Loop(first, own.queue, true))
  }

  lemma {:induction false} StartAlwaysFits(c: RunChart, ctx: Context)
    ensures StartFits(c, ctx)
  {
    forall snap, own | IsInitialStep(c, ctx, snap, own) ensures Fitting(c, Loop(snap, own.queue, true)) {
      InitialStepGood(c, ctx, snap, own);
      AlwaysFitting(c, Loop(snap, own.queue, true));
    }
  }

  lemma {:induction false} EventAlwaysFits(c: RunChart, cur: Snapshot, event: Event)
    requires Good(c, cur)
    ensures EventFits(c, cur, event)
  {
    AlwaysFits(c, cur, event);
    if Accepts(c, cur, event) {
      forall first, own, p | IsMicrostep(c, Selected(c, cur, event), cur, event, NOTHING, first, own, p)
        ensures Fitting(c, Loop(first, own.queue, true))
      {
        GoodExactly(c, cur, event, NOTHING, first, own, p);
        AlwaysFitting(c, Loop(first, own.queue, true));
      }
    }
  }

  method GetInitialSnapshot(c: WFChart, ctx: Context, effects: seq<Effect>)
    returns (r: Result<Snapshot, string>, effects': seq<Effect>, ghost m: Macro, ghost own: seq<Effect>)
    requires Orthogonal(c) && StartFits(c, ctx)
    ensures IsInitialStep(c, ctx, m.first, m.own)
    ensures r.Err? ==> Loops(c, m)
    ensures r.Ok? ==> Good(c, r.value) && effects <= effects'
    ensures r.Ok? ==> IsInitial(c, ctx, m, r.value, own) && effects' == effects + own
  {
    var snap, scope;
    ghost var env;
    snap, scope, env := EnterChart(c, ctx, effects);
    InitialStepGood(c, ctx, snap, env);
    r, effects', m, own := Conclude(c, snap, INIT_EVENT, scope, effects, env, true);
  }

  lemma Regroup<T>(s: seq<T>, t: seq<T>, u: seq<T>, v: seq<T>)
    ensures s + t + u + v == s + (t + u + v)
  {}

  lemma {:induction false} Concluded(c: Chart, m: Macro, event: Event, before: seq<Effect>, effects: seq<Effect>)
    returns (own: seq<Effect>)
    requires IsRun(c, m.run) && m.run.states[0] == Loop(m.first, m.own.queue, true) && Stable(c, Last(m.run))
    requires effects == before + m.own.effects + EffectsOf(m.run.passes) + Finish(c, Last(m.run).snap, event).1
    ensures Concludes(c, m, event, Finish(c, Last(m.run).snap, event).0, own) && effects == before + own
  {
    var tail := Finish(c, Last(m.run).snap, event).1;
    own := m.own.effects + EffectsOf(m.run.passes) + tail;
    Regroup(before, m.own.effects, EffectsOf(m.run.passes), tail);
  }

  /** Settling and finishing; `env` is what the first step left itself, after the effects that were `before` it. */
  method Conclude(c: WFChart, first: Snapshot, event: Event, scope: Surroundings, ghost before: seq<Effect>,
                  ghost env: Surroundings, ghost progress: bool)
    returns (r: Result<Snapshot, string>, effects: seq<Effect>, ghost m: Macro, ghost own: seq<Effect>)
    requires Orthogonal(c) && Good(c, first) && Fitting(c, Loop(first, env.queue, true))
    requires scope == Surroundings(before + env.effects, env.queue)
    ensures m.first == first && m.own == env && m.progress == progress
    ensures r.Err? ==> Loops(c, m)
    ensures r.Ok? ==> Good(c, r.value) && before <= effects
    ensures r.Ok? ==> Concludes(c, m, event, r.value, own) && effects == before + own
  {
    ghost var run;
    var settled, env';
    settled, env', run := Stabilize(c, first, scope);
    m, own := Macro(first, env, progress, run), [];
    effects := env'.effects;
    if settled.Err? {
      r := Err(settled.error);
    } else {
      var next;
      next, effects := FinishIfDone(c, settled.value, event, effects);
      r := Ok(next);
      own := Concluded(c, m, event, before, effects);
    }
  }

  method Transition(c: WFChart, cur: Snapshot, event: Event, effects: seq<Effect>)
    returns (r: Result<Snapshot, string>, effects': seq<Effect>, ghost m: Macro, ghost own: seq<Effect>)
    requires Orthogonal(c) && Good(c, cur) && EventFits(c, cur, event)
    ensures !Accepts(c, cur, event) ==> r == Ok(cur)
    ensures r.Ok? ==> Good(c, r.value) && effects <= effects'
    ensures r.Err? ==> Loops(c, m) && IsMicrostep(c, Selected(c, cur, event), cur, event, NOTHING, m.first, m.own,
                                                  m.progress)
    ensures r.Ok? ==> IsMacrostep(c, cur, event, m, r.value, own) && effects' == effects + own
  {
    r, effects', m, own := Ok(cur), effects, Macro(cur, NOTHING, false, Run([], [])), [];
    assert effects + [] == effects;
    if cur.status != F.Active { return; }
    OrthogonalTargetsExist(c);
    var selected := SelectTransitions(c, cur, event);
    if selected == [] { return; }
    SelectedTakes(c, cur, event);
    var first, scope, progress := Microstep(c, selected, cur, event, Surroundings(effects, []));
    ghost var env := MicrostepAlone(c, selected, cur, event, Surroundings(effects, []), first, scope, progress);
    GoodExactly(c, cur, event, NOTHING, first, env, progress);
    assert scope.queue == env.queue;
    r, effects', m, own := Conclude(c, first, event, scope, effects, env, progress);
  }
}
