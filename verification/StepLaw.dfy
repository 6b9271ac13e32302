/**
 What whole steps do to the context, the internal queue and the effects, read off the lists of actions in the chart.
 */
module StepLaws {
  import opened Basics
  import opened StateNodes
  import opened Configurations
  import opened Targeting
  import opened Stepping
  import opened StepStarts
  import opened Histories
  import opened Actions
  import opened Microsteps
  import opened Macrosteps
  import opened Orderings
  import F = Finals

  // ---- the actions of a step, in the order they run ----

  function ExitActions(c: Chart, nodes: seq<int>): seq<Action> {
    if nodes == [] then [] else At(c, nodes[0]).exit + ExitActions(c, nodes[1..])
  }

  function TransitionActions(c: Chart, sel: seq<TransitionRef>): seq<Action> {
    if sel == [] then [] else Def(c, sel[0]).actions + TransitionActions(c, sel[1..])
  }

  /** The entry actions of `n`, behind those of its parent's initial transition if that leads to it. */
  function EntryActionsOf(c: Chart, n: int, initially: set<int>): seq<Action> {
    if n != 0 && n in initially && Initial(c, Parent(c, n)) == n then
      At(c, Parent(c, n)).initialActions + At(c, n).entry
    else At(c, n).entry
  }

  function EntryActions(c: Chart, nodes: seq<int>, initially: set<int>): seq<Action> {
    if nodes == [] then [] else EntryActionsOf(c, nodes[0], initially) + EntryActions(c, nodes[1..], initially)
  }

  lemma {:induction false} ExitsRun(c: Chart, nodes: seq<int>, mc: MicroCtx, event: Event)
    ensures RunBlocks(c, ExitBlocks(nodes), mc, event) == ExecuteAll(ExitActions(c, nodes), mc, event)
    decreases |nodes|
  {
    if nodes != [] {
      var first, rest := At(c, nodes[0]).exit, ExitActions(c, nodes[1..]);
      assert ExitBlocks(nodes)[1..] == ExitBlocks(nodes[1..]);
      ExitsRun(c, nodes[1..], ExecuteAll(first, mc, event), event);
      ExecuteAllConcat(first, rest, mc, event);
    }
  }

  lemma {:induction false} TransitionsRun(c: Chart, sel: seq<TransitionRef>, mc: MicroCtx, event: Event)
    ensures RunBlocks(c, TransitionBlocks(sel), mc, event) == ExecuteAll(TransitionActions(c, sel), mc, event)
    decreases |sel|
  {
    if sel != [] {
      var first, rest := Def(c, sel[0]).actions, TransitionActions(c, sel[1..]);
      assert TransitionBlocks(sel)[1..] == TransitionBlocks(sel[1..]);
      TransitionsRun(c, sel[1..], ExecuteAll(first, mc, event), event);
      ExecuteAllConcat(first, rest, mc, event);
    }
  }

  lemma {:induction false} EntryRuns(c: Chart, n: int, initially: set<int>, mc: MicroCtx, event: Event)
    requires 0 <= n < Size(c)
    ensures RunBlocks(c, EntryBlock(c, initially, n), mc, event)
         == ExecuteAll(EntryActionsOf(c, n, initially), mc, event)
  {
    var entry := At(c, n).entry;
    if n != 0 && n in initially && Initial(c, Parent(c, n)) == n {
      var before := At(c, Parent(c, n)).initialActions;
      var mc1 := ExecuteAll(before, mc, event);
      ExecuteAllConcat(before, entry, mc, event);
      assert EntryBlock(c, initially, n)[1..] == [EntryOf(n)];
      assert RunBlocks(c, [EntryOf(n)], mc1, event) == ExecuteAll(entry, mc1, event);
    } else {
      assert EntryBlock(c, initially, n) == [EntryOf(n)];
    }
  }

  lemma {:induction false} EntriesRun(c: Chart, nodes: seq<int>, initially: set<int>, mc: MicroCtx, event: Event)
    requires forall n :: n in nodes ==> 0 <= n < Size(c)
    ensures RunBlocks(c, EntryBlocks(c, nodes, initially), mc, event)
         == ExecuteAll(EntryActions(c, nodes, initially), mc, event)
    decreases |nodes|
  {
    if nodes != [] {
      var n := nodes[0];
      assert n in nodes && forall m :: m in nodes[1..] ==> m in nodes;
      var first, rest := EntryActionsOf(c, n, initially), EntryActions(c, nodes[1..], initially);
      var mc1 := RunBlocks(c, EntryBlock(c, initially, n), mc, event);
      RunBlocksConcat(c, EntryBlock(c, initially, n), EntryBlocks(c, nodes[1..], initially), mc, event);
      EntryRuns(c, n, initially, mc, event);
      EntriesRun(c, nodes[1..], initially, mc1, event);
      ExecuteAllConcat(first, rest, mc, event);
    }
  }

  // ---- timers and invoked children ----

  /** What states being exited and entered do to timers and invoked children is done state by state. */
  lemma {:induction false} TasksConcat(c: Chart, s: seq<int>, t: seq<int>, ctx: Context, event: Event)
    ensures Cancels(c, s + t) == Cancels(c, s) + Cancels(c, t)
    ensures Stops(c, s + t) == Stops(c, s) + Stops(c, t)
    ensures Spawns(c, s + t) == Spawns(c, s) + Spawns(c, t)
    ensures Starts(c, s + t, ctx, event) == Starts(c, s, ctx, event) + Starts(c, t, ctx, event)
    decreases |s|
  {
    if s == [] {
      assert s + t == t;
    } else {
      var n, rest := s[0], s[1..];
      assert (s + t)[1..] == rest + t;
      TasksConcat(c, rest, t, ctx, event);
      AppendAfter(CancelsOf(c, n), Cancels(c, rest), Cancels(c, t));
      AppendAfter(StopsOf(c, n), Stops(c, rest), Stops(c, t));
      AppendAfter(SpawnsOf(c, n), Spawns(c, rest), Spawns(c, t));
      AppendAfter(StartsOf(c, n, ctx, event), Starts(c, rest, ctx, event), Starts(c, t, ctx, event));
    }
  }

  /** A state being exited cancels the timers it has, and stops the children it invokes. */
  lemma {:induction false} TasksEnded(c: Chart, n: int)
    ensures |Cancels(c, [n])| == |At(c, n).delays| && |Stops(c, [n])| == |At(c, n).invokes|
    ensures forall i :: 0 <= i < |At(c, n).delays| ==> Cancels(c, [n])[i] == CancelTimer(At(c, n).delays[i].eventType)
    ensures forall i :: 0 <= i < |At(c, n).invokes| ==> Stops(c, [n])[i] == StopChild(At(c, n).invokes[i].id)
  {
    assert Cancels(c, [n][1..]) == [] && Stops(c, [n][1..]) == [];
  }

  /**
   A state being entered spawns the children it invokes, to be stopped when it
   is exited, and starts a timer for each delayed transition: under the
   transition's event type, to send that event to the machine itself, after
   what the delay is in the given context.
   */
  lemma {:induction false} TasksBegun(c: Chart, n: int, ctx: Context, event: Event)
    ensures |Spawns(c, [n])| == |At(c, n).invokes| && |Starts(c, [n], ctx, event)| == |At(c, n).delays|
    ensures forall i :: 0 <= i < |At(c, n).invokes| ==>
      Spawns(c, [n])[i] == SpawnChild(At(c, n).invokes[i].id, At(c, n).invokes[i].src, true)
    ensures forall i :: 0 <= i < |At(c, n).delays| ==>
      var d := At(c, n).delays[i];
      Starts(c, [n], ctx, event)[i] == StartTimer(d.eventType, "", Event(d.eventType, None), d.ms(ctx, event))
  {
    assert Spawns(c, [n][1..]) == [] && Starts(c, [n][1..], ctx, event) == [];
  }

  lemma {:induction false} AllRan(actions: seq<Action>, mc: MicroCtx, event: Event)
    ensures ExecuteAll(actions, mc, event) ==
            MicroCtx(Through(actions, mc.draft, event), mc.effects + LeftBy(actions, mc.sendCounter),
                     mc.queue + Raised(actions), mc.sendCounter + IdsFor(actions), mc.didAssign || Assigns(actions))
  {
    ExecuteAllRan(actions, mc, event);
  }

  /** The effects of leaving: those of exit actions, the ending of what the exited states started, of transitions. */
  function LeaveEffects(c: Chart, exited: seq<int>, sel: seq<TransitionRef>): seq<Effect> {
    LeftBy(ExitActions(c, exited), 0) + Cancels(c, exited) + Stops(c, exited)
    + LeftBy(TransitionActions(c, sel), IdsFor(ExitActions(c, exited)))
  }

  /** The effects of entering: the spawning of invoked children, those of entry actions, timers. */
  function EnterEffects(c: Chart, entered: seq<int>, initially: set<int>, ids: nat, ctx: Context, event: Event)
    : seq<Effect>
  {
    Spawns(c, entered) + LeftBy(EntryActions(c, entered, initially), ids) + Starts(c, entered, ctx, event)
  }

  /** `left` is where leaving `exited` on taking `sel` leads to. */
  ghost predicate LeftFrom(c: Chart, exited: seq<int>, sel: seq<TransitionRef>, ctx: Context, env: Surroundings,
                           event: Event, left: MicroCtx) {
    var x, t := ExitActions(c, exited), TransitionActions(c, sel);
    && left.draft == Through(t, Through(x, ctx, event), event)
    && left.effects == env.effects + LeaveEffects(c, exited, sel)
    && left.queue == env.queue + Raised(x) + Raised(t)
    && left.sendCounter == IdsFor(x) + IdsFor(t) && (left.didAssign <==> Assigns(x) || Assigns(t))
  }

  /** `mc` is where entering `entered` leads to from `left`. */
  ghost predicate EnteredFrom(c: Chart, entered: seq<int>, initially: set<int>, event: Event, left: MicroCtx,
                              mc: MicroCtx) {
    var n := EntryActions(c, entered, initially);
    && mc.draft == Through(n, left.draft, event)
    && mc.effects == left.effects + EnterEffects(c, entered, initially, left.sendCounter, mc.draft, event)
    && mc.queue == left.queue + Raised(n)
    && mc.sendCounter == left.sendCounter + IdsFor(n) && (mc.didAssign <==> left.didAssign || Assigns(n))
  }

  lemma {:induction false} LeaveExact(c: Chart, exited: seq<int>, sel: seq<TransitionRef>, ctx: Context,
                                      env: Surroundings, event: Event)
    ensures LeftFrom(c, exited, sel, ctx, env, event,
                     LeaveActions(c, exited, sel, MicroCtx(ctx, env.effects, env.queue, 0, false), event))
  {
    var start := MicroCtx(ctx, env.effects, env.queue, 0, false);
    var a, b := ExitActions(c, exited), TransitionActions(c, sel);
    ExitsRun(c, exited, start, event);
    AllRan(a, start, event);
    var m := ExecuteAll(a, start, event);
    var m' := m.(effects := m.effects + Cancels(c, exited) + Stops(c, exited));
    TransitionsRun(c, sel, m', event);
    AllRan(b, m', event);
    Spread(env.effects, LeftBy(a, 0), Cancels(c, exited), Stops(c, exited), LeftBy(b, IdsFor(a)));
  }

  lemma Spread<T>(b: seq<T>, s: seq<T>, t: seq<T>, u: seq<T>, v: seq<T>)
    ensures b + s + t + u + v == b + (s + t + u + v)
  {}

  lemma {:induction false} EnterExact(c: Chart, entered: seq<int>, initially: set<int>, left: MicroCtx, event: Event)
    requires forall n :: n in entered ==> 0 <= n < Size(c)
    ensures EnteredFrom(c, entered, initially, event, left, EnterActions(c, entered, initially, left, event))
  {
    var a, m := EntryActions(c, entered, initially), left.(effects := left.effects + Spawns(c, entered));
    EntriesRun(c, entered, initially, m, event);
    AllRan(a, m, event);
    Regroup(left.effects, Spawns(c, entered), LeftBy(a, left.sendCounter),
            Starts(c, entered, Through(a, left.draft, event), event));
  }

  // ---- steps ----

  /**
   What a microstep leaves in the context, the internal queue and the effects.
   The context goes through the exit actions, deepest first, those of the
   transitions and the entry actions, outermost first. The queue grows by what
   they raise in that order, and by the done events. The effects grow by those
   of leaving and of entering.
   */
  lemma {:induction false} StepExact(c: Chart, sel: seq<TransitionRef>, cur: Snapshot, event: Event,
                                     env: Surroundings, next: Snapshot, env': Surroundings, progress: bool)
    returns (left: MicroCtx, mc: MicroCtx)
    requires IsMicrostep(c, sel, cur, event, env, next, env', progress)
    ensures LeftFrom(c, Reverse(Ordered(Size(c), ExitedIn(c, sel, cur))), sel, cur.context, env, event, left)
    ensures EnteredFrom(c, Ordered(Size(c), EnteredIn(c, sel, cur, next)), InitiallyIn(c, sel, cur, next), event, left,
                        mc)
    ensures next.context == mc.draft && env'.effects == mc.effects
    ensures env'.queue == mc.queue + F.Completed(c, Ordered(Size(c), EnteredIn(c, sel, cur, next)),
                                                 Elems(next.configuration), next.context, event).raised
    ensures progress <==> ExitedIn(c, sel, cur) != {} || EnteredIn(c, sel, cur, next) != {} || mc.didAssign
  {
    var exited := Reverse(Ordered(Size(c), ExitedIn(c, sel, cur)));
    left, mc := StepOutcome(c, sel, cur, event, env, next, env', progress);
    LeaveExact(c, exited, sel, cur.context, env, event);
    EnterExact(c, Ordered(Size(c), EnteredIn(c, sel, cur, next)), InitiallyIn(c, sel, cur, next), left, event);
  }

  /** What of the step its actions decide. */
  lemma {:induction false} StepOutcome(c: Chart, sel: seq<TransitionRef>, cur: Snapshot, event: Event,
                                       env: Surroundings, next: Snapshot, env': Surroundings, progress: bool)
    returns (left: MicroCtx, mc: MicroCtx)
    requires IsMicrostep(c, sel, cur, event, env, next, env', progress)
    ensures left == LeaveActions(c, Reverse(Ordered(Size(c), ExitedIn(c, sel, cur))), sel,
                                 MicroCtx(cur.context, env.effects, env.queue, 0, false), event)
    ensures var entered := Ordered(Size(c), EnteredIn(c, sel, cur, next));
            && mc == EnterActions(c, entered, InitiallyIn(c, sel, cur, next), left, event)
            && next.context == mc.draft && env'.effects == mc.effects
            && env'.queue == mc.queue + F.Completed(c, entered, Elems(next.configuration), mc.draft, event).raised
            && (progress <==> ExitedIn(c, sel, cur) != {} || EnteredIn(c, sel, cur, next) != {} || mc.didAssign)
  {
    left := LeaveActions(c, Reverse(Ordered(Size(c), ExitedIn(c, sel, cur))), sel,
                         MicroCtx(cur.context, env.effects, env.queue, 0, false), event);
    mc := EnterActions(c, Ordered(Size(c), EnteredIn(c, sel, cur, next)), InitiallyIn(c, sel, cur, next), left, event);
  }

  // ---- where targets lead ----

  /** What history node `h` stands for: what it has stored, failing that its default. */
  ghost predicate StandsFor(c: Chart, hist: HistoryMap, h: int, y: int) {
    if Id(c, h) in hist && hist[Id(c, h)] != [] then y in hist[Id(c, h)]
    else Default(c, h) != NULL && y == Default(c, h)
  }

  /**
   Target `x` asks for `y`: a state for itself; a history node for its parent and
   what it stands for, or if that is nothing for its parent's initial state, or
   what this stands for if it is a history node too.
   */
  ghost predicate AsksFor(c: Chart, hist: HistoryMap, x: int, y: int) {
    if Kind(c, x) != History then y == x
    else
      var i := Initial(c, Parent(c, x));
      || y == Parent(c, x)
      || StandsFor(c, hist, x, y)
      || ((forall z :: !StandsFor(c, hist, x, z)) && i != NULL
          && if Kind(c, i) == History then StandsFor(c, hist, i, y) else y == i)
  }

  lemma {:induction false} StandsForExact(c: Chart, hist: HistoryMap, h: int)
    ensures forall y :: StandsFor(c, hist, h, y) <==> y in StoredOrDefault(c, hist, h)
    ensures (forall y :: !StandsFor(c, hist, h, y)) <==> StoredOrDefault(c, hist, h) == []
  {
    var l := StoredOrDefault(c, hist, h);
    assert l != [] ==> l[0] in l && StandsFor(c, hist, h, l[0]);
  }

  lemma {:induction false} AimExact(c: Chart, hist: HistoryMap, x: int, y: int)
    ensures Aim(c, hist, x, y) <==> AsksFor(c, hist, x, y)
  {
    StandsForExact(c, hist, x);
    StandsForExact(c, hist, Initial(c, Parent(c, x)));
  }

  lemma {:induction false} AimReached(c: WFChart, active: set<int>, hist: HistoryMap, sel: seq<TransitionRef>, i: nat,
                                      x: int, y: int)
    requires HistoryValid(c, hist) && 0 <= x < Size(c) && i < |sel| && x in Targets(c, sel[i]) && Aim(c, hist, x, y)
    ensures y in Start(c, active, hist, sel)
  {
    AimBelow(c, hist, x, y);
    assert Aimed(c, hist, sel, i, x, y) && Desc(c, y, y);
    assert y in Paths(c, hist, sel);
  }

  /** What a target of a selected transition asks for is active after the step, whatever else was selected. */
  lemma {:induction false} TargetsReached(c: WFChart, sel: seq<TransitionRef>, cur: Snapshot, event: Event,
                                          env: Surroundings, next: Snapshot, env': Surroundings, progress: bool, i: nat,
                                          x: int, y: int)
    requires Takes(c, cur, sel) && IsMicrostep(c, sel, cur, event, env, next, env', progress)
    requires i < |sel| && x in Targets(c, sel[i]) && AsksFor(c, next.historyValue, x, y)
    ensures y in next.configuration
  {
    var active, hist := Elems(cur.configuration), next.historyValue;
    RecordingKeepsValid(c, active, Exits(c, active, sel), cur.historyValue, hist);
    SelectedFacts(c, active, hist, sel, i);
    AimExact(c, hist, x, y);
    AimReached(c, active, hist, sel, i, x, y);
    assert y in Elems(next.configuration);
  }

  /** `n` is a region of a parallel state, or where its parent's initial transition leads. */
  ghost predicate Starting(c: Chart, n: int) {
    var p := Parent(c, n);
    || Kind(c, p) == Parallel
    || n == Initial(c, p)
    || (Kind(c, Initial(c, p)) == History && n == Default(c, Initial(c, p)))
  }

  /** `n` lies on the way to what a target of `sel` asks for. */
  ghost predicate OnTheWay(c: Chart, hist: HistoryMap, sel: seq<TransitionRef>, n: int) {
    exists i, x, y {:trigger x in Targets(c, sel[i]), AsksFor(c, hist, x, y)} ::
      0 <= i < |sel| && x in Targets(c, sel[i]) && AsksFor(c, hist, x, y) && Desc(c, y, n)
  }

  /** Whatever a step enters lies on the way to what a target asks for, or is where its parent starts. */
  lemma {:induction false} EnteredBecause(c: WFChart, sel: seq<TransitionRef>, cur: Snapshot, event: Event,
                                          env: Surroundings, next: Snapshot, env': Surroundings, progress: bool, n: int)
    requires Takes(c, cur, sel) && IsMicrostep(c, sel, cur, event, env, next, env', progress)
    requires n in EnteredIn(c, sel, cur, next)
    ensures OnTheWay(c, next.historyValue, sel, n) || Starting(c, n)
  {
    var active, hist := Elems(cur.configuration), next.historyValue;
    RecordingKeepsValid(c, active, Exits(c, active, sel), cur.historyValue, hist);
    if n in Paths(c, hist, sel) {
      var i, x, y :| Aimed(c, hist, sel, i, x, y) && Desc(c, y, n);
      AimExact(c, hist, x, y);
    } else if n in Start(c, active, hist, sel) {
      var j, t, y := OpenedBy(c, active, hist, sel, n);
      ParentDefault(c, n, y);
    } else {
      assert Missing(c, Start(c, active, hist, sel), n);
    }
  }

  /** Every state a machine starts in but the root is where its parent starts. */
  lemma {:induction false} StartedBecause(c: Chart, ctx: Context, snap: Snapshot, own: Surroundings, n: int)
    requires IsInitialStep(c, ctx, snap, own) && n in snap.configuration && n != 0
    ensures Starting(c, n) && Parent(c, n) in snap.configuration && 0 in snap.configuration
  {
    assert n in Elems(snap.configuration) && 0 in Elems(snap.configuration);
    assert ByDefault(c, n) && Parent(c, n) in Elems(snap.configuration);
  }

  /** A step's result: no error, the tags of its states, and an output just if a final child of the root is entered. */
  lemma {:induction false} StepResult(c: Chart, sel: seq<TransitionRef>, cur: Snapshot, event: Event,
                                      env: Surroundings, next: Snapshot, env': Surroundings, progress: bool)
    requires IsMicrostep(c, sel, cur, event, env, next, env', progress)
    ensures next.error == None && next.tags == Firsts(AllTags(c, next.configuration))
    ensures if Kind(c, 0) != Parallel && exists f :: f in EnteredIn(c, sel, cur, next) && F.FinalChild(c, f, 0) then
              exists f :: f in EnteredIn(c, sel, cur, next) && F.FinalChild(c, f, 0)
                          && F.PutsOut(c, f, next.context, event, next.output)
            else next.output == None
  {
    var entered := Ordered(Size(c), EnteredIn(c, sel, cur, next));
    F.OutputExact(c, entered, Elems(next.configuration), next.context, event);
    TagsExact(c, next.configuration);
    forall f | f in EnteredIn(c, sel, cur, next) ensures f in entered {}
    if Kind(c, 0) != Parallel && exists f :: f in EnteredIn(c, sel, cur, next) && F.FinalChild(c, f, 0) {
      var i :| F.LastFinal(c, entered, i) && F.PutsOut(c, entered[i], next.context, event, next.output);
      assert entered[i] in entered;
    }
  }

  /** Entering the chart from its root is the entering half of a step, all states counting as entered initially. */
  lemma {:induction false} InitialExact(c: Chart, ctx: Context, snap: Snapshot, own: Surroundings)
    returns (mc: MicroCtx)
    requires IsInitialStep(c, ctx, snap, own)
    ensures var cfg, init := snap.configuration, Event("xstate.init", None);
            && EnteredFrom(c, cfg, Elems(cfg), init, MicroCtx(ctx, [], [], 0, false), mc)
            && snap.context == mc.draft && own.effects == mc.effects
            && own.queue == mc.queue + F.Completed(c, cfg, Elems(cfg), snap.context, init).raised
  {
    var cfg, active := snap.configuration, Elems(snap.configuration);
    var start := MicroCtx(ctx, [], [], 0, false);
    assert forall n :: n in cfg ==> n in active;
    mc := EnterActions(c, cfg, active - {0}, start, INIT_EVENT);
    EnterExact(c, cfg, active - {0}, start, INIT_EVENT);
    SameEntryActions(c, cfg, active, active - {0});
  }

  lemma {:induction false} SameEntryActions(c: Chart, nodes: seq<int>, via: set<int>, via': set<int>)
    requires forall n :: n in nodes && n != 0 ==> (n in via <==> n in via')
    ensures EntryActions(c, nodes, via) == EntryActions(c, nodes, via')
  {
    if nodes != [] {
      assert nodes[0] in nodes && forall n :: n in nodes[1..] ==> n in nodes;
      SameEntryActions(c, nodes[1..], via, via');
    }
  }

  // ---- finishing and stopping ----

  /**
   A machine that is done runs the exit actions of all active states, deepest
   first, and then ends what they started; what is raised meanwhile is lost. Any
   other machine is left alone.
   */
  lemma {:induction false} FinishExact(c: Chart, snap: Snapshot, event: Event)
    ensures var deepestFirst := Reverse(snap.configuration);
            var a := ExitActions(c, deepestFirst);
            Finish(c, snap, event) ==
            if snap.status != F.Done then (snap, [])
            else (snap.(context := Through(a, snap.context, event)),
                  LeftBy(a, 0) + Cancels(c, deepestFirst) + Stops(c, deepestFirst))
  {
    ExitsExact(c, Reverse(snap.configuration), snap.context, event);
  }

  lemma {:induction false} ExitsExact(c: Chart, exited: seq<int>, ctx: Context, event: Event)
    ensures var mc := RunBlocks(c, ExitBlocks(exited), MicroCtx(ctx, [], [], 0, false), event);
            mc.draft == Through(ExitActions(c, exited), ctx, event) && mc.effects == LeftBy(ExitActions(c, exited), 0)
  {
    var start, a := MicroCtx(ctx, [], [], 0, false), ExitActions(c, exited);
    ExitsRun(c, exited, start, event);
    AllRan(a, start, event);
    assert [] + LeftBy(a, 0) == LeftBy(a, 0);
  }
}
