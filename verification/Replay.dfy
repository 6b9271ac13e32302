/** Replaying effects: the `after` timers and invoked children that are running are those of the active states. */
module Replays {
  import opened Basics
  import opened StateNodes
  import opened Configurations
  import opened Stepping
  import opened StepStarts
  import opened Actions
  import opened Microsteps
  import opened Selection
  import opened Macrosteps
  import opened Lifetimes
  import F = Finals

  /** What the actor keeps running on behalf of the machine. */
  datatype Task = Timer(id: string) | Child(id: string)

  /** How often each task has been started and not ended since. */
  type Live = multiset<Task>

  function Starting(e: Effect): Option<Task> {
    match e
    case StartTimer(id, _, _, _) => Some(Timer(id))
    case SpawnChild(id, _, _) => Some(Child(id))
    case _ => None
  }

  function Ending(e: Effect): Option<Task> {
    match e
    case CancelTimer(id) => Some(Timer(id))
    case StopChild(id) => Some(Child(id))
    case _ => None
  }

  function Apply(e: Effect, live: Live): Live {
    if Starting(e).Some? then live + multiset{Starting(e).value}
    else if Ending(e).Some? then live[Ending(e).value := 0]
    else live
  }

  function Replay(effects: seq<Effect>, live: Live): Live {
    if effects == [] then live else Replay(effects[1..], Apply(effects[0], live))
  }

  lemma {:induction false} ReplayConcat(s: seq<Effect>, t: seq<Effect>, live: Live)
    ensures Replay(s + t, live) == Replay(t, Replay(s, live))
    decreases |s|
  {
    if s == [] {
      assert s + t == t;
    } else {
      assert (s + t)[1..] == s[1..] + t;
      ReplayConcat(s[1..], t, Apply(s[0], live));
    }
  }

  // ---- what belongs to a node ----

  /** The timers of a node, or its invoked children. */
  function Tasks(c: Chart, n: int, timers: bool): seq<Task> {
    if timers then seq(|At(c, n).delays|, i requires 0 <= i < |At(c, n).delays| => Timer(At(c, n).delays[i].eventType))
    else seq(|At(c, n).invokes|, i requires 0 <= i < |At(c, n).invokes| => Child(At(c, n).invokes[i].id))
  }

  function TasksOf(c: Chart, nodes: seq<int>, timers: bool): seq<Task> {
    if nodes == [] then [] else Tasks(c, nodes[0], timers) + TasksOf(c, nodes[1..], timers)
  }

  ghost predicate OwnedBy(c: Chart, n: int, k: Task) {
    0 <= n < Size(c) && (k in Tasks(c, n, true) || k in Tasks(c, n, false))
  }

  /** No `after` id and no invoke id is used twice. */
  ghost predicate DistinctTasks(c: Chart) {
    && (forall n, timers {:trigger Tasks(c, n, timers)} :: NoDup(Tasks(c, n, timers)))
    && (forall m, n, k {:trigger OwnedBy(c, m, k), OwnedBy(c, n, k)} :: OwnedBy(c, m, k) && OwnedBy(c, n, k) ==> m == n)
  }

  ghost predicate Foreign(c: Chart, k: Task) {
    forall n {:trigger OwnedBy(c, n, k)} :: !OwnedBy(c, n, k)
  }

  /** An action starts and ends no task of a state. */
  ghost predicate KeepsOff(c: Chart, a: Action) {
    match a
    case Raise(_, delayMs, sendId) => delayMs != 0 ==> forall k: nat ::
        Foreign(c, Timer(SendId(sendId, "xstate.raise.", k)))
    case SendTo(_, _, delayMs, sendId) => delayMs != 0 ==> forall k: nat ::
        Foreign(c, Timer(SendId(sendId, "xstate.send.", k)))
    case Cancel(id) => Foreign(c, Timer(id))
    case StopChildAction(id) => Foreign(c, Child(id))
    case SpawnChildAction(id, src) => Foreign(c, Child(if id == "" then src else id))
    case _ => true
  }

  /** Ids are not shared between states, nor used by the chart's own actions. */
  ghost predicate Tidy(c: Chart) {
    && DistinctTasks(c)
    && forall b, a {:trigger a in BlockActions(c, b)} :: a in BlockActions(c, b) ==> KeepsOff(c, a)
  }

  /** The timers of exactly `timers` and the children of exactly `children` are running, each once. */
  ghost predicate MirrorsIn(c: Chart, live: Live, timers: set<int>, children: set<int>) {
    forall n, k {:trigger OwnedBy(c, n, k)} :: OwnedBy(c, n, k) ==>
      live[k] == if n in (if k.Timer? then timers else children) then 1 else 0
  }

  /** Each state's tasks are running, once, if it is active, and not at all if it is not. */
  ghost predicate Mirrors(c: Chart, live: Live, active: set<int>) {
    MirrorsIn(c, live, active, active)
  }

  // ---- actions leave states' tasks alone ----

  ghost predicate SameTasks(c: Chart, live: Live, live': Live) {
    forall n, k {:trigger OwnedBy(c, n, k)} :: OwnedBy(c, n, k) ==> live'[k] == live[k]
  }

  /** An effect that neither starts nor ends a task of a state. */
  ghost predicate Harmless(c: Chart, e: Effect) {
    && (Starting(e).Some? ==> Foreign(c, Starting(e).value))
    && (Ending(e).Some? ==> Foreign(c, Ending(e).value))
  }

  /** An action leaves the effects as they are, or adds one. */
  lemma {:induction false} ActionEffect(c: Chart, a: Action, mc: MicroCtx, event: Event) returns (added: seq<Effect>)
    requires KeepsOff(c, a)
    ensures Execute(a, mc, event).effects == mc.effects + added && |added| <= 1
    ensures added != [] ==> Harmless(c, added[0])
  {
    var after := Execute(a, mc, event).effects;
    added := after[|mc.effects|..];
    match a {
      case Raise(_, delayMs, sendId) =>
        assert delayMs != 0 ==> added[0].id == SendId(sendId, "xstate.raise.", mc.sendCounter);
      case SendTo(_, _, delayMs, sendId) => assert added[0].id == SendId(sendId, "xstate.send.", mc.sendCounter);
      case _ =>
    }
  }

  lemma {:induction false} HarmlessKeeps(c: Chart, e: Effect, live: Live)
    requires Harmless(c, e)
    ensures SameTasks(c, live, Apply(e, live))
  {}

  lemma {:induction false} ActionKeeps(c: Chart, a: Action, mc: MicroCtx, event: Event, live: Live)
    requires KeepsOff(c, a)
    ensures SameTasks(c, Replay(mc.effects, live), Replay(Execute(a, mc, event).effects, live))
  {
    var added := ActionEffect(c, a, mc, event);
    ReplayConcat(mc.effects, added, live);
    if added != [] {
      assert added == [added[0]] && added[1..] == [];
      HarmlessKeeps(c, added[0], Replay(mc.effects, live));
    }
  }

  lemma {:induction false} ActionsKeep(c: Chart, actions: seq<Action>, mc: MicroCtx, event: Event, live: Live)
    requires forall a :: a in actions ==> KeepsOff(c, a)
    ensures SameTasks(c, Replay(mc.effects, live), Replay(ExecuteAll(actions, mc, event).effects, live))
    decreases |actions|
  {
    if actions != [] {
      ActionKeeps(c, actions[0], mc, event, live);
      ActionsKeep(c, actions[1..], Execute(actions[0], mc, event), event, live);
    }
  }

  lemma {:induction false} BlocksKeep(c: Chart, blocks: seq<Block>, mc: MicroCtx, event: Event, live: Live)
    requires Tidy(c)
    ensures SameTasks(c, Replay(mc.effects, live), Replay(RunBlocks(c, blocks, mc, event).effects, live))
    decreases |blocks|
  {
    if blocks != [] {
      ActionsKeep(c, BlockActions(c, blocks[0]), mc, event, live);
      BlocksKeep(c, blocks[1..], ExecuteAll(BlockActions(c, blocks[0]), mc, event), event, live);
    }
  }

  // ---- starting and ending the tasks of a list of nodes ----

  ghost predicate AllStart(effects: seq<Effect>, tasks: seq<Task>) {
    |effects| == |tasks| && forall i :: 0 <= i < |tasks| ==> Starting(effects[i]) == Some(tasks[i])
  }

  ghost predicate AllEnd(effects: seq<Effect>, tasks: seq<Task>) {
    |effects| == |tasks| && forall i ::
        0 <= i < |tasks| ==> Starting(effects[i]) == None && Ending(effects[i]) == Some(tasks[i])
  }

  lemma {:induction false} ReplayStarts(effects: seq<Effect>, tasks: seq<Task>, live: Live)
    requires AllStart(effects, tasks)
    ensures Replay(effects, live) == live + multiset(tasks)
  {
    if tasks != [] {
      assert tasks == [tasks[0]] + tasks[1..];
      ReplayStarts(effects[1..], tasks[1..], Apply(effects[0], live));
    }
  }

  lemma {:induction false} ReplayEnds(effects: seq<Effect>, tasks: seq<Task>, live: Live, k: Task)
    requires AllEnd(effects, tasks)
    ensures Replay(effects, live)[k] == if k in tasks then 0 else live[k]
  {
    if tasks != [] {
      assert tasks == [tasks[0]] + tasks[1..];
      ReplayEnds(effects[1..], tasks[1..], Apply(effects[0], live), k);
    }
  }

  lemma {:induction false} NodesStart(c: Chart, nodes: seq<int>, ctx: Context, event: Event)
    ensures AllStart(Starts(c, nodes, ctx, event), TasksOf(c, nodes, true))
    ensures AllStart(Spawns(c, nodes), TasksOf(c, nodes, false))
  {
    if nodes != [] { NodesStart(c, nodes[1..], ctx, event); }
  }

  lemma {:induction false} NodesEnd(c: Chart, nodes: seq<int>)
    ensures AllEnd(Cancels(c, nodes), TasksOf(c, nodes, true))
    ensures AllEnd(Stops(c, nodes), TasksOf(c, nodes, false))
  {
    if nodes != [] { NodesEnd(c, nodes[1..]); }
  }

  lemma {:induction false} CountOnce<T>(s: seq<T>, k: T)
    requires NoDup(s)
    ensures multiset(s)[k] == if k in s then 1 else 0
  {
    if s != [] {
      assert s == [s[0]] + s[1..];
      CountOnce(s[1..], k);
    }
  }

  /** Listing the tasks of distinct nodes lists each task of theirs once and no task of another node. */
  lemma {:induction false} TasksCounted(c: Chart, nodes: seq<int>, timers: bool, n: int, k: Task)
    requires DistinctTasks(c) && NoDup(nodes) && OwnedBy(c, n, k) && forall m :: m in nodes ==> 0 <= m < Size(c)
    ensures multiset(TasksOf(c, nodes, timers))[k] == if k.Timer? == timers && n in nodes then 1 else 0
    ensures k in TasksOf(c, nodes, timers) <==> k.Timer? == timers && n in nodes
    decreases |nodes|
  {
    if nodes != [] {
      var m := nodes[0];
      assert forall j :: j in nodes <==> j == m || j in nodes[1..];
      TasksCounted(c, nodes[1..], timers, n, k);
      CountOnce(Tasks(c, m, timers), k);
      assert multiset(TasksOf(c, nodes, timers))
          == multiset(Tasks(c, m, timers)) + multiset(TasksOf(c, nodes[1..], timers));
      if k in Tasks(c, m, timers) {
        assert OwnedBy(c, m, k);
      }
    }
  }

  // ---- steps ----

  ghost predicate NodeList(c: Chart, nodes: seq<int>) {
    NoDup(nodes) && forall m :: m in nodes ==> 0 <= m < Size(c)
  }

  lemma {:induction false} EndTasks(c: Chart, nodes: seq<int>, live: Live, timers: set<int>, children: set<int>)
    requires DistinctTasks(c) && NodeList(c, nodes) && MirrorsIn(c, live, timers, children)
    ensures MirrorsIn(c, Replay(Cancels(c, nodes), live), timers - Elems(nodes), children)
    ensures MirrorsIn(c, Replay(Stops(c, nodes), live), timers, children - Elems(nodes))
  {
    NodesEnd(c, nodes);
    forall n, k | OwnedBy(c, n, k)
      ensures Replay(Cancels(c, nodes), live)[k]
          == if n in (if k.Timer? then timers - Elems(nodes) else children) then 1 else 0
      ensures Replay(Stops(c, nodes), live)[k] == if n in (if k.Timer? then timers else children - Elems(nodes)) then 1
                                                  else 0
    {
      ReplayEnds(Cancels(c, nodes), TasksOf(c, nodes, true), live, k);
      ReplayEnds(Stops(c, nodes), TasksOf(c, nodes, false), live, k);
      TasksCounted(c, nodes, true, n, k);
      TasksCounted(c, nodes, false, n, k);
    }
  }

  lemma {:induction false} StartTimers(c: Chart, nodes: seq<int>, ctx: Context, event: Event, live: Live,
                                       timers: set<int>, children: set<int>)
    requires DistinctTasks(c) && NodeList(c, nodes) && MirrorsIn(c, live, timers, children) && Elems(nodes) !! timers
    ensures MirrorsIn(c, Replay(Starts(c, nodes, ctx, event), live), timers + Elems(nodes), children)
  {
    NodesStart(c, nodes, ctx, event);
    ReplayStarts(Starts(c, nodes, ctx, event), TasksOf(c, nodes, true), live);
    forall n, k | OwnedBy(c, n, k)
      ensures Replay(Starts(c, nodes, ctx, event), live)[k]
          == if n in (if k.Timer? then timers + Elems(nodes) else children) then 1 else 0
    {
      TasksCounted(c, nodes, true, n, k);
      assert n in nodes <==> n in Elems(nodes);
    }
  }

  lemma {:induction false} StartChildren(c: Chart, nodes: seq<int>, ctx: Context, event: Event, live: Live,
                                         timers: set<int>, children: set<int>)
    requires DistinctTasks(c) && NodeList(c, nodes) && MirrorsIn(c, live, timers, children) && Elems(nodes) !! children
    ensures MirrorsIn(c, Replay(Spawns(c, nodes), live), timers, children + Elems(nodes))
  {
    NodesStart(c, nodes, ctx, event);
    ReplayStarts(Spawns(c, nodes), TasksOf(c, nodes, false), live);
    forall n, k | OwnedBy(c, n, k)
      ensures Replay(Spawns(c, nodes), live)[k] == if n in (if k.Timer? then timers else children + Elems(nodes)) then 1
                                                   else 0
    {
      TasksCounted(c, nodes, false, n, k);
      assert n in nodes <==> n in Elems(nodes);
    }
  }

  lemma {:induction false} SameMirrors(c: Chart, live: Live, live': Live, timers: set<int>, children: set<int>)
    requires MirrorsIn(c, live, timers, children) && SameTasks(c, live, live')
    ensures MirrorsIn(c, live', timers, children)
  {}

  /** Running the exit actions of `exited` and ending what they started leaves just the survivors' tasks. */
  lemma {:induction false} ExitsReplayed(c: Chart, exited: seq<int>, mc: MicroCtx, event: Event, live: Live,
                                         active: set<int>)
    requires Tidy(c) && NodeList(c, exited) && Mirrors(c, Replay(mc.effects, live), active)
    ensures Mirrors(c, Replay(RunBlocks(c, ExitBlocks(exited), mc, event).effects
                              + Cancels(c, exited) + Stops(c, exited), live),
                    active - Elems(exited))
  {
    var m := RunBlocks(c, ExitBlocks(exited), mc, event);
    BlocksKeep(c, ExitBlocks(exited), mc, event, live);
    SameMirrors(c, Replay(mc.effects, live), Replay(m.effects, live), active, active);
    EndTasks(c, exited, Replay(m.effects, live), active, active);
    ReplayConcat(m.effects, Cancels(c, exited), live);
    EndTasks(c, exited, Replay(m.effects + Cancels(c, exited), live), active - Elems(exited), active);
    ReplayConcat(m.effects + Cancels(c, exited), Stops(c, exited), live);
  }

  lemma {:induction false} LeaveReplayed(c: Chart, exited: seq<int>, sel: seq<TransitionRef>, mc: MicroCtx,
                                         event: Event, live: Live, active: set<int>)
    requires Tidy(c) && NodeList(c, exited) && Mirrors(c, Replay(mc.effects, live), active)
    ensures Mirrors(c, Replay(LeaveActions(c, exited, sel, mc, event).effects, live), active - Elems(exited))
  {
    ExitsReplayed(c, exited, mc, event, live, active);
    var m := RunBlocks(c, ExitBlocks(exited), mc, event);
    var m' := m.(effects := m.effects + Cancels(c, exited) + Stops(c, exited));
    BlocksKeep(c, TransitionBlocks(sel), m', event, live);
    var r := RunBlocks(c, TransitionBlocks(sel), m', event);
    SameMirrors(c, Replay(m'.effects, live), Replay(r.effects, live), active - Elems(exited), active - Elems(exited));
  }

  lemma {:induction false} EnterReplayed(c: Chart, toEnter: seq<int>, via: set<int>, mc: MicroCtx, event: Event,
                                         live: Live, kept: set<int>)
    requires Tidy(c) && NodeList(c, toEnter) && Elems(toEnter) !! kept && Mirrors(c, Replay(mc.effects, live), kept)
    ensures Mirrors(c, Replay(EnterActions(c, toEnter, via, mc, event).effects, live), kept + Elems(toEnter))
  {
    var m := mc.(effects := mc.effects + Spawns(c, toEnter));
    var r := RunBlocks(c, EntryBlocks(c, toEnter, via), m, event);
    var starts := Starts(c, toEnter, r.draft, event);
    var next := kept + Elems(toEnter);
    StartChildren(c, toEnter, r.draft, event, Replay(mc.effects, live), kept, kept);
    ReplayConcat(mc.effects, Spawns(c, toEnter), live);
    BlocksKeep(c, EntryBlocks(c, toEnter, via), m, event, live);
    SameMirrors(c, Replay(m.effects, live), Replay(r.effects, live), kept, next);
    StartTimers(c, toEnter, r.draft, event, Replay(r.effects, live), kept, next);
    ReplayConcat(r.effects, starts, live);
  }

  lemma {:induction false} AscendingNodes(c: Chart, s: set<int>)
    requires forall n :: n in s ==> 0 <= n < Size(c)
    ensures NodeList(c, Ordered(Size(c), s)) && Elems(Ordered(Size(c), s)) == s
    ensures NodeList(c, ExitOrder(c, s)) && Elems(ExitOrder(c, s)) == s
  {
    var order := Ordered(Size(c), s);
    assert forall n :: n in s ==> n in order;
    assert Ascending(order);
    ReverseElems(order);
    assert forall n :: n in Reverse(order) <==> n in Elems(Reverse(order));
  }

  lemma {:induction false} StepReplayed(c: Chart, sel: seq<TransitionRef>, active: set<int>, exits: set<int>,
                                        entered: set<int>, via: set<int>, ctx: Context, event: Event, live: Live)
    requires Tidy(c) && Mirrors(c, live, active) && entered !! active - exits
    requires forall n :: n in exits || n in entered ==> 0 <= n < Size(c)
    ensures var left := LeaveActions(c, ExitOrder(c, exits), sel, MicroCtx(ctx, [], [], 0, false), event);
            var mc := EnterActions(c, Ordered(Size(c), entered), via, left, event);
            Mirrors(c, Replay(mc.effects, live), (active - exits) + entered)
  {
    var start := MicroCtx(ctx, [], [], 0, false);
    AscendingNodes(c, exits);
    AscendingNodes(c, entered);
    LeaveReplayed(c, ExitOrder(c, exits), sel, start, event, live, active);
    var left := LeaveActions(c, ExitOrder(c, exits), sel, start, event);
    EnterReplayed(c, Ordered(Size(c), entered), via, left, event, live, active - exits);
  }

  /**
   A microstep turns the tasks of the old configuration into exactly those of the new one, states that are left and
   entered again included.
   */
  lemma {:induction false} MicrostepReplayed(c: Chart, cur: Snapshot, sel: seq<TransitionRef>, event: Event,
                                             next: Snapshot, own: Surroundings, progress: bool, live: Live)
    requires Tidy(c) && InOrder(c, cur) && IsMicrostep(c, sel, cur, event, NOTHING, next, own, progress)
    requires Mirrors(c, live, Elems(cur.configuration))
    ensures InOrder(c, next) && Mirrors(c, Replay(own.effects, live), Elems(next.configuration))
  {
    var active, active' := Elems(cur.configuration), Elems(next.configuration);
    var exits, entered := Exits(c, active, sel), EnteredBy(c, active, sel, active');
    EnteredDisjoint(c, active, sel, active');
    StepReplayed(c, sel, active, exits, entered, entered - Given(c, active, next.historyValue, sel), cur.context, event,
                 live);
  }

  lemma {:induction false} EnteredDisjoint(c: Chart, active: set<int>, sel: seq<TransitionRef>, next: set<int>)
    requires active - Exits(c, active, sel) <= next
    ensures EnteredBy(c, active, sel, next) !! active - Exits(c, active, sel)
    ensures (active - Exits(c, active, sel)) + EnteredBy(c, active, sel, next) == next
  {}

  lemma {:induction false} PassReplayed(c: Chart, s: Loop, pass: Pass, s': Loop, live: Live)
    requires Tidy(c) && Iterates(c, s, pass, s') && InOrder(c, s.snap) && Mirrors(c, live, Elems(s.snap.configuration))
    ensures InOrder(c, s'.snap) && Mirrors(c, Replay(pass.effects, live), Elems(s'.snap.configuration))
  {
    var own := Surroundings(pass.effects, pass.raised);
    if Pending(c, s) {
      MicrostepReplayed(c, s.snap, Selected(c, s.snap, EVENTLESS), EVENTLESS, s'.snap, own, s'.armed, live);
    } else if Selected(c, s.snap, s.queue[0]) != [] {
      var e := s.queue[0];
      var progress := Took(c, s, Selected(c, s.snap, e), e, pass, s'.snap, true);
      MicrostepReplayed(c, s.snap, Selected(c, s.snap, e), e, s'.snap, own, progress, live);
    }
  }

  /** Where a run's effects have got to after `k` passes. */
  ghost predicate Replayed(c: Chart, run: Run, k: nat, live: Live)
    requires |run.states| == |run.passes| + 1 && k <= |run.passes|
  {
    var snap := run.states[k].snap;
    InOrder(c, snap) && Mirrors(c, Replay(EffectsOf(run.passes[..k]), live), Elems(snap.configuration))
  }

  lemma {:induction false} ReplayedNext(c: Chart, run: Run, k: nat, live: Live)
    requires Tidy(c) && IsRun(c, run) && k < |run.passes| && Replayed(c, run, k, live)
    ensures Replayed(c, run, k + 1, live)
  {
    var s, pass, s' := run.states[k], run.passes[k], run.states[k + 1];
    IterationOf(c, run, k, s, pass, s');
    PassReplayed(c, s, pass, s', Replay(EffectsOf(run.passes[..k]), live));
    ReplayPasses(run.passes, k, live);
  }

  lemma {:induction false} RunReplayed(c: Chart, run: Run, k: nat, live: Live)
    requires Tidy(c) && IsRun(c, run) && k <= |run.passes| && Replayed(c, run, 0, live)
    ensures Replayed(c, run, k, live)
  {
    if k > 0 {
      RunReplayed(c, run, k - 1, live);
      ReplayedNext(c, run, k - 1, live);
    }
  }

  lemma {:induction false} ReplayPasses(passes: seq<Pass>, i: nat, live: Live)
    requires i < |passes|
    ensures Replay(EffectsOf(passes[..i + 1]), live) == Replay(passes[i].effects, Replay(EffectsOf(passes[..i]), live))
  {
    assert passes[..i + 1][..i] == passes[..i];
    ReplayConcat(EffectsOf(passes[..i]), passes[i].effects, live);
  }

  /** The states whose tasks should be running: none once the machine is done. */
  function Running(snap: Snapshot): set<int> {
    if snap.status == F.Done then {} else Elems(snap.configuration)
  }

  lemma {:induction false} FinishReplayed(c: Chart, snap: Snapshot, event: Event, live: Live)
    requires Tidy(c) && InOrder(c, snap) && Mirrors(c, live, Elems(snap.configuration))
    ensures Mirrors(c, Replay(Finish(c, snap, event).1, live), Running(snap))
    ensures Running(Finish(c, snap, event).0) == Running(snap)
  {
    if snap.status == F.Done {
      var active := Elems(snap.configuration);
      assert forall n :: n in active <==> n in snap.configuration;
      AscendingNodes(c, active);
      ExitsReplayed(c, ExitOrder(c, active), MicroCtx(snap.context, [], [], 0, false), event, live, active);
      assert active - active == {};
    }
  }

  lemma {:induction false} ReplayThree(s: seq<Effect>, t: seq<Effect>, u: seq<Effect>, live: Live)
    ensures Replay(s + t + u, live) == Replay(u, Replay(t, Replay(s, live)))
  {
    ReplayConcat(s + t, u, live);
    ReplayConcat(s, t, live);
  }

  lemma {:induction false} SettlingReplayed(c: Chart, run: Run, live: Live)
    requires Tidy(c) && IsRun(c, run) && InOrder(c, run.states[0].snap)
    requires Mirrors(c, live, Elems(run.states[0].snap.configuration))
    ensures InOrder(c, Last(run).snap)
    ensures Mirrors(c, Replay(EffectsOf(run.passes), live), Elems(Last(run).snap.configuration))
  {
    assert run.passes[..0] == [];
    RunReplayed(c, run, |run.passes|, live);
    assert run.passes[..|run.passes|] == run.passes;
  }

  lemma {:induction false} ConclusionReplayed(c: Chart, m: Macro, event: Event, next: Snapshot, effects: seq<Effect>,
                                              live: Live)
    requires Tidy(c) && InOrder(c, m.first) && Concludes(c, m, event, next, effects)
    requires Mirrors(c, Replay(m.own.effects, live), Elems(m.first.configuration))
    ensures Mirrors(c, Replay(effects, live), Running(next)) && InOrder(c, next)
  {
    var last, settling, own := Last(m.run).snap, EffectsOf(m.run.passes), Replay(m.own.effects, live);
    SettlingReplayed(c, m.run, own);
    FinishReplayed(c, last, event, Replay(settling, own));
    ReplayThree(m.own.effects, settling, Finish(c, last, event).1, live);
  }

  /**
   A macrostep's effects turn the tasks of the old configuration into exactly those of the new one, and into none when
   the machine is done.
   */
  lemma {:induction false} MacrostepReplayed(c: Chart, cur: Snapshot, event: Event, m: Macro, next: Snapshot,
                                             effects: seq<Effect>, live: Live)
    requires Tidy(c) && InOrder(c, cur) && IsMacrostep(c, cur, event, m, next, effects)
    requires Mirrors(c, live, Running(cur))
    ensures Mirrors(c, Replay(effects, live), Running(next)) && InOrder(c, next)
  {
    if Accepts(c, cur, event) {
      MicrostepReplayed(c, cur, Selected(c, cur, event), event, m.first, m.own, m.progress, live);
      ConclusionReplayed(c, m, event, next, effects, live);
    }
  }

  /** Starting the machine starts exactly the tasks of the states it settles in. */
  lemma {:induction false} StartReplayed(c: Chart, ctx: Context, m: Macro, next: Snapshot, effects: seq<Effect>)
    requires Tidy(c) && IsInitial(c, ctx, m, next, effects)
    ensures Mirrors(c, Replay(effects, multiset{}), Running(next)) && InOrder(c, next)
  {
    EnterFromNothing(c, Elems(m.first.configuration), Elems(m.first.configuration) - {0}, ctx, INIT_EVENT);
    ConclusionReplayed(c, m, INIT_EVENT, next, effects, multiset{});
  }

  lemma {:induction false} EnterFromNothing(c: Chart, active: set<int>, via: set<int>, ctx: Context, event: Event)
    requires Tidy(c) && forall n :: n in active ==> 0 <= n < Size(c)
    ensures Mirrors(c, Replay(EnterActions(c, Ordered(Size(c), active), via, MicroCtx(ctx, [], [], 0, false),
                                           event).effects, multiset{}), active)
  {
    var start := MicroCtx(ctx, [], [], 0, false);
    AscendingNodes(c, active);
    assert Mirrors(c, Replay(start.effects, multiset{}), {});
    EnterReplayed(c, Ordered(Size(c), active), via, start, event, multiset{}, {});
    assert {} + active == active;
  }

  /**
   At every point of a life that goes on from `l0`, what its effects have started and not ended are the tasks of the
   active states.
   */
  lemma {:induction false} LifeReplayed(c: WFChart, l: Life, l0: Life, live: Live)
    requires Tidy(c) && IsLife(c, l) && Extends(l, l0)
    requires InOrder(c, l0.snap) && Mirrors(c, Replay(EffectsOfLife(l0), live), Running(l0.snap))
    ensures InOrder(c, l.snap) && Mirrors(c, Replay(EffectsOfLife(l), live), Running(l.snap))
  {
    if l != l0 {
      var b := l.before;
      LifeReplayed(c, b, l0, live);
      MacrostepReplayed(c, b.snap, l.event, l.macro, l.snap, l.effects, Replay(EffectsOfLife(b), live));
      ReplayConcat(EffectsOfLife(b), l.effects, live);
    }
  }

  /** A life from its start: nothing runs but the tasks of the active states. */
  lemma {:induction false} WholeLifeReplayed(c: WFChart, l: Life, l0: Life)
    requires Tidy(c) && IsLife(c, l) && IsLife(c, l0) && l0.Born? && Extends(l, l0)
    ensures Mirrors(c, Replay(EffectsOfLife(l), multiset{}), Running(l.snap))
  {
    StartReplayed(c, l0.ctx, l0.macro, l0.snap, l0.effects);
    LifeReplayed(c, l, l0, multiset{});
  }
}
