/** Executing actions: the draft context, the raised events and the effects they leave behind. */
module Actions {
  import opened Basics
  import opened StateNodes

  datatype Effect =
    | StartTimer(id: string, target: string, event: Event, delayMs: int)
    | CancelTimer(id: string)
    | Send(id: string, target: string, event: Event)
    | SpawnChild(id: string, src: string, autoStopOnExit: bool)
    | StopChild(id: string)
    | EmitEffect(event: Event)
    | LogEffect(message: string)

  /**
   The mutable context of one microstep: draft, effect sink, internal queue, id counter, and whether an assign ran.
   */
  datatype MicroCtx = MicroCtx(draft: Context, effects: seq<Effect>, queue: seq<Event>, sendCounter: nat,
                               didAssign: bool)

  const PARENT := "__parent__"

  function SendId(given: string, prefix: string, counter: nat): string {
    if given == "" then prefix + Decimal(counter) else given
  }

  function Execute(a: Action, mc: MicroCtx, event: Event): MicroCtx {
    match a
    case Update(fn) => mc.(draft := fn(mc.draft, event))
    case Assign(fn) => mc.(draft := fn(mc.draft, event), didAssign := true)
    case Raise(raised, delayMs, sendId) =>
      if delayMs == 0 then mc.(queue := mc.queue + [raised])
      else
        mc.(effects := mc.effects + [StartTimer(SendId(sendId, "xstate.raise.", mc.sendCounter), "", raised, delayMs)],
            sendCounter := mc.sendCounter + if sendId == "" then 1 else 0)
    case SendTo(target, sent, delayMs, sendId) =>
      var id := SendId(sendId, "xstate.send.", mc.sendCounter);
      mc.(effects := mc.effects
            + [if delayMs == 0 then Send(id, target, sent) else StartTimer(id, target, sent, delayMs)],
          sendCounter := mc.sendCounter + if sendId == "" then 1 else 0)
    case SendParent(sent) => mc.(effects := mc.effects + [Send("", PARENT, sent)])
    case Log(message) => mc.(effects := mc.effects + [LogEffect(message)])
    case Cancel(id) => mc.(effects := mc.effects + [CancelTimer(id)])
    case StopChildAction(id) => mc.(effects := mc.effects + [StopChild(id)])
    case SpawnChildAction(id, src) =>
      mc.(effects := mc.effects + [SpawnChild(if id == "" then src else id, src, false)])
    case Emit(emitted) => mc.(effects := mc.effects + [EmitEffect(emitted)])
  }

  function ExecuteAll(actions: seq<Action>, mc: MicroCtx, event: Event): MicroCtx {
    if actions == [] then mc else ExecuteAll(actions[1..], Execute(actions[0], mc, event), event)
  }

  lemma {:induction false} ExecuteAllConcat(s: seq<Action>, t: seq<Action>, mc: MicroCtx, event: Event)
    ensures ExecuteAll(s + t, mc, event) == ExecuteAll(t, ExecuteAll(s, mc, event), event)
    decreases |s|
  {
    if s == [] {
      assert s + t == t;
    } else {
      assert (s + t)[1..] == s[1..] + t;
      ExecuteAllConcat(s[1..], t, Execute(s[0], mc, event), event);
    }
  }

  // ---- what a list of actions does, field by field ----

  /** The context passed in order through what updates it. */
  function Through(actions: seq<Action>, ctx: Context, event: Event): Context {
    if actions == [] then ctx
    else
      match actions[0]
      case Update(fn) => Through(actions[1..], fn(ctx, event), event)
      case Assign(fn) => Through(actions[1..], fn(ctx, event), event)
      case _ => Through(actions[1..], ctx, event)
  }

  /** The events raised at once, in order. */
  function Raised(actions: seq<Action>): seq<Event> {
    if actions == [] then []
    else if actions[0].Raise? && actions[0].delayMs == 0 then [actions[0].event] + Raised(actions[1..])
    else Raised(actions[1..])
  }

  /** Actions that leave no effect. */
  predicate Silent(a: Action) { a.Update? || a.Assign? || (a.Raise? && a.delayMs == 0) }

  /** How many send ids are made up for `actions`. */
  function IdsFor(actions: seq<Action>): nat {
    if actions == [] then 0 else IdsForOne(actions[0]) + IdsFor(actions[1..])
  }

  function IdsForOne(a: Action): nat {
    if (a.SendTo? && a.sendId == "") || (a.Raise? && a.delayMs != 0 && a.sendId == "") then 1 else 0
  }

  /** The effect an action leaves; a send id, if it has to be made up, ends in `n`. */
  function EffectOf(a: Action, n: nat): Effect
    requires !Silent(a)
  {
    match a
    case Raise(event, delayMs, sendId) =>
      StartTimer(if sendId == "" then "xstate.raise." + Decimal(n) else sendId, "", event, delayMs)
    case SendTo(target, event, delayMs, sendId) =>
      var id := if sendId == "" then "xstate.send." + Decimal(n) else sendId;
      if delayMs != 0 then StartTimer(id, target, event, delayMs) else Send(id, target, event)
    case SendParent(event) => Send("", "__parent__", event)
    case Log(message) => LogEffect(message)
    case Cancel(id) => CancelTimer(id)
    case StopChildAction(id) => StopChild(id)
    case SpawnChildAction(id, src) => SpawnChild(if id != "" then id else src, src, false)
    case Emit(event) => EmitEffect(event)
  }

  /** The effects of `actions`, one of each that leaves one, in order; made-up send ids are numbered from `n`. */
  function LeftBy(actions: seq<Action>, n: nat): seq<Effect> {
    if actions == [] then []
    else
      (if Silent(actions[0]) then [] else [EffectOf(actions[0], n)])
      + LeftBy(actions[1..], n + IdsForOne(actions[0]))
  }

  ghost predicate Assigns(actions: seq<Action>) {
    exists i :: 0 <= i < |actions| && actions[i].Assign?
  }

  /**
   Running `actions` passes the draft through what updates it, queues the events
   raised at once, appends the effects of the others, counts the send ids made
   up, and notes whether anything was assigned.
   */
  ghost predicate Ran(actions: seq<Action>, mc: MicroCtx, event: Event, mc': MicroCtx) {
    && mc'.draft == Through(actions, mc.draft, event)
    && mc'.queue == mc.queue + Raised(actions)
    && mc'.effects == mc.effects + LeftBy(actions, mc.sendCounter)
    && mc'.sendCounter == mc.sendCounter + IdsFor(actions)
    && (mc'.didAssign <==> mc.didAssign || Assigns(actions))
  }

  lemma {:induction false} RanNothing(mc: MicroCtx, event: Event)
    ensures Ran([], mc, event, mc)
  {
    assert mc.queue + [] == mc.queue && mc.effects + [] == mc.effects;
  }

  /** What one action does. */
  ghost predicate RanOne(a: Action, mc: MicroCtx, event: Event, m: MicroCtx) {
    && m.draft == (if a.Update? || a.Assign? then a.fn(mc.draft, event) else mc.draft)
    && m.queue == (if a.Raise? && a.delayMs == 0 then mc.queue + [a.event] else mc.queue)
    && m.effects == (if Silent(a) then mc.effects else mc.effects + [EffectOf(a, mc.sendCounter)])
    && m.sendCounter == mc.sendCounter + IdsForOne(a)
    && (m.didAssign <==> mc.didAssign || a.Assign?)
  }

  lemma ExecuteRanOne(a: Action, mc: MicroCtx, event: Event)
    ensures RanOne(a, mc, event, Execute(a, mc, event))
  {}

  /** One action, then the others. */
  lemma {:induction false} RanOneMore(actions: seq<Action>, mc: MicroCtx, event: Event, m: MicroCtx, mc': MicroCtx)
    requires actions != [] && RanOne(actions[0], mc, event, m) && Ran(actions[1..], m, event, mc')
    ensures Ran(actions, mc, event, mc')
  {
    RaisedOneMore(actions, mc.queue, m.queue);
    EffectsOneMore(actions, mc.sendCounter, mc.effects, m.effects);
    AssignsOneMore(actions);
  }

  lemma RaisedOneMore(actions: seq<Action>, queue: seq<Event>, queue': seq<Event>)
    requires actions != []
    requires var a := actions[0]; queue' == if a.Raise? && a.delayMs == 0 then queue + [a.event] else queue
    ensures queue' + Raised(actions[1..]) == queue + Raised(actions)
  {}

  lemma AssignsOneMore(actions: seq<Action>)
    requires actions != []
    ensures Assigns(actions) <==> actions[0].Assign? || Assigns(actions[1..])
  {
    if i :| 0 <= i < |actions| && actions[i].Assign? {
      assert i > 0 ==> actions[1..][i - 1] == actions[i];
    }
    assert forall i :: 0 <= i < |actions| - 1 ==> actions[1..][i] == actions[i + 1];
  }

  lemma EffectsOneMore(actions: seq<Action>, n: nat, effects: seq<Effect>, effects': seq<Effect>)
    requires actions != []
    requires effects' == if Silent(actions[0]) then effects else effects + [EffectOf(actions[0], n)]
    ensures effects' + LeftBy(actions[1..], n + IdsForOne(actions[0])) == effects + LeftBy(actions, n)
  {
    var rest := LeftBy(actions[1..], n + IdsForOne(actions[0]));
    if Silent(actions[0]) { assert LeftBy(actions, n) == rest; }
    else { AppendAfter(effects, [EffectOf(actions[0], n)], rest); }
  }

  lemma {:induction false} ExecuteAllRan(actions: seq<Action>, mc: MicroCtx, event: Event)
    ensures Ran(actions, mc, event, ExecuteAll(actions, mc, event))
    decreases |actions|
  {
    if actions == [] {
      RanNothing(mc, event);
    } else {
      ExecuteRanOne(actions[0], mc, event);
      ExecuteAllRan(actions[1..], Execute(actions[0], mc, event), event);
      RanOneMore(actions, mc, event, Execute(actions[0], mc, event), ExecuteAll(actions, mc, event));
    }
  }

  method ExecuteActions(actions: seq<Action>, mc: MicroCtx, event: Event) returns (mc': MicroCtx)
    ensures mc' == ExecuteAll(actions, mc, event) && Ran(actions, mc, event, mc')
  {
    mc' := mc;
    for i := 0 to |actions|
      invariant mc' == ExecuteAll(actions[..i], mc, event)
    {
      var a := actions[i];
      TakeNext(actions, i);
      ExecuteAllConcat(actions[..i], [a], mc, event);
      mc' := Execute(a, mc', event);
    }
    assert actions[..|actions|] == actions;
    ExecuteAllRan(actions, mc, event);
  }

  // ---- blocks of actions ----

  /** One run of actions inside a step. */
  datatype Block =
    | ExitOf(node: int)
    | ActionsOf(transition: TransitionRef)
    | InitialOf(parent: int)
    | EntryOf(node: int)

  function BlockActions(c: Chart, b: Block): seq<Action> {
    match b
    case ExitOf(n) => At(c, n).exit
    case ActionsOf(t) => Def(c, t).actions
    case InitialOf(p) => At(c, p).initialActions
    case EntryOf(n) => At(c, n).entry
  }

  function RunBlocks(c: Chart, blocks: seq<Block>, mc: MicroCtx, event: Event): MicroCtx {
    if blocks == [] then mc else RunBlocks(c, blocks[1..], ExecuteAll(BlockActions(c, blocks[0]), mc, event), event)
  }

  lemma {:induction false} RunBlocksConcat(c: Chart, s: seq<Block>, t: seq<Block>, mc: MicroCtx, event: Event)
    ensures RunBlocks(c, s + t, mc, event) == RunBlocks(c, t, RunBlocks(c, s, mc, event), event)
    decreases |s|
  {
    if s == [] {
      assert s + t == t;
    } else {
      assert (s + t)[1..] == s[1..] + t;
      RunBlocksConcat(c, s[1..], t, ExecuteAll(BlockActions(c, s[0]), mc, event), event);
    }
  }

  function ExitBlocks(nodes: seq<int>): seq<Block> {
    if nodes == [] then [] else [ExitOf(nodes[0])] + ExitBlocks(nodes[1..])
  }

  function TransitionBlocks(sel: seq<TransitionRef>): seq<Block> {
    if sel == [] then [] else [ActionsOf(sel[0])] + TransitionBlocks(sel[1..])
  }

  /** Entering `n` runs its parent's initial actions first when the parent's initial transition leads to it. */
  function EntryBlock(c: Chart, via: set<int>, n: int): seq<Block> {
    if n in via && Parent(c, n) != NULL && Initial(c, Parent(c, n)) == n then [InitialOf(Parent(c, n)), EntryOf(n)]
    else [EntryOf(n)]
  }

  function EntryBlocks(c: Chart, nodes: seq<int>, via: set<int>): seq<Block> {
    if nodes == [] then [] else EntryBlock(c, via, nodes[0]) + EntryBlocks(c, nodes[1..], via)
  }

  lemma {:induction false} EntryBlocksConcat(c: Chart, s: seq<int>, t: seq<int>, via: set<int>)
    ensures EntryBlocks(c, s + t, via) == EntryBlocks(c, s, via) + EntryBlocks(c, t, via)
    decreases |s|
  {
    if s == [] {
      assert s + t == t;
    } else {
      assert (s + t)[1..] == s[1..] + t;
      EntryBlocksConcat(c, s[1..], t, via);
    }
  }

  method ExecuteEntryActions(c: Chart, toEnter: seq<int>, via: set<int>, mc: MicroCtx, event: Event)
    returns (mc': MicroCtx)
    ensures mc' == RunBlocks(c, EntryBlocks(c, toEnter, via), mc, event)
  {
    mc' := mc;
    for i := 0 to |toEnter|
      invariant mc' == RunBlocks(c, EntryBlocks(c, toEnter[..i], via), mc, event)
    {
      var n := toEnter[i];
      TakeNext(toEnter, i);
      EntryBlocksConcat(c, toEnter[..i], [n], via);
      RunBlocksConcat(c, EntryBlocks(c, toEnter[..i], via), EntryBlock(c, via, n), mc, event);
      assert EntryBlocks(c, [n], via) == EntryBlock(c, via, n);
      mc' := EnterNode(c, n, via, mc', event);
    }
    assert toEnter[..|toEnter|] == toEnter;
  }

  /** The part of the loop that enters one node. */
  method EnterNode(c: Chart, n: int, via: set<int>, mc: MicroCtx, event: Event) returns (mc': MicroCtx)
    ensures mc' == RunBlocks(c, EntryBlock(c, via, n), mc, event)
  {
    mc' := mc;
    if n in via && Parent(c, n) != NULL && Initial(c, Parent(c, n)) == n {
      mc' := ExecuteActions(At(c, Parent(c, n)).initialActions, mc', event);
    }
    ghost var between := mc';
    mc' := ExecuteActions(At(c, n).entry, mc', event);
    assert RunBlocks(c, [EntryOf(n)], between, event) == mc';
  }

  // ---- what came before does not matter ----

  /** The same context with earlier effects and earlier raised events in front. */
  function After(effects: seq<Effect>, queue: seq<Event>, mc: MicroCtx): MicroCtx {
    mc.(effects := effects + mc.effects, queue := queue + mc.queue)
  }

  lemma {:induction false} ExecuteAfter(a: Action, effects: seq<Effect>, queue: seq<Event>, mc: MicroCtx, event: Event)
    ensures Execute(a, After(effects, queue, mc), event) == After(effects, queue, Execute(a, mc, event))
  {
    var r := Execute(a, mc, event);
    if |r.effects| > |mc.effects| { AppendAfter(effects, mc.effects, [r.effects[|mc.effects|]]); }
    if |r.queue| > |mc.queue| { AppendAfter(queue, mc.queue, [r.queue[|mc.queue|]]); }
  }

  lemma {:induction false} ExecuteAllAfter(actions: seq<Action>, effects: seq<Effect>, queue: seq<Event>, mc: MicroCtx,
                                           event: Event)
    ensures ExecuteAll(actions, After(effects, queue, mc), event)
        == After(effects, queue, ExecuteAll(actions, mc, event))
    decreases |actions|
  {
    if actions != [] {
      ExecuteAfter(actions[0], effects, queue, mc, event);
      ExecuteAllAfter(actions[1..], effects, queue, Execute(actions[0], mc, event), event);
    }
  }

  /** Blocks of actions only append: what they do does not depend on the effects and events already there. */
  lemma {:induction false} RunBlocksAfter(c: Chart, blocks: seq<Block>, effects: seq<Effect>, queue: seq<Event>,
                                          mc: MicroCtx, event: Event)
    ensures RunBlocks(c, blocks, After(effects, queue, mc), event)
        == After(effects, queue, RunBlocks(c, blocks, mc, event))
    decreases |blocks|
  {
    if blocks != [] {
      ExecuteAllAfter(BlockActions(c, blocks[0]), effects, queue, mc, event);
      RunBlocksAfter(c, blocks[1..], effects, queue, ExecuteAll(BlockActions(c, blocks[0]), mc, event), event);
    }
  }

  // ---- timers and invoked children ----

  function CancelsOf(c: Chart, n: int): seq<Effect> {
    var delays := At(c, n).delays;
    seq(|delays|, i requires 0 <= i < |delays| => CancelTimer(delays[i].eventType))
  }

  /** An `after` timer's id doubles as the type of the event it delivers. */
  function StartsOf(c: Chart, n: int, ctx: Context, event: Event): seq<Effect> {
    var delays := At(c, n).delays;
    seq(|delays|, i requires 0 <= i < |delays| =>
      StartTimer(delays[i].eventType, "", Event(delays[i].eventType, None), delays[i].ms(ctx, event)))
  }

  function StopsOf(c: Chart, n: int): seq<Effect> {
    var invokes := At(c, n).invokes;
    seq(|invokes|, i requires 0 <= i < |invokes| => StopChild(invokes[i].id))
  }

  function SpawnsOf(c: Chart, n: int): seq<Effect> {
    var invokes := At(c, n).invokes;
    seq(|invokes|, i requires 0 <= i < |invokes| => SpawnChild(invokes[i].id, invokes[i].src, true))
  }

  function Cancels(c: Chart, nodes: seq<int>): seq<Effect> {
    if nodes == [] then [] else CancelsOf(c, nodes[0]) + Cancels(c, nodes[1..])
  }

  function Starts(c: Chart, nodes: seq<int>, ctx: Context, event: Event): seq<Effect> {
    if nodes == [] then [] else StartsOf(c, nodes[0], ctx, event) + Starts(c, nodes[1..], ctx, event)
  }

  function Stops(c: Chart, nodes: seq<int>): seq<Effect> {
    if nodes == [] then [] else StopsOf(c, nodes[0]) + Stops(c, nodes[1..])
  }

  function Spawns(c: Chart, nodes: seq<int>): seq<Effect> {
    if nodes == [] then [] else SpawnsOf(c, nodes[0]) + Spawns(c, nodes[1..])
  }

  method EmitDelayEffects(c: Chart, exited: seq<int>, entered: seq<int>, ctx: Context, event: Event,
                          effects: seq<Effect>)
    returns (effects': seq<Effect>)
    ensures effects' == effects + Cancels(c, exited) + Starts(c, entered, ctx, event)
  {
    effects' := effects;
    for i := 0 to |exited|
      invariant effects' + Cancels(c, exited[i..]) == effects + Cancels(c, exited)
    {
      effects' := effects' + CancelsOf(c, exited[i]);
    }
    assert effects' == effects + Cancels(c, exited);
    for i := 0 to |entered|
      invariant effects' + Starts(c, entered[i..], ctx, event)
          == effects + Cancels(c, exited) + Starts(c, entered, ctx, event)
    {
      effects' := effects' + StartsOf(c, entered[i], ctx, event);
    }
    assert effects' + Starts(c, [], ctx, event) == effects';
  }

  method EmitInvokeEffects(c: Chart, exited: seq<int>, entered: seq<int>, effects: seq<Effect>)
    returns (effects': seq<Effect>)
    ensures effects' == effects + Stops(c, exited) + Spawns(c, entered)
  {
    effects' := effects;
    for i := 0 to |exited|
      invariant effects' + Stops(c, exited[i..]) == effects + Stops(c, exited)
    {
      effects' := effects' + StopsOf(c, exited[i]);
    }
    assert effects' == effects + Stops(c, exited);
    for i := 0 to |entered|
      invariant effects' + Spawns(c, entered[i..]) == effects + Stops(c, exited) + Spawns(c, entered)
    {
      effects' := effects' + SpawnsOf(c, entered[i]);
    }
    assert effects' + Spawns(c, []) == effects';
  }
}
