# A verified model of the statechart interpreter and its runtime

This project models a C++ statechart library in Dafny and proves what its parts
promise each other. Three layers are covered.

**The interpreter.** `Parse.dfy` builds the node tree and numbers it in document
order; `StateNode.dfy` holds the tree, `Configuration.dfy` says what a legal
configuration is. A microstep is selected (`Select.dfy`, `Conflict.dfy`), its
exits, history and targets are worked out (`Transition.dfy`, `History.dfy`,
`Targets.dfy`, `EntrySet.dfy`, `Entry.dfy`), the result is completed
(`Completion.dfy`), and actions, done events and the snapshot follow
(`Action.dfy`, `Finals.dfy`, `StateValue.dfy`, `Microstep.dfy`). `Stepping.dfy`
and `StepStart.dfy` carry the main argument for legality: what a step starts to
complete from holds two children of one compound state exactly if a state's
transition to itself clashes with a transition that exits it, and
`LoopExample.dfy` is a chart where that happens. `Macrostep.dfy` settles and
finishes; `Lifetime.dfy`, `HistoryRuns.dfy`, `Replay.dfy` and `Ordering.dfy` prove
what holds over whole lives of a machine, and `StepLaw.dfy` what a whole step does
to context, queue and effects, read off the actions in the chart.

**Persistence.** `Persistence.dfy` and `Restoring.dfy` compress a configuration to
its state value and rebuild it, `Paths.dfy` relates values to paths, and
`Json.dfy`, `JsonText.dfy`, `JsonRoundTrip.dfy` and `SnapshotJson.dfy` write and
read the JSON text (the grammar is the part of RFC 8259, sections 2 to 7, that
the library uses); `JsonLayout.dfy` says which texts stand for which documents and
proves that the parser reads exactly those.

**Actors and clocks.** `ActorSpec.dfy`, `ActorInvariant.dfy`, `ActorRuns.dfy` and
`ActorSystem.dfy` run actors, their timers and their children under every
interleaving; `ActorLaw.dfy` writes out what each effect does, `ActorReport.dfy`
what a finished actor's parent is told, `NoisyExample.dfy` is a run in which an
actor does not stop, and `MachineActor.dfy` ties an actor's tables to the machine
it runs. `TestClock.dfy`, `ManualExecutor.dfy` and `EventLoop.dfy` are the virtual
clock, the pumped executor and the threaded loop, over the timer table of
`TimerTable.dfy`.

The code's loops are methods proved against functions or relations; what is
promised is proved about those. The relation `Microsteps.IsMicrostep` describes a
whole microstep without its loops, and `Macrosteps.MicrostepDeterministic` shows
that it leaves nothing open. What these functions compute is in turn stated
without them, by positions, fields and literal names, in the lemmas named
`...Exact` and those beside them. Contexts, payloads, guards and action functions
are opaque values and pure functions.

## Charts

A few predicates say which charts a result is about; each result asks only for
those it needs.

- `StateNodes.Tree` is what building a tree establishes (`Parsing.ParsedTree`).
- `Configurations.WellFormed` is not enforced by the parser: history nodes have no
  children, a history default is a non-history sibling, an initial history child
  has such a default, a parallel state has a region, and a history node directly
  under a parallel state has no default.
- `Configurations.TargetsExist` says that targets are nodes of the chart; selecting
  asks for no more, and for no more than a configuration closed under parents.
- `Configurations.Orthogonal` says besides that the targets of one transition can be
  active together. Stepping and running ask for it; persistence does not.
- `Conflicts.LoopsReenter` says that below a parallel state a transition from a
  childless state to just itself reenters. `Macrosteps.RunChart` is a chart with
  this and `Orthogonal`; there every snapshot of every run is good, without
  further conditions. A single step is modelled for every selection the conflict
  filter makes, and in other charts the snapshots of a run are good exactly as long
  as what each step selects fits (`Macrosteps.StepFits`); see "Findings".
- `Persistence.Named` adds, for state values and paths, that keys are not empty and
  differ among siblings, and that no history node sits directly under a parallel
  state. States are configured in a map by key, so siblings' keys differ in every
  chart that is built (`Parsing.ParsedKeys`).
- `Replays.Tidy` adds, for effects, that `after` ids and invoke ids are distinct and
  that the chart's own actions do not use them.

The code differs from W3C SCXML where it differs: `isInFinal` looks through nested
compound states, and an initial history child is entered through its default even
if a value is stored.

## Model

| member | source | states |
|---|---|---|
| `Parsing.Builder.AddNode` | include/xstate/machine/machine.hpp:925-928 | A node gets the next number exactly if its id is not taken; otherwise building fails. |
| `Parsing.Builder.BuildNode` | include/xstate/machine/machine.hpp:957-980 | A subtree is appended in document order under consecutive numbers; it fails exactly if a final state has states or an id repeats. |
| `Parsing.Builder.BuildAll` | include/xstate/machine/machine.hpp:976-978 | The children of a node follow one another, each with its whole subtree, and the parent's list holds where each starts. |
| `Parsing.Wire` | include/xstate/machine/machine.hpp:1040-1052 | Each compound node with children gets the child its configuration names first; it fails exactly if a name is missing or unknown, or a node without an initial state has initial actions. |
| `Parsing.Parse` | include/xstate/machine/machine.hpp:934-955 | Succeeds exactly if no parallel root is without states, no final state has states, all ids differ and every initial state can be wired; the nodes are then those of the configuration in document order, wired, and form a `Tree`. |
| `Parsing.ParsedTree` | include/xstate/machine/machine.hpp:934-1052 | Building and wiring establish every tree fact the interpreter relies on: parents come first, numbering is a pre-order, child lists are exact and ascending, ids are unique, initial states are children. |
| `Parsing.ParsedKeys` | include/xstate/machine/config.hpp:30-57 | As the configurations of one node's states have different keys, so have sibling nodes. |
| `Parsing.FlatHangs` | include/xstate/machine/machine.hpp:957-980 | The numbers of a subtree are consecutive, every node in it descends from its root, and each node's parent is its predecessor or an ancestor of it. |
| `Parsing.ParsedFrom` | include/xstate/machine/machine.hpp:934-980 | Every node is made from its configuration: its id is the one given, or else the machine's, a dot and the keys on the way to it with dots between; it is compound if it was atomic and has states; actions, transitions, delays, invokes, tags and output are copied. The root has the machine's id. |
| `StateNodes.IsDescendantOf` | include/xstate/machine/state_node.hpp:57-61 | Walking parent pointers decides descent, a node being its own descendant. |
| `StateNodes.ChildByKey` | include/xstate/machine/state_node.hpp:63-67 | The first child with the key, and none exactly if no child has it. |
| `StateNodes.SubtreeInterval` | include/xstate/machine/machine.hpp:957-980 | Pre-order numbering makes every subtree an interval of document order. |
| `StateNodes.AncestorsComparable` | include/xstate/machine/state_node.hpp:57-61 | The ancestors of a node form a chain. |
| `Configurations.CompletionUnique` | include/xstate/machine/machine.hpp:867-895 | A partial configuration has at most one completion by default states. |
| `Configurations.FillingUnique` | include/xstate/machine/machine.hpp:867-895 | Any set of nodes, legal to be or not, can be filled with missing default states in only one way. |
| `Configurations.FillsLegal` | include/xstate/machine/machine.hpp:867-895 | Completion ends in a legal configuration exactly if what it started from held no two children of one compound node; it never mends two and never makes two. |
| `Configurations.LegalMinimal` | include/xstate/machine/machine.hpp:839-842 | No legal configuration properly contains another. |
| `Entry.AddInitial` | include/xstate/machine/machine.hpp:401-418 | Appends, in document order, the node and everything it enters by default, resolving history initials to their defaults, and records exactly those reached through initial transitions. |
| `Completion.CompleteConfiguration` | include/xstate/machine/machine.hpp:869-895 | Terminates, removes nothing, and fills any parent-closed set, consistent or not, with exactly the default states missing in it; each new node joins `toEnter` exactly once and counts as entered initially exactly if an initial transition leads to it. |
| `Completion.CompletionPass` | include/xstate/machine/machine.hpp:873-893 | A pass that reports no change leaves every node settled; one that reports a change has added a node. |
| `Completion.MissingRegions` | include/xstate/machine/machine.hpp:878-881 | Exactly the inactive regions of a parallel node are added, with their initial states. |
| `Completion.MissingBelow` | include/xstate/machine/machine.hpp:876-887 | After its share, a node has what it needs just below it, and nothing is listed twice. |
| `Transitions.TransitionDomain` | include/xstate/machine/machine.hpp:548-563 | The source when all targets lie inside and the transition does not reenter; else the nearest non-parallel proper ancestor that properly contains all targets; else the root. |
| `Transitions.ComputeExitSet` | include/xstate/machine/machine.hpp:566-574 | Exactly the active nodes strictly below the domain; none for a targetless transition. |
| `Transitions.DomainExact` | include/xstate/machine/machine.hpp:541-563 | The domain of a transition that does not reenter and leads only to its source and below is its source. That of any other is the root or a proper ancestor of the source that is not parallel and properly contains all targets, and it lies at or below every such ancestor. |
| `Transitions.InsideNotExited` | include/xstate/machine/machine.hpp:541-574 | A transition with its source and all targets properly inside a state that is not parallel does not exit that state. |
| `Transitions.DomainContains` | include/xstate/machine/machine.hpp:541-563 | The domain contains the source and all targets. |
| `Targeting.LandingIncomparable` | include/xstate/machine/machine.hpp:590-613 | No node a target asks for lies below a node that target lands on. |
| `Targeting.AimsOfTwoTargets` | include/xstate/machine/machine.hpp:590-613 | Orthogonal targets, history included, never ask for two children of one compound node. |
| `Histories.RecordHistory` | include/xstate/machine/machine.hpp:791-810 | Exactly the history children of exited nodes get new values, recorded against the configuration before the exits; all others keep theirs. |
| `Histories.RecordDeep` | include/xstate/machine/machine.hpp:800-806 | A deep history node records the active descendants of its parent that have no active child. |
| `Histories.RecordShallow` | include/xstate/machine/machine.hpp:796-798 | A shallow history node records the active children of its parent. |
| `Histories.RecordingKeepsValid` | include/xstate/machine/machine.hpp:789-810 | Every stored value stays one that was recorded in a legal configuration with the history node's parent active. |
| `Stepping.SurvivorsClosed` | include/xstate/machine/machine.hpp:832-834 | What is left after the exits is closed under parents and keeps the root. |
| `StepStarts.StartPartialExactly` | include/xstate/machine/machine.hpp:577-613 | What entering leads to, before completion, holds no two children of one compound node if and only if every childless state that one selected transition leads to itself and another exits fits what that other aims for (`LoopsFit`). |
| `StepStarts.BasePartial` | include/xstate/machine/machine.hpp:821-837 | If no selected transition exits the domain of another, survivors and everything the transitions aim for never include two children of one compound node. |
| `StepStarts.NothingBelowLanding` | include/xstate/machine/machine.hpp:598-612 | Then nothing that survives or is aimed for lies below a node a target lands on, so its initial descent is free. |
| `EntrySets.PushChain` | include/xstate/machine/machine.hpp:577-583 | Adds exactly the ancestors of a node short of the stop node, each once. |
| `EntrySets.ComputeEntrySet` | include/xstate/machine/machine.hpp:590-613 | After a target, history resolved, it and its ancestors are entered or survive; whatever else was entered is a default state below a node landed on for the first time, and counts as entered initially exactly then. |
| `EntrySets.EnterStored` | include/xstate/machine/machine.hpp:598-602 | The same for every node a history target has stored. |
| `Actions.ExecuteActions` | include/xstate/machine/machine.hpp:306-395 | A list of actions passes the draft in order through what updates it, queues exactly the events raised without delay, appends one effect for each other action, its kind, target, event, delay, id and source given by the action, counts the send ids made up, and notes whether anything was assigned (`Ran`, which does not mention how one action is executed). |
| `Actions.RunBlocksAfter` | include/xstate/machine/machine.hpp:306-395 | What actions do does not depend on the effects and events already there: they only append. |
| `Actions.ExecuteEntryActions` | include/xstate/machine/machine.hpp:900-908 | Entry actions in the order given, each preceded by the parent's initial actions when the node was entered through its initial transition. |
| `Actions.EmitDelayEffects` | include/xstate/machine/machine.hpp:625-646 | Cancels for what is exited, then starts for what is entered, with delays resolved on the given context. |
| `Actions.EmitInvokeEffects` | include/xstate/machine/machine.hpp:650-672 | Stops for what is exited, then spawns for what is entered. |
| `Finals.ProcessFinals` | include/xstate/machine/machine.hpp:702-732 | Status, output and queue are those of `Completed` over all entered states; what that is, the next five rows say. |
| `Finals.InFinalExact` | include/xstate/machine/machine.hpp:682-696 | An active node is in final if and only if every active leaf at or below it is a final state. |
| `Finals.DoneEventsExact` | include/xstate/machine/machine.hpp:702-727 | No done event is raised twice; a non-root parallel node's is raised exactly when it is in final and a final state with a parent strictly below it was entered, a non-root compound node's exactly when a final child of its was entered. |
| `Finals.DoneStatusExact` | include/xstate/machine/machine.hpp:710-731 | A step makes the machine done exactly when a final child of a compound root was entered, or a parallel root has come to be in final by a step that entered something. |
| `Finals.OutputExact` | include/xstate/machine/machine.hpp:676-721 | A parallel node's done event carries nothing, any other's what its first final child entered puts out; the machine's output is what the last final child of a compound root entered puts out, and there is none otherwise. |
| `Finals.DoneEventsOutward` | include/xstate/machine/machine.hpp:707-726 | The done events one more final state adds come from the inside out: its parent's first, then those of ever further parallel ancestors. |
| `Microsteps.EnterSelected` | include/xstate/machine/machine.hpp:821-829 | For every selection the filter can make: survivors and entered nodes together are exactly the paths to all targets and the default states below the nodes the targets are the first to enter. |
| `Microsteps.NextConfiguration` | include/xstate/machine/machine.hpp:821-842 | The next configuration fills exactly that set; `toEnter` lists each entered node once; a node counts as entered initially exactly if it is outside what is given by survival or a path. |
| `Microsteps.FinalizeSnapshot` | include/xstate/machine/machine.hpp:439-447 | The state value of the configuration, and all tags of its states, each once, in order of first appearance. |
| `Microsteps.TagsExact` | include/xstate/machine/machine.hpp:439-447 | The tags are those of all states in document order, each where it first appears. |
| `Microsteps.Microstep` | include/xstate/machine/machine.hpp:773-865 | From a legal snapshot and any selection whose exit sets are disjoint, the whole step, as the relation `IsMicrostep` says it: history, configuration, order of actions and effects, done events, value, tags and progress. |
| `Microsteps.LegalExactly` | include/xstate/machine/machine.hpp:773-865 | A step from a legal configuration ends in a legal one if and only if the selection, with the history recorded on leaving, satisfies `LoopsFit`. |
| `Microsteps.ConsistentStep` | include/xstate/machine/machine.hpp:821-842 | If no transition exits the domain of another, the next configuration is the legal completion of the survivors and the paths to the targets, and what is outside those counts as entered initially. |
| `Selection.SelectForNode` | include/xstate/machine/machine.hpp:477-492 | Told by transitions, event types and guards alone (`Chosen`): the first of exactly the event's type that has no guard or one that holds; only if there is none and the event has a type, the first wildcard of that kind; none exactly if there is neither. |
| `Selection.GuardLaws` | include/xstate/machine/machine.hpp:451-473 | A function guard holds if the function says so, a negation if its operand does not, a state guard if the state value contains the path. |
| `Selection.AndLaws` | include/xstate/machine/machine.hpp:459-461 | A conjunction holds exactly if all its operands do, so without any. |
| `Selection.OrLaws` | include/xstate/machine/machine.hpp:462-464 | A disjunction holds exactly if one of its operands does, so not without any. |
| `Selection.HandlerNearest` | include/xstate/machine/machine.hpp:500-515 | What handles an event for a leaf sits at it or an ancestor, and nothing between them is enabled. |
| `Selection.HandlerExact` | include/xstate/machine/machine.hpp:500-515 | A leaf's handler is the transition chosen at the nearest node at or above it for which any is chosen. |
| `Selection.CandidatesExact` | include/xstate/machine/machine.hpp:496-515 | The candidates are exactly the transitions active leaves find that are not forbidden, each once. |
| `Selection.SelectTransitions` | include/xstate/machine/machine.hpp:496-539 | The candidates of the active leaves, each once, forbidden ones blocking, filtered for conflicts in the order of the leaves. |
| `Selection.ResolveOne` | include/xstate/machine/machine.hpp:520-537 | One candidate against those kept: it replaces the ancestors it meets, or is dropped at the first other it meets. |
| `Conflicts.ScanFacts` | include/xstate/machine/machine.hpp:523-535 | Going through the kept transitions either drops the candidate and erases none, or erases exactly the proper ancestors it meets. |
| `Conflicts.SelectionSoundAndMaximal` | include/xstate/machine/machine.hpp:496-539 | In any configuration closed under parents, legal or not: surviving transitions exit disjoint sets, and every candidate that did not survive meets the exit set of a survivor whose source lies below its own, or that came before it and does not lie above it. |
| `Conflicts.SelectedFound` | include/xstate/machine/machine.hpp:496-539 | Every selected transition is found by an active leaf: chosen at the nearest node at or above it, guard, event type and order considered, and not forbidden. |
| `Conflicts.SelectsExactly` | include/xstate/machine/machine.hpp:496-539 | Something is selected if and only if some active leaf finds a transition that is not forbidden. |
| `Conflicts.SurvivorsInOrder` | include/xstate/machine/machine.hpp:516-539 | Survivors keep the order of the candidates. |
| `Conflicts.SelectionConsistent` | include/xstate/machine/machine.hpp:516-539 | No selected transition exits the domain of another if and only if no childless state's transition to itself, not reentering, sits in what another selected transition exits: the filter does not see such transitions. |
| `Conflicts.ReenteringChartsConsistent` | include/xstate/machine/machine.hpp:516-539 | In charts where, below parallel states, all such transitions reenter, no selection exits the domain of a selected transition. |
| `Conflicts.SelectedTakes` | include/xstate/machine/machine.hpp:496-539 | In any chart with orthogonal targets the selection made in a legal configuration is one a microstep is modelled for. |
| `LoopExamples.ExampleQualifies` | include/xstate/machine/machine.hpp:516-539 | The example is a well-formed chart with orthogonal targets. |
| `LoopExamples.LoopIsTaken` | include/xstate/machine/machine.hpp:516-539 | In the example chart, in its initial configuration, the filter keeps both the transition of a state to itself and the one that leaves the parallel state around it. |
| `LoopExamples.LoopBreaksLegality` | include/xstate/machine/machine.hpp:577-612 | That step ends with all seven states active, so with two active children of the root. |
| `LoopExamples.TakeLoop` | include/xstate/machine/machine.hpp:496-865 | Selecting and stepping in the example's initial configuration ends there whatever the context, effects and queue. |
| `Macrosteps.MicrostepKeepsGood` | include/xstate/machine/machine.hpp:773-865 | A microstep takes a good active snapshot to a good one: legal configuration in document order, valid history, value and tags of the configuration, done exactly when the configuration is. |
| `Macrosteps.GoodExactly` | include/xstate/machine/machine.hpp:773-865 | In any well-formed chart with orthogonal targets, a step from a good active snapshot leads to a good one if and only if what the snapshot selects on the event fits, given what history records on leaving (`StepFits`). |
| `Macrosteps.MicrostepDeterministic` | include/xstate/machine/machine.hpp:773-865 | The relation leaves nothing open, in any chart and for any selection: next snapshot, effects, raised events and progress are determined. |
| `Macrosteps.MicrostepAlone` | include/xstate/machine/machine.hpp:773-865 | A microstep appends its own effects and raised events to whatever was there, and is not influenced by them. |
| `Macrosteps.Stabilize` | include/xstate/machine/machine.hpp:741-769 | As long as what each pass selects fits: terminates within the step limit with a stable good snapshot, or fails exactly if it is still active after that many passes; the run it went through is given. |
| `Macrosteps.RunKeepsGood` | include/xstate/machine/machine.hpp:741-769 | In a chart whose self loops below parallel states reenter, every snapshot settling goes through is good. |
| `Macrosteps.RunGoodExactly` | include/xstate/machine/machine.hpp:741-769 | In any well-formed chart with orthogonal targets, every snapshot of a run is good if and only if what each of its passes selects fits. |
| `Macrosteps.QueueConserved` | include/xstate/machine/machine.hpp:746-766 | First in, first out, nothing lost: at every point, processed events followed by those still queued are the initial ones followed by those raised. |
| `Macrosteps.DisarmedBy` | include/xstate/machine/machine.hpp:736-757 | Eventless evaluation is off at the end only if the last pass was an eventless microstep that changed no configuration and ran no assign. |
| `Macrosteps.EventlessFirst` | include/xstate/machine/machine.hpp:741-769 | Each pass takes eventless transitions if it looks for them and finds any, and only otherwise the head of the queue, which is taken even if nothing comes of it; what is raised goes to the end. |
| `Macrosteps.FinishIfDone` | include/xstate/machine/machine.hpp:213-226 | A done machine runs the exit actions of all active states, deepest first, then cancels their timers and stops their children; any other is left alone. |
| `Macrosteps.OnStop` | include/xstate/machine/machine.hpp:230-239 | Stopping runs the exit actions of an active machine, deepest first, on `xstate.stop`, and nothing else. |
| `Macrosteps.InitialConfiguration` | include/xstate/machine/machine.hpp:182 | Descending from the root gives the completion of the root alone, in document order. |
| `Macrosteps.GetInitialSnapshot` | include/xstate/machine/machine.hpp:177-197 | As long as what each pass selects fits: enters the chart from its root, settles and finishes. |
| `Macrosteps.Transition` | include/xstate/machine/machine.hpp:199-208 | As long as what each step selects fits: an event nothing accepts changes nothing; any other takes one microstep, settles and finishes; fails only if settling hits its limit. |
| `Macrosteps.EventAlwaysFits` | include/xstate/machine/machine.hpp:199-208 | In a chart whose self loops below parallel states reenter, what an event and all settling after it select fits. |
| `Macrosteps.StartAlwaysFits` | include/xstate/machine/machine.hpp:177-197 | There so does what all settling at the start selects. |
| `Lifetimes.InitialGood` | include/xstate/machine/machine.hpp:177-197 | A machine starts out good. |
| `Lifetimes.EverySnapshotGood` | include/xstate/machine/machine.hpp:177-208 | Over any life of such a machine, every snapshot is good: its configuration is legal and it is done exactly when its configuration is. |
| `Lifetimes.EveryMicrostepGood` | include/xstate/machine/machine.hpp:741-769 | So is every snapshot in between, those of settling at the start included. |
| `Lifetimes.LifeGoodExactly` | include/xstate/machine/machine.hpp:177-208 | In any well-formed chart with orthogonal targets, all snapshots of a life, those in between included, are good if and only if what each of its microsteps selected fits. |
| `Lifetimes.DoneForever` | include/xstate/machine/machine.hpp:202 | Once done, no event ever changes the snapshot or has an effect. |
| `Lifetimes.ActiveSettled` | include/xstate/machine/machine.hpp:746-767 | A start or macrostep that ends active has an empty queue, has processed everything raised in order, and finds no eventless transition unless evaluation was disarmed. |
| `HistoryRuns.StoredAtLastExit` | include/xstate/machine/machine.hpp:789-810 | After any run, what a history node has stored is what was active when its parent was last exited. |
| `HistoryRuns.StoredSince` | include/xstate/machine/machine.hpp:791-810 | What is stored does not change while the parent is not exited. |
| `HistoryRuns.DeepHistoryExact` | include/xstate/machine/machine.hpp:590-613 | Over any run, taking a transition to a deep history node makes the active states below its parent exactly those active when the parent was last exited. |
| `HistoryRuns.ShallowHistoryExact` | include/xstate/machine/machine.hpp:590-613 | Over any run, shallow history restores exactly the parent's direct active children, and everything active below them is there by default. |
| `HistoryRuns.LifeIsTrail` | include/xstate/machine/machine.hpp:177-208 | The microsteps of every life, from settling at the start on, form such a run, ending in the life's snapshot. |
| `Replays.MicrostepReplayed` | include/xstate/machine/machine.hpp:812-850 | A microstep's effects turn the timers and children of the old configuration into exactly those of the new one, each running once, states left and entered again included. |
| `Replays.MacrostepReplayed` | include/xstate/machine/machine.hpp:199-226 | So do a macrostep's, and into none when the machine is done. |
| `Replays.StartReplayed` | include/xstate/machine/machine.hpp:177-197 | Starting starts exactly the tasks of the states it settles in. |
| `Replays.LifeReplayed` | include/xstate/machine/machine.hpp:625-672 | At every point of a life that goes on from a snapshot whose tasks run, what has been started and not ended are the tasks of the active states. |
| `Replays.WholeLifeReplayed` | include/xstate/machine/machine.hpp:625-672 | So for every life from its start, with nothing running before. |
| `MachineActors.TablesMirror` | include/xstate/system.hpp:287-371 | However effects, firing timers and other steps follow one another, the actor's own tables hold exactly the invokes of the active states and those of their `after` timers that have not fired since they were last started. |
| `MachineActors.LifeTables` | include/xstate/system.hpp:287-371 | So at every point of a life an actor has run from its start. |
| `Orderings.ExitsDeepestFirst` | include/xstate/machine/machine.hpp:781-812 | Each exited state's exit actions run exactly once, after those of all its exited descendants. |
| `Orderings.EntriesOutermostFirst` | include/xstate/machine/machine.hpp:842-849 | Each entered state's entry actions run exactly once, after those of all its entered ancestors. |
| `Orderings.InitialActionsInBetween` | include/xstate/machine/machine.hpp:900-908 | A parent's initial actions run at most once, exactly if its initial child is entered through the initial transition, right before that child's entry actions and after the parent's. |
| `Orderings.StepRunsBlocks` | include/xstate/machine/machine.hpp:781-850 | A microstep's context and raised events are those of running its exit, transition and entry blocks one after the other. |
| `Orderings.StepExitsOnce` | include/xstate/machine/machine.hpp:781-812 | In every microstep each exited state's exit block stands once, after those of all its exited descendants and before every transition and entry block. |
| `Orderings.StepEntriesOnce` | include/xstate/machine/machine.hpp:814-850 | In every microstep each entered state's entry block stands once, after those of all its entered ancestors and after every exit and transition block. |
| `Orderings.StepInitialsOnce` | include/xstate/machine/machine.hpp:900-908 | In every microstep a parent's initial actions run at most once, exactly if its initial child is entered and not given, and right before that child's entry. |
| `Orderings.StaysActive` | include/xstate/machine/machine.hpp:541-574 | A step whose only transition has its source and targets properly inside a state that is not parallel neither exits nor enters that state. |
| `StepLaws.StepExact` | include/xstate/machine/machine.hpp:773-865 | Read off the lists of actions in the chart: a microstep passes the context through exit actions, deepest first, transition actions and entry actions, outermost first; queues what these raise, then the done events; and leaves the effects of exit actions, the cancels and stops of the exited, the effects of transitions, the spawns of the entered, the effects of entry actions, and last the timers of the entered, their delays taken in the new context. |
| `StepLaws.InitialExact` | include/xstate/machine/machine.hpp:177-197 | Entering the chart is the entering half of a step, on `xstate.init`. |
| `StepLaws.TargetsReached` | include/xstate/machine/machine.hpp:590-613 | What a target of a selected transition asks for (`AsksFor`) is active after the step: a state itself; for a history node its parent and what it has stored, or else its default, or else its parent's initial state, or what that stands for. |
| `StepLaws.EnteredBecause` | include/xstate/machine/machine.hpp:577-613 | Whatever a step enters lies on the way to what a target asks for, or is a region of a parallel state or where its parent's initial transition leads. |
| `StepLaws.StartedBecause` | include/xstate/machine/machine.hpp:177-182 | Every state a machine starts in but the root is a region of an active parallel state or where an active parent's initial transition leads. |
| `StepLaws.StepResult` | include/xstate/machine/machine.hpp:851-865 | A step leaves no error, the tags of its states, and an output exactly if a final child of a compound root was entered, then what that puts out. |
| `StepLaws.TasksEnded` | include/xstate/machine/machine.hpp:625-661 | An exited state cancels each of its timers and stops each child it invokes. |
| `StepLaws.TasksBegun` | include/xstate/machine/machine.hpp:636-672 | An entered state spawns each child it invokes, to be stopped with it, and starts a timer for each delayed transition: under its event type, to send that event to the machine itself, after what the delay is in the given context. |
| `StepLaws.FinishExact` | include/xstate/machine/machine.hpp:213-226 | A done machine passes its context through the exit actions of all active states, deepest first, leaves their effects and then cancels and stops, and loses what they raise; any other is left alone. |
| `Persistence.RestoreConfig` | include/xstate/machine/machine.hpp:278-294 | Appends the nodes a state value describes, branches in key order; fails exactly at the first unknown key. |
| `Persistence.RebuildsAll` | include/xstate/machine/machine.hpp:278-294 | Rebuilding the value of an active state gives exactly the active states at and below it, each once. |
| `Persistence.RebuiltExact` | include/xstate/machine/machine.hpp:278-294 | For any value whatever: rebuilding fails exactly if a key in it names no child where it stands, and gives exactly the states it names. |
| `Persistence.ValueRoundTrip` | include/xstate/machine/machine.hpp:77-79 | Rebuilding the value of any legal configuration and sorting gives the configuration back. |
| `Restoring.GetPersistedSnapshot` | include/xstate/machine/machine.hpp:48-63 | Everything is copied, the error included, history nodes as their ids; there are no children yet. |
| `Restoring.RestoreHistory` | include/xstate/machine/machine.hpp:80-87 | Each stored id becomes its node; fails exactly on an unknown id. |
| `Restoring.RebuiltDistinct` | include/xstate/machine/machine.hpp:278-294 | Whatever the value, no state is restored twice. |
| `Restoring.RestoreSnapshot` | include/xstate/machine/machine.hpp:65-113 | Succeeds exactly if the context is of the machine's type, the value, all stored ids and, for an active machine, all children's sources are known; status, output and error are kept, value and tags are recomputed, and only an active machine has its timers started and its children spawned again. |
| `Restoring.RespawnsExact` | include/xstate/machine/machine.hpp:93-113 | Each persisted child is spawned again under its id from its source, to be stopped with a state exactly if an active one invokes it. |
| `Restoring.PersistRestores` | include/xstate/machine/machine.hpp:48-93 | Restoring what was persisted gives back the same snapshot: status, output, error, context, configuration, value, tags and history; it fails only for an unknown child source. |
| `Paths.ContainsReflexive` | include/xstate/state_value.hpp:40-49 | Every value covers itself. |
| `Paths.ContainsTransitive` | include/xstate/state_value.hpp:40-49 | Covering is transitive. |
| `Paths.ContainsAntisymmetric` | include/xstate/state_value.hpp:40-49 | Values with a leaf or branches, not both, that cover each other are equal. |
| `Paths.ValueProper` | include/xstate/machine/machine.hpp:421-437 | Values of configurations are such values. |
| `Paths.PathMatches` | include/xstate/state_value.hpp:18-49 | In a legal configuration a path is covered exactly if walking its segments stays among active states, an empty last segment being good only where the value has something below. |
| `Paths.MatchesExact` | include/xstate/snapshot.hpp:113-115 | A path without empty segments is matched exactly if walking it from the root reaches an active state. |
| `Paths.StateInExact` | include/xstate/machine/machine.hpp:470-471 | In a legal configuration a state guard with such a path holds exactly if walking it from the root reaches an active state. |
| `JsonTexts.JsonEscapeInto` | include/xstate/detail/json_writer.hpp:9-30 | Appends the escaped text, character by character. |
| `JsonTexts.JsonString` | include/xstate/detail/json_writer.hpp:32-39 | The quoted text. |
| `JsonTexts.WriteJson` | include/xstate/detail/json_value.hpp:235-268 | The text of a document, members and items in order, separated by commas. |
| `JsonTexts.JsonParser.ParseString` | include/xstate/detail/json_value.hpp:163-212 | Agrees with the string grammar, all escapes and failures included. |
| `JsonTexts.JsonParser.ParseNumber` | include/xstate/detail/json_value.hpp:214-230 | Agrees with the number token rule: the longest integer prefix of the token, a sign included, for integers of which a double keeps every digit. |
| `JsonTexts.JsonParser.ParseValue` | include/xstate/detail/json_value.hpp:86-108 | Agrees with the value grammar: same value and same text left, or same failure. |
| `JsonTexts.JsonParser.ParseObject` | include/xstate/detail/json_value.hpp:117-140 | Agrees with the object grammar, members in order. |
| `JsonTexts.JsonParser.ParseArray` | include/xstate/detail/json_value.hpp:142-160 | Agrees with the array grammar. |
| `JsonTexts.JsonParser.Parse` | include/xstate/detail/json_value.hpp:45-50 | One value and nothing but space after it, or a failure. |
| `JsonRoundTrips.ParseQuoted` | include/xstate/detail/json_writer.hpp:9-39 | Every string comes back, control characters included. |
| `JsonRoundTrips.ParseWhole` | include/xstate/detail/json_value.hpp:214-244 | Every integer below the limit comes back. |
| `JsonRoundTrips.JsonRoundTrip` | include/xstate/detail/json_value.hpp:41-268 | Parsing the text of any document whose numbers are integers below 10 to the 15th gives the document back. |
| `JsonLayouts.LayoutParses` | include/xstate/detail/json_value.hpp:41-231 | For every document, whatever blanks, tabs and line ends stand before and after its tokens and however its strings are escaped (short escapes with the solidus, and code escapes with the UTF-8 bytes of section 3 of RFC 3629), parsing the text gives the document. |
| `JsonLayouts.ParsesExactly` | include/xstate/detail/json_value.hpp:41-231 | The parser gives a document if and only if its input is such a text of it, and fails on everything else. |
| `JsonLayouts.WrittenIsText` | include/xstate/detail/json_value.hpp:235-268 | What the writer writes is such a text. |
| `SnapshotJson.StateValueJson` | include/xstate/snapshot.hpp:17-28 | The text of the value's document, branches in key order. |
| `SnapshotJson.JsonToStateValue` | include/xstate/machine/machine.hpp:267-275 | The value a document stands for; a repeated key keeps its first value. |
| `SnapshotJson.BranchesExact` | include/xstate/machine/machine.hpp:267-275 | The branches read are the members of an object; of several with one key the first counts. |
| `SnapshotJson.ValueDocRoundTrip` | include/xstate/machine/machine.hpp:267-275 | A state value is recovered from its document if and only if no value in it has both a leaf and branches. |
| `SnapshotJson.PersistedToJson` | include/xstate/machine/machine.hpp:116-148 | The concatenated text is that of one document; fails exactly without a codec, with children, or with a context of another type. |
| `SnapshotJson.ParseSnapshotJson` | include/xstate/machine/machine.hpp:152-173 | Reads status, value, context and history wherever they are present and of the right kind, defaults elsewhere; fails without a codec, on bad JSON, and on anything but an object. |
| `SnapshotJson.FindExact` | include/xstate/detail/json_value.hpp:34-38 | The first member with a key is found, and none exactly if there is none. |
| `SnapshotJson.HistoryExact` | include/xstate/machine/machine.hpp:165-170 | The ids in all members with one key are run together in order; an item that is no string is an empty id. |
| `SnapshotJson.HistoryRoundTrip` | include/xstate/machine/machine.hpp:132-146 | The whole history map is recovered. |
| `SnapshotJson.SnapshotJsonRoundTrip` | include/xstate/machine/machine.hpp:116-173 | The JSON form recovers status, state value and history, and gives the codec back its own text. |
| `SnapshotJson.JsonRestores` | include/xstate/machine/machine.hpp:65-173 | A snapshot written as JSON, parsed and restored has the same status, configuration, value, tags and history. |
| `TimerTables.EmplacedOrder` | include/xstate/adapters/manual/test_clock.hpp:20 | Inserting behind all entries due by the same time keeps the table in order of deadline and creation. |
| `TimerTables.ErasedExact` | include/xstate/adapters/manual/test_clock.hpp:24-31 | Clearing takes out the one entry with the id and keeps all others. |
| `TestClocks.TestClock.SetTimeout` | include/xstate/adapters/manual/test_clock.hpp:18-22 | A new id, and an entry due after the delay from now. |
| `TestClocks.TestClock.ClearTimeout` | include/xstate/adapters/manual/test_clock.hpp:24-31 | The first entry with the id is gone, if there was one. |
| `TestClocks.TestClock.Advance` | include/xstate/adapters/manual/test_clock.hpp:33-44 | Terminates, fires what the specification says, and ends at the new time. |
| `TestClocks.FiringShrinks` | include/xstate/adapters/manual/test_clock.hpp:35-42 | Every firing leaves strictly fewer timers that are there or can ever be set. |
| `TestClocks.AdvanceInOrder` | include/xstate/adapters/manual/test_clock.hpp:33-44 | Timers fire strictly by deadline and then creation, and none is left due at the new time. |
| `TestClocks.AdvanceAdditive` | include/xstate/adapters/manual/test_clock.hpp:33-44 | Advancing twice fires the same timers and reaches the same state as advancing once by the sum. |
| `TestClocks.ClearedNeverFires` | include/xstate/adapters/manual/test_clock.hpp:24-44 | A timer that was cleared does not fire, however far time advances. |
| `TestClocks.DueFires` | include/xstate/adapters/manual/test_clock.hpp:33-44 | A timer that falls due while time advances fires, unless a task clears it. |
| `ManualExecutors.ManualExecutor.Post` | include/xstate/adapters/manual/manual_executor.hpp:17 | The task is queued last. |
| `ManualExecutors.ManualExecutor.Pump` | include/xstate/adapters/manual/manual_executor.hpp:21-30 | Terminates with an empty queue, having run what the specification says, and returns how many tasks that were. |
| `ManualExecutors.PumpsInOrder` | include/xstate/adapters/manual/manual_executor.hpp:21-30 | The tasks run are those queued followed by those posted, in posting order. |
| `ManualExecutors.PumpsAll` | include/xstate/adapters/manual/manual_executor.hpp:21-30 | Every task there is runs exactly once. |
| `ActorSystems.ActorSystem.ResolveTarget` | include/xstate/system.hpp:279-285 | Self, living parent, child or registered actor, in this order. |
| `ActorSystems.ActorSystem.ExecuteEffect` | include/xstate/system.hpp:296-371 | One effect's change to the tables, the clock and the queue. |
| `ActorSystems.ActorSystem.ExecuteEffects` | include/xstate/system.hpp:287-294 | All effects in order. |
| `ActorSystems.ActorSystem.ReportCompletionToParent` | include/xstate/system.hpp:406-419 | A done or failed actor with a living parent sends its completion and remembers it. |
| `ActorSystems.ActorSystem.DoStart` | include/xstate/system.hpp:182-210 | An actor that has a snapshot is left alone; any other settles or fails. |
| `ActorSystems.ActorSystem.DoReceive` | include/xstate/system.hpp:219-244 | An actor that is not active ignores the event; an active one settles or fails. |
| `ActorSystems.ActorSystem.DoStop` | include/xstate/system.hpp:246-266 | Children first, then timers, then what the logic does on stopping, then stopped and observers told; an observer that throws ends the stopping of every actor above; a stopped actor is left alone. |
| `ActorSystems.ActorSystem.FireTimer` | include/xstate/system.hpp:317-323 | A fired timer is forgotten by clock and actor before its event is sent; nothing happens if the actor is gone. |
| `ActorSystems.ActorSystem.RunTask` | include/xstate/adapters/manual/manual_executor.hpp:23-28 | Running the next task keeps the invariant, and has cleared no timer that was not pending. |
| `ActorLaws.SendExact` | include/xstate/system.hpp:279-305 | An event sent is queued for the actor its target names: itself, the living parent, a child, or else a registered actor; if there is none, nothing changes. |
| `ActorLaws.StartTimerExact` | include/xstate/system.hpp:306-326 | A timer started replaces the one under its send id, and is pending under a new number with its event and target; nothing else changes. |
| `ActorLaws.CancelTimerExact` | include/xstate/system.hpp:327-333 | A cancelled timer leaves clock and table; there being none is no error. |
| `ActorLaws.SpawnExact` | include/xstate/system.hpp:334-352 | A spawned child is a new actor under its id with the spawner as parent, and a task is posted to start it; unknown logic spawns none. |
| `ActorLaws.StopChildExact` | include/xstate/system.hpp:353-360 | A child stopped is no child from then on, and a task is posted to stop it. |
| `ActorLaws.FireExact` | include/xstate/system.hpp:317-323 | A fired timer leaves clock and table, and its event goes to whom its target then names; if the actor has gone, to nobody. |
| `ActorLaws.StartExact` | include/xstate/system.hpp:157-162 | Starting posts one task, the first time only. |
| `ActorLaws.StopRestExact` | include/xstate/system.hpp:251-262 | Once its children are stopped, an actor has no timers and no children left when its logic reacts to stopping; only then is it stopped. |
| `ActorInvariants.EffectsInv` | include/xstate/system.hpp:287-371 | Any list of effects keeps the invariant and changes no other actor. |
| `ActorRuns.SettleInv` | include/xstate/system.hpp:193-243 | Whatever the logic answers and wherever it or an observer throws, the invariant holds, other actors are as they were, and a finished actor has told its living parent. |
| `ActorRuns.DoStopInv` | include/xstate/system.hpp:246-266 | Stopping keeps the invariant and changes statuses only to stopped and nothing above the actor. It ends with an exception if and only if it reaches an observer that throws: its own, or one reached through a child, actors already stopped not counting (`Noisy`, of the state before). The actor ends up stopped if and only if it was already or no child is `Noisy`, and is otherwise left as it was. |
| `ActorRuns.QuietlyStopped` | include/xstate/system.hpp:246-266 | If no observer of a younger actor throws, the actor is stopped. |
| `ActorRuns.NoisyChild` | include/xstate/system.hpp:246-266 | If a child is `Noisy`, be it the first or not and the observer its own or further down, the actor is not stopped and keeps its timers and children. |
| `NoisyExamples.NoisyReached` | include/xstate/system.hpp:246-266 | A run from a new system reaches a `Noisy` child, and its next step leaves the actor that was told to stop active, with its child, which is stopped. |
| `ActorRuns.FireInv` | include/xstate/system.hpp:317-323 | Firing removes exactly the one timer from clock and table. |
| `ActorRuns.NextInv` | include/xstate/system.hpp:157-419 | Every step keeps the invariant and takes actors only onward in their lifecycle. |
| `ActorRuns.RunInv` | include/xstate/system.hpp:157-419 | So does every run from a new system. |
| `ActorRuns.TimersBijective` | include/xstate/system.hpp:307-333 | In every run the timer tables of living actors and their pending timers are in bijection, and no timer was cleared that was not pending. |
| `ActorRuns.ReportsOnce` | include/xstate/system.hpp:406-419 | In every run an actor reports its completion at most once. |
| `ActorReports.SettleTells` | include/xstate/system.hpp:406-419 | An actor that first ends with an answer of its logic, and has a living parent it has not told, adds exactly one task behind those of its effects: the parent receives `xstate.done.actor.` and the id if it is done, `xstate.error.actor.` and the id if it failed. Any other answer adds none. |
| `ActorReports.StepTells` | include/xstate/system.hpp:157-419 | A step in which an actor so ends posts that task last; every other step reports nothing. |
| `ActorReports.ToldOnce` | include/xstate/system.hpp:406-419 | Over every run the actors that have reported are exactly those that told their parent in some step, and each did in one step only. |
| `ActorRuns.StatusesOnward` | include/xstate/system.hpp:219-277 | In every run stopped is final, and a done or failed actor can only become stopped. |
| `EventLoops.EventLoop.Post` | include/xstate/adapters/posix/event_loop.hpp:46-51 | The task is queued last. |
| `EventLoops.EventLoop.SetTimeout` | include/xstate/adapters/posix/event_loop.hpp:53-60 | A new id, and an entry that falls due the delay from now, each millisecond a million nanoseconds. |
| `EventLoops.EventLoop.ClearTimeout` | include/xstate/adapters/posix/event_loop.hpp:62-71 | A pending timer is taken out; any other call changes nothing. |
| `EventLoops.EventLoop.Turn` | include/xstate/adapters/posix/event_loop.hpp:121-167 | One turn with the lock held: the oldest task, else, unless stopping, the earliest timer if it is due, else a wait; it ends the thread exactly when stopping with no task left. |
| `EventLoops.NextSound` | include/xstate/adapters/posix/event_loop.hpp:46-168 | Every atomic step keeps the invariant. |
| `EventLoops.AlwaysSound` | include/xstate/adapters/posix/event_loop.hpp:46-168 | Under every interleaving tasks run in posting order, and each timer fires at most once, not before its deadline, and not after a clear that found it. |
| `EventLoops.FiresEarliest` | include/xstate/adapters/posix/event_loop.hpp:123-136 | The timer that fires is the earliest one pending, and no task was waiting. |
| `EventLoops.NothingAfterStop` | include/xstate/adapters/posix/event_loop.hpp:121-167 | From the moment stopping is set no timer fires, and from the moment the loop is gone nothing runs. |
| `EventLoops.DrainedBeforeExit` | include/xstate/adapters/posix/event_loop.hpp:159-166 | The loop ends only once every task posted by then has run. |

## Findings

- include/xstate/machine/machine.hpp:516-539: the conflict filter compares exit
  sets, and a transition from a childless state to just itself that does not
  reenter exits nothing. It is therefore kept beside a transition of another
  region that leaves the parallel state around both, and entering its target
  enters the parallel state again: the step ends with two active children of one
  compound state (`LoopExamples.LoopBreaksLegality`; the chart is
  `LoopExamples.EXAMPLE`). A step ends in a legal configuration if and only if
  every such state that another selected transition exits fits what that
  transition aims for (`Microsteps.LegalExactly`, `Macrosteps.GoodExactly`, and
  over runs and lives `Macrosteps.RunGoodExactly` and
  `Lifetimes.LifeGoodExactly`), and it always does where such transitions reenter
  below parallel states (`Conflicts.ReenteringChartsConsistent`).
- include/xstate/system.hpp:246-266: while an actor stops, nothing catches what an
  observer of one of its children throws. The actor then keeps its status, its
  timers and its children; `NoisyExamples.NoisyReached` is a run that gets there.
  It ends up stopped if and only if it was already or none of its children is
  `ActorRuns.Noisy` in the state before: not stopped yet, and with an observer that
  throws or a child that is `Noisy` in turn (`ActorRuns.DoStopInv`).

## Left out

- Where `std::set` and `std::map` are ordered by address or key, the model uses the arena's `heap` list and `Keys.Sorted`; the objects of one system are known by number instead of by pointer, so sharing through pointers is not modelled beyond that.
- `Json.ParseNumber`: number tokens that go on with a fraction or an exponent after their digits, and integers of 10 to the 15th or more, are outside the model; the library hands them to `std::stod`, while the model fails on them.
- `Microsteps.Microstep`: steps from a configuration that is not legal any more, to which only a step that does not fit leads; settling and transitions are stated up to there.
- Configuration import, configuration builders, guard and action factories, the context-codec macros: field copying. A codec is a pair of functions here, and its text is assumed to be that of a JSON document.
- Resolution of target strings and the other configuration errors (include/xstate/machine/machine.hpp:1092-1160): targets are node numbers.
- Exceptions thrown by guards, actions, delay functions and codecs inside the machine; the actor runtime does model a logic that throws at any point.
- `std::any` outputs, errors and inputs are opaque or left out; a completion event carries no payload in the actor model.
- `Restoring.RestoreSnapshot`: a respawned child's effect carries its id and source, but not the snapshot and input it starts from.
- Persisting the children of an actor (include/xstate/system.hpp:387-404): a persisted snapshot is given with its children.
- `ActorSystems.ActorSystem.ExecuteEffect`: emit handlers, logging, and a system that has already gone.
- The children map copied into snapshots, inspection, and whatever observers do besides throwing.
- Delays in the actor model: any pending timer may fire at any time there; the clocks are modelled on their own.
- The line and offset in JSON error messages.
- `StateValue::toString`.
- Joining the loop's thread, condition variables and wait times: the lock makes atomic steps, waiting is a step that does nothing, and 64-bit time does not overflow.
- The Windows loop, and the promise, callback and transition logics: the same loop, and small wrappers around an actor.
- Uniqueness of generated send ids across microsteps (the counter starts again at 0 in each), and freshness of delivered `after` events (a fired timer only posts an event): neither holds, and neither is claimed.
