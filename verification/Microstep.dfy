/**
 One microstep: exits, transition actions, entries, completion and done detection, as one transformation of snapshots.
 */
module Microsteps {
  import opened Basics
  import opened StateNodes
  import opened Configurations
  import opened Entry
  import opened Completion
  import opened Transitions
  import opened Targeting
  import opened Stepping
  import opened StepStarts
  import opened EntrySets
  import opened Histories
  import opened StateValues
  import opened Actions
  import F = Finals

  datatype Snapshot = Snapshot(
    status: F.Status, output: Option<Payload>, error: Option<Payload>, value: StateValue, context: Context,
    tags: seq<string>, configuration: seq<int>, historyValue: HistoryMap)

  /** The configuration is a list of nodes in document order. */
  ghost predicate InOrder(c: Chart, snap: Snapshot) {
    snap.configuration == Ordered(Size(c), Elems(snap.configuration))
  }

  // ---- which nodes are entered ----

  /** Target `t` of the `j`-th transition comes before the `k`-th of the `i`-th. */
  ghost predicate Earlier(c: Chart, sel: seq<TransitionRef>, i: nat, k: nat, j: int, t: int) {
    0 <= j < |sel| && (j < i || (j == i && k <= |Targets(c, sel[i])| && t in Targets(c, sel[i])[..k]))
  }

  /** The paths to what the earlier targets aim for. */
  ghost function PathsTo(c: Chart, hist: HistoryMap, sel: seq<TransitionRef>, i: nat, k: nat): set<int> {
    set n | n in c.heap && exists j, t, x {:trigger Aimed(c, hist, sel, j, t, x), Desc(c, x, n)} ::
      Aimed(c, hist, sel, j, t, x) && Desc(c, x, n) && Earlier(c, sel, i, k, j, t)
  }

  lemma {:induction false} PathsGrow(c: Chart, hist: HistoryMap, sel: seq<TransitionRef>, i: nat, k: nat)
    requires i < |sel|
    ensures k < |Targets(c, sel[i])| ==> PathsTo(c, hist, sel, i, k) <= PathsTo(c, hist, sel, i, k + 1)
    ensures k <= |Targets(c, sel[i])| ==> PathsTo(c, hist, sel, i, k) <= PathsTo(c, hist, sel, i + 1, 0)
    ensures PathsTo(c, hist, sel, i, k) <= Paths(c, hist, sel)
  {
    if k < |Targets(c, sel[i])| { TakeNext(Targets(c, sel[i]), k); }
  }

  lemma {:induction false} PathsGrowEntering(c: Chart, entered: seq<int>, via: set<int>, paths: set<int>,
                                             paths': set<int>, ys: set<int>)
    requires Entering(c, entered, via, paths, ys) && paths <= paths'
    ensures Entering(c, entered, via, paths', ys)
  {}

  /** What the first `k` targets of the `i`-th transition open. */
  ghost function OpenedHere(c: Chart, hist: HistoryMap, sel: seq<TransitionRef>, i: nat, k: nat): set<int>
    requires i < |sel| && k <= |Targets(c, sel[i])|
  {
    set y | y in c.heap && exists t {:trigger Opens(c, hist, sel, i, t, y)} ::
        t in Targets(c, sel[i])[..k] && Opens(c, hist, sel, i, t, y)
  }

  lemma {:induction false} OpenedNext(c: Chart, hist: HistoryMap, sel: seq<TransitionRef>, i: nat)
    requires i < |sel|
    ensures Opened(c, hist, sel, i + 1) == Opened(c, hist, sel, i) + OpenedHere(c, hist, sel, i, |Targets(c, sel[i])|)
  {
    var ts := Targets(c, sel[i]);
    assert ts[..|ts|] == ts;
    forall y | y in Opened(c, hist, sel, i + 1)
      ensures y in Opened(c, hist, sel, i) || y in OpenedHere(c, hist, sel, i, |ts|)
    {
      var j, t :| j < i + 1 && Opens(c, hist, sel, j, t, y);
      assert j == i ==> t in ts[..|ts|];
    }
  }

  /** Idle states among the first `i` transitions have been entered, with all their ancestors. */
  ghost predicate IdleEntered(c: Chart, sel: seq<TransitionRef>, i: nat, entered: seq<int>) {
    forall k {:trigger Idle(c, sel[k])} ::
        0 <= k < i && k < |sel| && Idle(c, sel[k]) ==> Covered(c, {}, entered, sel[k].source)
  }

  lemma {:induction false} AimsPathed(c: WFChart, active: set<int>, hist: HistoryMap, sel: seq<TransitionRef>, i: nat,
                                      k: nat)
    requires Ready(c, active, hist, sel) && i < |sel| && k < |Targets(c, sel[i])|
    ensures 0 <= Targets(c, sel[i])[k] < Size(c)
    ensures AimsOnPaths(c, hist, PathsTo(c, hist, sel, i, k + 1), Targets(c, sel[i])[k])
  {
    var t := Targets(c, sel[i])[k];
    assert t in Targets(c, sel[i]);
    TakeNext(Targets(c, sel[i]), k);
    SelectedFacts(c, active, hist, sel, i);
    forall x, a | Aim(c, hist, t, x) && Desc(c, x, a) ensures a in PathsTo(c, hist, sel, i, k + 1) {
      assert Aimed(c, hist, sel, i, t, x);
      AimOnPath(c, active, hist, sel, i, t, x, a);
      assert Earlier(c, sel, i, k + 1, i, t);
    }
  }

  /** What a target lands on has been entered before its turn only if it was opened or preempted. */
  lemma {:induction false} EnteredOnlyIf(c: WFChart, active: set<int>, hist: HistoryMap, sel: seq<TransitionRef>,
                                         i: nat, k: nat, paths: set<int>, ys: set<int>, y: int)
    requires Ready(c, active, hist, sel) && i < |sel| && k < |Targets(c, sel[i])| && !Idle(c, sel[i])
    requires paths == PathsTo(c, hist, sel, i, k) && ys == Opened(c, hist, sel, i) + OpenedHere(c, hist, sel, i, k)
    requires y in Landing(c, hist, Targets(c, sel[i])[k]) && (y in paths || y in DefaultsOf(c, ys))
    ensures y in ys || Preempted(c, sel, i, y)
  {
    var t := Targets(c, sel[i])[k];
    if y in paths {
      PathedBefore(c, active, hist, sel, i, k, y);
    } else {
      assert t in Targets(c, sel[i]) && Aimed(c, hist, sel, i, t, y);
      OpenedBefore(c, active, hist, sel, i, k, t, ys, y);
    }
  }

  lemma {:induction false} LandsOnNode(c: WFChart, active: set<int>, hist: HistoryMap, sel: seq<TransitionRef>, i: nat,
                                       k: nat, y: int)
    requires Ready(c, active, hist, sel) && i < |sel| && k < |Targets(c, sel[i])|
    requires y in Landing(c, hist, Targets(c, sel[i])[k])
    ensures y in c.heap
  {
    var t := Targets(c, sel[i])[k];
    assert t in Targets(c, sel[i]) && Aimed(c, hist, sel, i, t, y);
    AimInDomain(c, active, hist, sel, i, t, y);
  }

  /** What has been entered when a target's turn comes, of what it lands on: just what was opened or preempted. */
  lemma {:induction false} EnteredBefore(c: WFChart, active: set<int>, hist: HistoryMap, sel: seq<TransitionRef>,
                                         i: nat, k: nat, entered: seq<int>, via: set<int>, ys: set<int>, y: int)
    requires Ready(c, active, hist, sel) && i < |sel| && k < |Targets(c, sel[i])| && !Idle(c, sel[i])
    requires Entering(c, entered, via, PathsTo(c, hist, sel, i, k), ys) && IdleEntered(c, sel, i, entered)
    requires ys == Opened(c, hist, sel, i) + OpenedHere(c, hist, sel, i, k)
    requires y in Landing(c, hist, Targets(c, sel[i])[k])
    ensures y in c.heap && (y in Elems(entered) <==> y in ys || Preempted(c, sel, i, y))
  {
    var paths := PathsTo(c, hist, sel, i, k);
    LandsOnNode(c, active, hist, sel, i, k, y);
    EnteredHow(c, entered, via, paths, ys, y);
    if y in Elems(entered) { EnteredOnlyIf(c, active, hist, sel, i, k, paths, ys, y); }
    if Preempted(c, sel, i, y) { PreemptedEntered(c, sel, i, entered, y); }
  }

  lemma {:induction false} EnteredHow(c: Chart, entered: seq<int>, via: set<int>, paths: set<int>, ys: set<int>, y: int)
    requires Entering(c, entered, via, paths, ys) && y in c.heap
    ensures y in ys ==> y in Elems(entered)
    ensures y in Elems(entered) ==> y in paths || y in DefaultsOf(c, ys)
  {
    assert DefaultBelow(c, y, y);
  }

  lemma {:induction false} PreemptedEntered(c: Chart, sel: seq<TransitionRef>, i: nat, entered: seq<int>, y: int)
    requires Preempted(c, sel, i, y) && IdleEntered(c, sel, i, entered)
    ensures y in Elems(entered)
  {
    var p :| 0 <= p < i && p < |sel| && Idle(c, sel[p]) && Desc(c, sel[p].source, y);
    assert Covered(c, {}, entered, sel[p].source);
  }

  lemma {:induction false} PathedBefore(c: WFChart, active: set<int>, hist: HistoryMap, sel: seq<TransitionRef>, i: nat,
                                        k: nat, y: int)
    requires Ready(c, active, hist, sel) && i < |sel| && k < |Targets(c, sel[i])| && !Idle(c, sel[i])
    requires y in Landing(c, hist, Targets(c, sel[i])[k]) && y in PathsTo(c, hist, sel, i, k)
    ensures Preempted(c, sel, i, y)
  {
    var t := Targets(c, sel[i])[k];
    assert t in Targets(c, sel[i]) && Aimed(c, hist, sel, i, t, y);
    var j, u, x :| Aimed(c, hist, sel, j, u, x) && Desc(c, x, y) && Earlier(c, sel, i, k, j, u);
    if Idle(c, sel[j]) {
      IdleFacts(c, active, hist, sel, j);
    } else {
      PathMissesLanding(c, active, hist, sel, i, t, y, j, u, x);
      SelectedFacts(c, active, hist, sel, i);
      EarlierDiffers(c, Targets(c, sel[i]), k);
    }
  }

  lemma NotApartFromItself(c: Chart, x: int)
    ensures !Apart(c, x, x)
  {
    assert Desc(c, x, x);
  }

  /** Targets that can be active together do not repeat. */
  lemma {:induction false} EarlierDiffers(c: Chart, ts: seq<int>, k: nat)
    requires TargetsApart(c, ts) && k < |ts|
    ensures ts[k] !in ts[..k]
  {
    NotApartFromItself(c, Anchor(c, ts[k]));
  }

  lemma {:induction false} OpenedFrom(c: Chart, hist: HistoryMap, sel: seq<TransitionRef>, i: nat, k: nat, z: int)
    returns (j: int, u: int)
    requires i < |sel| && k <= |Targets(c, sel[i])|
    requires z in Opened(c, hist, sel, i) + OpenedHere(c, hist, sel, i, k)
    ensures Opens(c, hist, sel, j, u, z)
  {
    if z in Opened(c, hist, sel, i) {
      j, u :| j < i && Opens(c, hist, sel, j, u, z);
    } else {
      j := i;
      u :| u in Targets(c, sel[i])[..k] && Opens(c, hist, sel, i, u, z);
    }
  }

  lemma {:induction false} NotBelowOpened(c: WFChart, active: set<int>, hist: HistoryMap, sel: seq<TransitionRef>,
                                          i: nat, t: int, y: int, j: int, u: int, z: int)
    requires Ready(c, active, hist, sel) && Aimed(c, hist, sel, i, t, y) && !Idle(c, sel[i])
    requires Opens(c, hist, sel, j, u, z)
    ensures !Below(c, y, z)
  {
    OpensFacts(c, active, hist, sel, j, u, z);
    PathMissesLanding(c, active, hist, sel, j, u, z, i, t, y);
  }

  lemma {:induction false} OpenedBefore(c: WFChart, active: set<int>, hist: HistoryMap, sel: seq<TransitionRef>, i: nat,
                                        k: nat, t: int, ys: set<int>, y: int)
    requires Ready(c, active, hist, sel) && i < |sel| && k <= |Targets(c, sel[i])| && !Idle(c, sel[i])
    requires ys == Opened(c, hist, sel, i) + OpenedHere(c, hist, sel, i, k)
    requires Aimed(c, hist, sel, i, t, y) && y in DefaultsOf(c, ys)
    ensures y in ys
  {
    var z :| z in ys && DefaultBelow(c, y, z);
    if y != z {
      var j, u := OpenedFrom(c, hist, sel, i, k, z);
      DefaultBelowDesc(c, y, z);
      NotBelowOpened(c, active, hist, sel, i, t, y, j, u, z);
    }
  }

  lemma {:induction false} OpenedHereNext(c: Chart, hist: HistoryMap, sel: seq<TransitionRef>, i: nat, k: nat, y: int)
    requires i < |sel| && k < |Targets(c, sel[i])| && y in c.heap
    ensures y in OpenedHere(c, hist, sel, i, k + 1) <==>
            y in OpenedHere(c, hist, sel, i, k) || Opens(c, hist, sel, i, Targets(c, sel[i])[k], y)
  {
    var ts := Targets(c, sel[i]);
    TakeNext(ts, k);
    if y in OpenedHere(c, hist, sel, i, k + 1) {
      var u :| u in ts[..k + 1] && Opens(c, hist, sel, i, u, y);
    }
  }

  /** A transition that exits something opens what its next target lands on, unless it is preempted. */
  lemma {:induction false} OpensNext(c: WFChart, active: set<int>, hist: HistoryMap, sel: seq<TransitionRef>, i: nat,
                                     k: nat, entered: seq<int>, via: set<int>, ys: set<int>)
    requires Ready(c, active, hist, sel) && i < |sel| && k < |Targets(c, sel[i])| && !Idle(c, sel[i])
    requires Entering(c, entered, via, PathsTo(c, hist, sel, i, k), ys) && IdleEntered(c, sel, i, entered)
    requires ys == Opened(c, hist, sel, i) + OpenedHere(c, hist, sel, i, k)
    ensures ys + (Elems(Landing(c, hist, Targets(c, sel[i])[k])) - Elems(entered))
         == Opened(c, hist, sel, i) + OpenedHere(c, hist, sel, i, k + 1)
  {
    var landing := Landing(c, hist, Targets(c, sel[i])[k]);
    var here' := OpenedHere(c, hist, sel, i, k + 1);
    forall y ensures y in ys + (Elems(landing) - Elems(entered)) <==> y in Opened(c, hist, sel, i) + here' {
      OpenedAt(c, active, hist, sel, i, k, entered, via, ys, y);
    }
  }

  lemma {:induction false} OpenedAt(c: WFChart, active: set<int>, hist: HistoryMap, sel: seq<TransitionRef>, i: nat,
                                    k: nat, entered: seq<int>, via: set<int>, ys: set<int>, y: int)
    requires Ready(c, active, hist, sel) && i < |sel| && k < |Targets(c, sel[i])| && !Idle(c, sel[i])
    requires Entering(c, entered, via, PathsTo(c, hist, sel, i, k), ys) && IdleEntered(c, sel, i, entered)
    requires ys == Opened(c, hist, sel, i) + OpenedHere(c, hist, sel, i, k)
    ensures y in ys || (y in Landing(c, hist, Targets(c, sel[i])[k]) && y !in Elems(entered)) <==>
            y in Opened(c, hist, sel, i) || y in OpenedHere(c, hist, sel, i, k + 1)
  {
    if y in Landing(c, hist, Targets(c, sel[i])[k]) {
      EnteredBefore(c, active, hist, sel, i, k, entered, via, ys, y);
    }
    if y in c.heap { OpenedHereNext(c, hist, sel, i, k, y); }
  }

  /** An idle transition opens nothing: all it enters are its source and the states above it. */
  lemma {:induction false} IdleOpensNothing(c: WFChart, active: set<int>, hist: HistoryMap, sel: seq<TransitionRef>,
                                            i: nat, k: nat, entered: seq<int>, via: set<int>, ys: set<int>,
                                            ys': set<int>)
    requires Ready(c, active, hist, sel) && i < |sel| && k < |Targets(c, sel[i])| && Idle(c, sel[i])
    requires ys' == ys + (Elems(Landing(c, hist, Targets(c, sel[i])[k])) - Elems(entered))
    ensures OpenedHere(c, hist, sel, i, k + 1) == {} && Landing(c, hist, Targets(c, sel[i])[k]) == [sel[i].source]
    ensures DefaultsOf(c, ys') <= DefaultsOf(c, ys) + PathsTo(c, hist, sel, i, k + 1)
    ensures DefaultsOf(c, ys) <= DefaultsOf(c, ys') && StrictDefaultsOf(c, ys') == StrictDefaultsOf(c, ys)
  {
    var t, x := Targets(c, sel[i])[k], sel[i].source;
    assert t in Targets(c, sel[i]);
    IdleFacts(c, active, hist, sel, i);
    assert Aim(c, hist, t, Anchor(c, t)) && Aimed(c, hist, sel, i, t, Anchor(c, t));
    AimInDomain(c, active, hist, sel, i, t, Anchor(c, t));
    AimsPathed(c, active, hist, sel, i, k);
    OpenOne(c, ys, x);
    forall n | n in Defaults(c, x) ensures n == x {
      DefaultBelowDesc(c, n, x);
      ChildlessHasNothingBelow(c, n, x);
    }
    assert Desc(c, x, x) && OnPaths(c, PathsTo(c, hist, sel, i, k + 1), x);
    assert ys' == ys + {x} || ys' == ys;
  }

  lemma {:induction false} DomainCovered(c: WFChart, active: set<int>, hist: HistoryMap, sel: seq<TransitionRef>,
                                         i: int, entered: seq<int>)
    requires Ready(c, active, hist, sel) && 0 <= i < |sel| && Targets(c, sel[i]) != [] && !Idle(c, sel[i])
    ensures Covered(c, active - Exits(c, active, sel), entered, Domain(c, sel[i]))
  {
    DomainSurvives(c, active, hist, sel, i);
    SurvivorsClosed(c, active, hist, sel);
    forall a | Desc(c, Domain(c, sel[i]), a) ensures a in active - Exits(c, active, sel) {
      ClosedUp(c, active - Exits(c, active, sel), Domain(c, sel[i]), a);
    }
  }

  lemma {:induction false} AimsCoveredLater(c: Chart, hist: HistoryMap, r: set<int>, entered: seq<int>,
                                            entered': seq<int>, t: int)
    requires AimsCovered(c, hist, r, entered, t) && Elems(entered) <= Elems(entered')
    ensures AimsCovered(c, hist, r, entered', t)
  {
    forall x | Aim(c, hist, t, x) ensures Covered(c, r, entered', x) {
      CoveredLater(c, r, entered, entered', x);
    }
  }

  /** The aims of all of `ts` are covered. */
  ghost predicate AllCovered(c: Chart, hist: HistoryMap, r: set<int>, entered: seq<int>, ts: seq<int>) {
    forall t {:trigger AimsCovered(c, hist, r, entered, t)} :: t in ts ==> AimsCovered(c, hist, r, entered, t)
  }

  lemma {:induction false} AllCoveredLater(c: Chart, hist: HistoryMap, r: set<int>, entered: seq<int>,
                                           entered': seq<int>, ts: seq<int>)
    requires AllCovered(c, hist, r, entered, ts) && Elems(entered) <= Elems(entered')
    ensures AllCovered(c, hist, r, entered', ts)
  {
    forall t | t in ts ensures AimsCovered(c, hist, r, entered', t) {
      assert AimsCovered(c, hist, r, entered, t);
      AimsCoveredLater(c, hist, r, entered, entered', t);
    }
  }

  /** What is covered anyway: the survivors, but for the path of an idle transition nothing. */
  ghost function Spared(c: Chart, active: set<int>, sel: seq<TransitionRef>, i: int): set<int>
    requires 0 <= i < |sel|
  {
    if Idle(c, sel[i]) then {} else active - Exits(c, active, sel)
  }

  /** How far entering has come at the `k`-th target of the `i`-th transition. */
  ghost predicate Advanced(c: WFChart, active: set<int>, hist: HistoryMap, sel: seq<TransitionRef>, i: nat, k: nat,
                           entered: seq<int>, via: set<int>, ys: set<int>)
    requires i < |sel| && k <= |Targets(c, sel[i])|
  {
    && Entering(c, entered, via, PathsTo(c, hist, sel, i, k), ys) && IdleEntered(c, sel, i, entered)
    && ys == Opened(c, hist, sel, i) + OpenedHere(c, hist, sel, i, k)
    && AllCovered(c, hist, Spared(c, active, sel, i), entered, Targets(c, sel[i])[..k])
  }

  lemma {:induction false} IdleEnteredLater(c: Chart, sel: seq<TransitionRef>, i: nat, entered: seq<int>,
                                            entered': seq<int>)
    requires IdleEntered(c, sel, i, entered) && Elems(entered) <= Elems(entered')
    ensures IdleEntered(c, sel, i, entered')
  {
    forall k | 0 <= k < i && k < |sel| && Idle(c, sel[k]) ensures Covered(c, {}, entered', sel[k].source) {
      CoveredLater(c, {}, entered, entered', sel[k].source);
    }
  }

  /** One target of one transition. */
  method EnterTarget(c: WFChart, active: set<int>, hist: HistoryMap, sel: seq<TransitionRef>, i: nat, k: nat,
                     domain: int, entered: seq<int>, via: set<int>, ghost ys: set<int>)
    returns (entered': seq<int>, via': set<int>, ghost ys': set<int>)
    requires Ready(c, active, hist, sel) && i < |sel| && k < |Targets(c, sel[i])| && domain == Domain(c, sel[i])
    requires Advanced(c, active, hist, sel, i, k, entered, via, ys)
    ensures Advanced(c, active, hist, sel, i, k + 1, entered', via', ys') && Elems(entered) <= Elems(entered')
  {
    var t := Targets(c, sel[i])[k];
    ghost var r, paths := Spared(c, active, sel, i), PathsTo(c, hist, sel, i, k + 1);
    AimsPathed(c, active, hist, sel, i, k);
    PathsGrow(c, hist, sel, i, k);
    PathsGrowEntering(c, entered, via, PathsTo(c, hist, sel, i, k), paths, ys);
    DomainSpared(c, active, hist, sel, i, k, entered);
    entered', via', ys' := ComputeEntrySet(c, domain, t, entered, hist, via, paths, ys, r);
    ys' := Opening(c, active, hist, sel, i, k, entered, via, ys, entered', via', ys');
    IdleEnteredLater(c, sel, i, entered, entered');
    AllCoveredLater(c, hist, r, entered, entered', Targets(c, sel[i])[..k]);
    TakeNext(Targets(c, sel[i]), k);
  }

  lemma {:induction false} DomainSpared(c: WFChart, active: set<int>, hist: HistoryMap, sel: seq<TransitionRef>, i: nat,
                                        k: nat, entered: seq<int>)
    requires Ready(c, active, hist, sel) && i < |sel| && k < |Targets(c, sel[i])|
    ensures Covered(c, Spared(c, active, sel, i), entered, Domain(c, sel[i]))
            || (Domain(c, sel[i]) == Targets(c, sel[i])[k] && Kind(c, Targets(c, sel[i])[k]) != History)
  {
    if Idle(c, sel[i]) {
      var t := Targets(c, sel[i])[k];
      assert t in Targets(c, sel[i]);
      IdleFacts(c, active, hist, sel, i);
      assert Aimed(c, hist, sel, i, t, Anchor(c, t));
      AimInDomain(c, active, hist, sel, i, t, Anchor(c, t));
    } else {
      DomainCovered(c, active, hist, sel, i, entered);
    }
  }

  /** What one target's turn has opened. */
  lemma {:induction false} Opening(c: WFChart, active: set<int>, hist: HistoryMap, sel: seq<TransitionRef>, i: nat,
                                   k: nat, entered: seq<int>, via: set<int>, ys: set<int>, entered': seq<int>,
                                   via': set<int>, found: set<int>)
    returns (ys': set<int>)
    requires Ready(c, active, hist, sel) && i < |sel| && k < |Targets(c, sel[i])|
    requires Entering(c, entered, via, PathsTo(c, hist, sel, i, k), ys) && IdleEntered(c, sel, i, entered)
    requires ys == Opened(c, hist, sel, i) + OpenedHere(c, hist, sel, i, k)
    requires found == ys + (Elems(Landing(c, hist, Targets(c, sel[i])[k])) - Elems(entered))
    requires Entering(c, entered', via', PathsTo(c, hist, sel, i, k + 1), found)
    ensures Entering(c, entered', via', PathsTo(c, hist, sel, i, k + 1), ys')
    ensures ys' == Opened(c, hist, sel, i) + OpenedHere(c, hist, sel, i, k + 1)
  {
    if Idle(c, sel[i]) {
      IdleOpensNothing(c, active, hist, sel, i, k, entered, via, ys, found);
      assert OpenedHere(c, hist, sel, i, k) == {};
      ys' := ys;
    } else {
      OpensNext(c, active, hist, sel, i, k, entered, via, ys);
      ys' := found;
    }
  }

  /** The aims of the first `i` transitions are covered. */
  ghost predicate FirstCovered(c: Chart, hist: HistoryMap, r: set<int>, entered: seq<int>, sel: seq<TransitionRef>,
                               i: nat) {
    forall j {:trigger Targets(c, sel[j])} ::
        0 <= j < i && j < |sel| ==> AllCovered(c, hist, r, entered, Targets(c, sel[j]))
  }

  lemma {:induction false} FirstCoveredNext(c: Chart, hist: HistoryMap, r: set<int>, entered: seq<int>,
                                            entered': seq<int>, sel: seq<TransitionRef>, i: nat)
    requires i < |sel| && FirstCovered(c, hist, r, entered, sel, i) && Elems(entered) <= Elems(entered')
    requires AllCovered(c, hist, r, entered', Targets(c, sel[i]))
    ensures FirstCovered(c, hist, r, entered', sel, i + 1)
  {
    forall j | 0 <= j < i ensures AllCovered(c, hist, r, entered', Targets(c, sel[j])) {
      AllCoveredLater(c, hist, r, entered, entered', Targets(c, sel[j]));
    }
  }

  /** How far entering has come after the first `i` transitions. */
  ghost predicate EnteredFirst(c: WFChart, active: set<int>, hist: HistoryMap, sel: seq<TransitionRef>, i: nat,
                               entered: seq<int>, via: set<int>) {
    && Entering(c, entered, via, PathsTo(c, hist, sel, i, 0), Opened(c, hist, sel, i))
    && IdleEntered(c, sel, i, entered)
    && FirstCovered(c, hist, active - Exits(c, active, sel), entered, sel, i)
  }

  method EnterTargets(c: WFChart, active: set<int>, hist: HistoryMap, sel: seq<TransitionRef>, i: nat,
                      entered: seq<int>, via: set<int>)
    returns (entered': seq<int>, via': set<int>)
    requires Ready(c, active, hist, sel) && i < |sel| && EnteredFirst(c, active, hist, sel, i, entered, via)
    ensures EnteredFirst(c, active, hist, sel, i + 1, entered', via')
  {
    entered', via' := entered, via;
    var targets := Targets(c, sel[i]);
    ghost var ys := Opened(c, hist, sel, i);
    if targets != [] {
      SelectedFacts(c, active, hist, sel, i);
      var domain := TransitionDomain(c, sel[i]);
      assert OpenedHere(c, hist, sel, i, 0) == {};
      for k := 0 to |targets|
        invariant Advanced(c, active, hist, sel, i, k, entered', via', ys) && Elems(entered) <= Elems(entered')
      {
        entered', via', ys := EnterTarget(c, active, hist, sel, i, k, domain, entered', via', ys);
      }
    }
    TransitionDone(c, active, hist, sel, i, entered, entered', via', ys);
  }

  lemma {:induction false} TransitionDone(c: WFChart, active: set<int>, hist: HistoryMap, sel: seq<TransitionRef>,
                                          i: nat, before: seq<int>, entered: seq<int>, via: set<int>, ys: set<int>)
    requires Ready(c, active, hist, sel) && i < |sel| && Elems(before) <= Elems(entered)
    requires FirstCovered(c, hist, active - Exits(c, active, sel), before, sel, i)
    requires Advanced(c, active, hist, sel, i, |Targets(c, sel[i])|, entered, via, ys)
    ensures EnteredFirst(c, active, hist, sel, i + 1, entered, via)
  {
    var ts, r := Targets(c, sel[i]), active - Exits(c, active, sel);
    assert ts[..|ts|] == ts;
    PathsGrow(c, hist, sel, i, |ts|);
    PathsGrowEntering(c, entered, via, PathsTo(c, hist, sel, i, |ts|), PathsTo(c, hist, sel, i + 1, 0), ys);
    OpenedNext(c, hist, sel, i);
    SparedCovers(c, hist, Spared(c, active, sel, i), r, entered, ts);
    FirstCoveredNext(c, hist, r, before, entered, sel, i);
    if Idle(c, sel[i]) {
      IdleFacts(c, active, hist, sel, i);
      assert AimsCovered(c, hist, {}, entered, sel[i].source);
      assert Aim(c, hist, sel[i].source, sel[i].source);
    }
  }

  lemma {:induction false} SparedCovers(c: Chart, hist: HistoryMap, spared: set<int>, r: set<int>, entered: seq<int>,
                                        ts: seq<int>)
    requires spared <= r && AllCovered(c, hist, spared, entered, ts)
    ensures AllCovered(c, hist, r, entered, ts)
  {
    forall t, x | t in ts && Aim(c, hist, t, x) ensures Covered(c, r, entered, x) {
      assert AimsCovered(c, hist, spared, entered, t);
    }
  }

  method EnterSelected(c: WFChart, active: set<int>, hist: HistoryMap, sel: seq<TransitionRef>)
    returns (entered: seq<int>, via: set<int>)
    requires Ready(c, active, hist, sel)
    ensures (active - Exits(c, active, sel)) + Elems(entered) == Start(c, active, hist, sel)
    ensures via == TakenOf(c, StrictDefaultsOf(c, Opened(c, hist, sel, |sel|)))
  {
    entered, via := [], {};
    for i := 0 to |sel|
      invariant EnteredFirst(c, active, hist, sel, i, entered, via)
    {
      entered, via := EnterTargets(c, active, hist, sel, i, entered, via);
    }
    StartReached(c, active, hist, sel, entered, via);
  }

  lemma {:induction false} StartReached(c: WFChart, active: set<int>, hist: HistoryMap, sel: seq<TransitionRef>,
                                        entered: seq<int>, via: set<int>)
    requires Ready(c, active, hist, sel) && EnteredFirst(c, active, hist, sel, |sel|, entered, via)
    ensures (active - Exits(c, active, sel)) + Elems(entered) == Start(c, active, hist, sel)
  {
    var r := active - Exits(c, active, sel);
    assert PathsTo(c, hist, sel, |sel|, 0) <= Paths(c, hist, sel);
    forall n | n in Paths(c, hist, sel) ensures n in r || n in Elems(entered) {
      var i, t, x :| Aimed(c, hist, sel, i, t, x) && Desc(c, x, n);
      assert AllCovered(c, hist, r, entered, Targets(c, sel[i]));
      assert AimsCovered(c, hist, r, entered, t);
      assert Covered(c, r, entered, x);
    }
  }

  /** Which entered nodes count as entered through their parent's initial transition: exactly those not given. */
  ghost predicate ViaExact(c: Chart, given: set<int>, next: set<int>, via: set<int>) {
    forall n :: n in next && Parent(c, n) != NULL && Initial(c, Parent(c, n)) == n ==> (n in via <==> n !in given)
  }

  /** The insertions of the entered nodes: `toEnter` gets each new one once. */
  method InsertEntered(survivors: set<int>, entered: seq<int>) returns (nextActive: set<int>, toEnter: seq<int>)
    ensures nextActive == survivors + Elems(entered)
    ensures NoDup(toEnter) && Elems(toEnter) == nextActive - survivors
  {
    nextActive, toEnter := survivors, [];
    for i := 0 to |entered|
      invariant nextActive == survivors + Elems(entered[..i])
      invariant NoDup(toEnter) && Elems(toEnter) == nextActive - survivors
    {
      var n := entered[i];
      TakeNext(entered, i);
      ElemsConcat(entered[..i], [n]);
      if n !in nextActive {
        assert n !in Elems(toEnter);
        ElemsConcat(toEnter, [n]);
        nextActive, toEnter := nextActive + {n}, toEnter + [n];
      }
    }
    assert entered[..|entered|] == entered;
  }

  /** The part of a microstep that finds the next configuration. */
  method NextConfiguration(c: WFChart, active: set<int>, exitSet: set<int>, hist: HistoryMap, sel: seq<TransitionRef>)
    returns (nextActive: set<int>, toEnter: seq<int>, viaInitial: set<int>)
    requires Ready(c, active, hist, sel) && exitSet == Exits(c, active, sel)
    ensures Fills(c, Start(c, active, hist, sel), nextActive)
    ensures NoDup(toEnter) && Elems(toEnter) == nextActive - (active - exitSet)
    ensures ViaExact(c, Given(c, active, hist, sel), nextActive, viaInitial)
    ensures forall n :: n in toEnter ==> n in nextActive && 0 <= n < Size(c)
  {
    var entered;
    entered, viaInitial := EnterSelected(c, active, hist, sel);
    nextActive, toEnter := InsertEntered(active - exitSet, entered);
    ghost var u := nextActive;
    StartClosed(c, active, hist, sel);
    nextActive, toEnter, viaInitial := CompleteConfiguration(c, nextActive, toEnter, viaInitial);
    GivenExact(c, active, hist, sel, nextActive, viaInitial);
    SetSteps(active - exitSet, u, nextActive);
    forall n | n in toEnter ensures n in nextActive { assert n in Elems(toEnter); }
  }

  lemma SetSteps(r: set<int>, u: set<int>, n: set<int>)
    requires r <= u <= n
    ensures (u - r) + (n - u) == n - r
  {}

  lemma {:induction false} GivenExact(c: WFChart, active: set<int>, hist: HistoryMap, sel: seq<TransitionRef>,
                                      next: set<int>, via: set<int>)
    requires Ready(c, active, hist, sel) && forall n :: n in next ==> 0 <= n < Size(c)
    requires via == TakenOf(c, StrictDefaultsOf(c, Opened(c, hist, sel, |sel|)))
                  + TakenOf(c, next - Start(c, active, hist, sel))
    ensures ViaExact(c, Given(c, active, hist, sel), next, via)
  {
    var ys := Opened(c, hist, sel, |sel|);
    forall n | n in DefaultsOf(c, ys) && n !in Base(c, active, hist, sel) ensures n in StrictDefaultsOf(c, ys) {
      var j, t, y := OpenedBy(c, active, hist, sel, n);
      OpensFacts(c, active, hist, sel, j, t, y);
    }
  }

  // ---- the microstep as a whole ----

  /** All tags of `nodes`, each once, in order of first appearance. */
  function AddTags(tags: seq<string>, more: seq<string>): seq<string>
    decreases more
  {
    if more == [] then tags
    else AddTags(if more[0] in tags then tags else tags + [more[0]], more[1..])
  }

  function TagsOf(c: Chart, nodes: seq<int>): seq<string> {
    if nodes == [] then []
    else AddTags(TagsOf(c, nodes[..|nodes| - 1]), At(c, nodes[|nodes| - 1]).tags)
  }

  /** All tags of `nodes`, repetitions included. */
  function AllTags(c: Chart, nodes: seq<int>): seq<string> {
    if nodes == [] then [] else AllTags(c, nodes[..|nodes| - 1]) + At(c, nodes[|nodes| - 1]).tags
  }

  /** Each member of a list once, where it first appears. */
  function Firsts(s: seq<string>): seq<string> {
    if s == [] then []
    else
      var n := |s| - 1;
      Firsts(s[..n]) + if s[n] in s[..n] then [] else [s[n]]
  }

  lemma {:induction false} FirstsElems(s: seq<string>)
    ensures forall t :: t in Firsts(s) <==> t in s
  {
    if s != [] {
      FirstsElems(s[..|s| - 1]);
      assert s == s[..|s| - 1] + [s[|s| - 1]];
    }
  }

  lemma {:induction false} FirstsNext(s: seq<string>, t: string)
    ensures Firsts(s + [t]) == if t in Firsts(s) then Firsts(s) else Firsts(s) + [t]
  {
    FirstsElems(s);
    assert (s + [t])[..|s|] == s;
  }

  lemma {:induction false} FirstsAdd(s: seq<string>, more: seq<string>)
    ensures AddTags(Firsts(s), more) == Firsts(s + more)
    decreases |more|
  {
    if more == [] {
      assert s + more == s;
    } else {
      FirstsNext(s, more[0]);
      FirstsAdd(s + [more[0]], more[1..]);
      assert s + [more[0]] + more[1..] == s + more;
    }
  }

  /** A snapshot's tags are those of its states, in document order, each where it first appears. */
  lemma {:induction false} TagsExact(c: Chart, nodes: seq<int>)
    ensures TagsOf(c, nodes) == Firsts(AllTags(c, nodes))
  {
    if nodes != [] {
      var n := |nodes| - 1;
      TagsExact(c, nodes[..n]);
      FirstsAdd(AllTags(c, nodes[..n]), At(c, nodes[n]).tags);
    }
  }

  method FinalizeSnapshot(c: Chart, configuration: seq<int>) returns (value: StateValue, tags: seq<string>)
    ensures value == ValueOf(c, 0, Elems(configuration)) && tags == TagsOf(c, configuration)
  {
    value := ValueOf(c, 0, Elems(configuration));
    tags := [];
    for i := 0 to |configuration|
      invariant tags == TagsOf(c, configuration[..i])
    {
      var own := At(c, configuration[i]).tags;
      assert configuration[..i + 1][..i] == configuration[..i];
      ghost var before := tags;
      for j := 0 to |own|
        invariant AddTags(tags, own[j..]) == AddTags(before, own)
      {
        if own[j] !in tags { tags := tags + [own[j]]; }
      }
    }
    assert configuration[..|configuration|] == configuration;
  }

  /** `std::sort` by document order of a list without repetitions. */
  function SortAscending(c: Chart, nodes: seq<int>): seq<int>
    requires NoDup(nodes) && forall n :: n in nodes ==> 0 <= n < Size(c)
  {
    Ordered(Size(c), Elems(nodes))
  }

  /** Exits, deepest first. */
  function ExitOrder(c: Chart, exits: set<int>): seq<int> {
    Reverse(Ordered(Size(c), exits))
  }

  /** Exit actions, then the cancelling of what the exited nodes started, then transition actions. */
  function LeaveActions(c: Chart, exited: seq<int>, sel: seq<TransitionRef>, mc: MicroCtx, event: Event): MicroCtx {
    var m := RunBlocks(c, ExitBlocks(exited), mc, event);
    RunBlocks(c, TransitionBlocks(sel), m.(effects := m.effects + Cancels(c, exited) + Stops(c, exited)), event)
  }

  /** Invoked children first, then entry actions, then `after` timers. */
  function EnterActions(c: Chart, toEnter: seq<int>, via: set<int>, mc: MicroCtx, event: Event): MicroCtx {
    var m := RunBlocks(c, EntryBlocks(c, toEnter, via), mc.(effects := mc.effects + Spawns(c, toEnter)), event);
    m.(effects := m.effects + Starts(c, toEnter, m.draft, event))
  }

  /** The nodes a step to `next` enters. */
  ghost function EnteredBy(c: Chart, active: set<int>, sel: seq<TransitionRef>, next: set<int>): set<int> {
    next - (active - Exits(c, active, sel))
  }

  /** What surrounds a step: its effects so far and the internal queue. */
  datatype Surroundings = Surroundings(effects: seq<Effect>, queue: seq<Event>)

  /** `next` is what taking `sel` from `cur` on `event` leads to, whether its configuration is legal or not. */
  ghost predicate IsMicrostep(c: Chart, sel: seq<TransitionRef>, cur: Snapshot, event: Event, env: Surroundings,
                              next: Snapshot, env': Surroundings, progress: bool) {
    var active, active' := Elems(cur.configuration), Elems(next.configuration);
    var exits, entered := Exits(c, active, sel), EnteredBy(c, active, sel, active');
    var given := Given(c, active, next.historyValue, sel);
    var left := LeaveActions(c, ExitOrder(c, exits), sel, MicroCtx(cur.context, env.effects, env.queue, 0, false),
                             event);
    var mc := EnterActions(c, Ordered(Size(c), entered), entered - given, left, event);
    var done := F.Completed(c, Ordered(Size(c), entered), active', mc.draft, event);
    && Updated(c, active, HistoryChildren(c, exits), cur.historyValue, next.historyValue)
    && Fills(c, Start(c, active, next.historyValue, sel), active') && next.configuration == Ordered(Size(c), active')
    && next.context == mc.draft && env'.effects == mc.effects
    && next.status == done.status && next.output == done.output && next.error == None
    && env'.queue == mc.queue + done.raised
    && next.value == ValueOf(c, 0, active') && next.tags == TagsOf(c, next.configuration)
    && (progress <==> exits != {} || entered != {} || mc.didAssign)
  }

  /** What a snapshot must satisfy for `sel` to be taken from it. */
  ghost predicate Takes(c: WFChart, cur: Snapshot, sel: seq<TransitionRef>) {
    && Orthogonal(c)
    && Legal(c, Elems(cur.configuration)) && cur.configuration == Ordered(Size(c), Elems(cur.configuration))
    && HistoryValid(c, cur.historyValue)
    && Compatible(c, Elems(cur.configuration), sel)
  }

  lemma {:induction false} ExitsNext(c: Chart, active: set<int>, sel: seq<TransitionRef>, i: nat)
    requires i < |sel|
    ensures Exits(c, active, sel[..i + 1]) == Exits(c, active, sel[..i]) + ExitSet(c, active, sel[i])
  {
    var before, upto := sel[..i], sel[..i + 1];
    forall n | n in ExitSet(c, active, sel[i]) ensures n in Exits(c, active, upto) {
      assert n in ExitSet(c, active, upto[i]);
    }
    forall n | n in Exits(c, active, before) ensures n in Exits(c, active, upto) {
      var j :| 0 <= j < |before| && n in ExitSet(c, active, before[j]);
      assert n in ExitSet(c, active, upto[j]);
    }
    forall n | n in Exits(c, active, upto) ensures n in Exits(c, active, before) + ExitSet(c, active, sel[i]) {
      var j :| 0 <= j < |upto| && n in ExitSet(c, active, upto[j]);
      if j < i { assert n in ExitSet(c, active, before[j]); }
    }
  }

  method ExitUnion(c: WFChart, active: set<int>, sel: seq<TransitionRef>) returns (exitSet: set<int>)
    requires Orthogonal(c) && Legal(c, active) && forall i :: 0 <= i < |sel| ==> sel[i].source in active
    ensures exitSet == Exits(c, active, sel)
  {
    exitSet := {};
    for i := 0 to |sel|
      invariant exitSet == Exits(c, active, sel[..i])
    {
      assert sel[i].source in active && TargetsApart(c, Targets(c, sel[i]));
      var out := ComputeExitSet(c, active, sel[i]);
      ExitsNext(c, active, sel, i);
      exitSet := exitSet + out;
    }
    assert sel[..|sel|] == sel;
  }

  method Leave(c: Chart, exited: seq<int>, sel: seq<TransitionRef>, mc: MicroCtx, event: Event) returns (mc': MicroCtx)
    ensures mc' == LeaveActions(c, exited, sel, mc, event)
  {
    mc' := mc;
    for i := 0 to |exited|
      invariant RunBlocks(c, ExitBlocks(exited[i..]), mc', event) == RunBlocks(c, ExitBlocks(exited), mc, event)
    {
      var rest := exited[i..];
      assert ExitBlocks(rest)[1..] == ExitBlocks(exited[i + 1..]);
      mc' := ExecuteActions(At(c, exited[i]).exit, mc', event);
    }
    var effects := EmitDelayEffects(c, exited, [], mc'.draft, event, mc'.effects);
    assert effects == mc'.effects + Cancels(c, exited);
    effects := EmitInvokeEffects(c, exited, [], effects);
    assert effects == mc'.effects + Cancels(c, exited) + Stops(c, exited);
    mc' := RunTransitions(c, sel, mc'.(effects := effects), event);
  }

  method Enter(c: Chart, toEnter: seq<int>, via: set<int>, mc: MicroCtx, event: Event) returns (mc': MicroCtx)
    ensures mc' == EnterActions(c, toEnter, via, mc, event)
  {
    var effects := EmitInvokeEffects(c, [], toEnter, mc.effects);
    assert mc.effects + Stops(c, []) == mc.effects;
    mc' := ExecuteEntryActions(c, toEnter, via, mc.(effects := effects), event);
    effects := EmitDelayEffects(c, [], toEnter, mc'.draft, event, mc'.effects);
    assert mc'.effects + Cancels(c, []) == mc'.effects;
    mc' := mc'.(effects := effects);
  }

  method RunTransitions(c: Chart, sel: seq<TransitionRef>, mc: MicroCtx, event: Event) returns (mc': MicroCtx)
    ensures mc' == RunBlocks(c, TransitionBlocks(sel), mc, event)
  {
    mc' := mc;
    for i := 0 to |sel|
      invariant RunBlocks(c, TransitionBlocks(sel[i..]), mc', event) == RunBlocks(c, TransitionBlocks(sel), mc, event)
    {
      var rest := sel[i..];
      assert TransitionBlocks(rest)[1..] == TransitionBlocks(sel[i + 1..]);
      mc' := ExecuteActions(Def(c, sel[i]).actions, mc', event);
    }
  }

  lemma {:induction false} SameEntryBlocks(c: Chart, nodes: seq<int>, via: set<int>, via': set<int>)
    requires forall n :: n in nodes && Parent(c, n) != NULL && Initial(c, Parent(c, n)) == n ==>
        (n in via <==> n in via')
    ensures EntryBlocks(c, nodes, via) == EntryBlocks(c, nodes, via')
  {
    if nodes != [] {
      assert nodes[0] in nodes;
      SameEntryBlocks(c, nodes[1..], via, via');
    }
  }

  method Microstep(c: WFChart, sel: seq<TransitionRef>, cur: Snapshot, event: Event, env: Surroundings)
    returns (next: Snapshot, env': Surroundings, progress: bool)
    requires Takes(c, cur, sel)
    ensures IsMicrostep(c, sel, cur, event, env, next, env', progress)
  {
    var active := Elems(cur.configuration);
    var exitSet := ExitUnion(c, active, sel);
    var exitOrdered := ExitOrder(c, exitSet);
    var newHistory := RecordStep(c, active, exitSet, exitOrdered, sel, cur.historyValue);
    var mc := Leave(c, exitOrdered, sel, MicroCtx(cur.context, env.effects, env.queue, 0, false), event);
    var nextActive, toEnter, viaInitial := NextConfiguration(c, active, exitSet, newHistory, sel);
    toEnter := SortAscending(c, toEnter);
    SameEntryBlocks(c, toEnter, viaInitial, Elems(toEnter) - Given(c, active, newHistory, sel));
    mc := Enter(c, toEnter, viaInitial, mc, event);
    var configuration := Ordered(Size(c), nextActive);
    var status, output, queue := F.ProcessFinals(c, toEnter, nextActive, mc.draft, event, mc.queue);
    var value, tags := FinalizeSnapshot(c, configuration);
    next := Snapshot(status, output, None, value, mc.draft, tags, configuration, newHistory);
    env' := Surroundings(mc.effects, queue);
    progress := exitSet != {} || toEnter != [] || mc.didAssign;
    Assembled(c, nextActive, toEnter, EnteredBy(c, active, sel, nextActive));
  }

  /** What the history is once a step has left what `sel` exits; this is known before anything is entered. */
  ghost predicate Records(c: Chart, sel: seq<TransitionRef>, cur: Snapshot, hist: HistoryMap) {
    var active := Elems(cur.configuration);
    Updated(c, active, HistoryChildren(c, Exits(c, active, sel)), cur.historyValue, hist)
  }

  /**
   A step ends in a legal configuration exactly if every idle state another
   transition exits fits what that transition aims for; a condition on the
   selection and on what history records on leaving, not on how the step goes.
   */
  lemma {:induction false} LegalExactly(c: WFChart, sel: seq<TransitionRef>, cur: Snapshot, hist: HistoryMap,
                                        event: Event, env: Surroundings, next: Snapshot, env': Surroundings,
                                        progress: bool)
    requires Takes(c, cur, sel) && Records(c, sel, cur, hist)
    requires IsMicrostep(c, sel, cur, event, env, next, env', progress)
    ensures Legal(c, Elems(next.configuration)) <==> LoopsFit(c, Elems(cur.configuration), hist, sel)
    ensures next.historyValue == hist && HistoryValid(c, hist)
  {
    var active := Elems(cur.configuration);
    UpdatedUnique(c, active, HistoryChildren(c, Exits(c, active, sel)), cur.historyValue, hist, next.historyValue);
    RecordingKeepsValid(c, active, Exits(c, active, sel), cur.historyValue, hist);
    StartPartialExactly(c, active, hist, sel);
    FillsLegal(c, Start(c, active, hist, sel), Elems(next.configuration));
  }

  /** If no transition exits the domain of another, the step completes the base, which is all that is given. */
  lemma {:induction false} ConsistentStep(c: WFChart, sel: seq<TransitionRef>, cur: Snapshot, event: Event,
                                          env: Surroundings, next: Snapshot, env': Surroundings, progress: bool)
    requires Takes(c, cur, sel) && Consistent(c, Elems(cur.configuration), sel)
    requires IsMicrostep(c, sel, cur, event, env, next, env', progress)
    ensures var active, hist := Elems(cur.configuration), next.historyValue;
            && Ready(c, active, hist, sel) && Completes(c, Base(c, active, hist, sel), Elems(next.configuration))
            && Given(c, active, hist, sel) == Base(c, active, hist, sel)
  {
    var active, hist, active' := Elems(cur.configuration), next.historyValue, Elems(next.configuration);
    RecordingKeepsValid(c, active, Exits(c, active, sel), cur.historyValue, hist);
    BasePartial(c, active, hist, sel);
    FillsLegal(c, Start(c, active, hist, sel), active');
    forall n | n in active' && n !in Base(c, active, hist, sel) ensures ByDefault(c, n) {
      if n in Start(c, active, hist, sel) {
        var j, t, y := OpenedBy(c, active, hist, sel, n);
        ParentDefault(c, n, y);
      }
    }
  }

  method RecordStep(c: WFChart, active: set<int>, exitSet: set<int>, exitOrdered: seq<int>,
                    ghost sel: seq<TransitionRef>, hist: HistoryMap)
    returns (hist': HistoryMap)
    requires Legal(c, active) && exitSet <= active && exitOrdered == ExitOrder(c, exitSet) && HistoryValid(c, hist)
    ensures Updated(c, active, HistoryChildren(c, exitSet), hist, hist') && HistoryValid(c, hist')
  {
    ReverseElems(Ordered(Size(c), exitSet));
    assert forall n :: n in exitOrdered <==> n in Elems(exitOrdered);
    assert Elems(exitOrdered) == exitSet;
    hist' := RecordHistory(c, active, exitOrdered, hist);
    RecordingKeepsValid(c, active, exitSet, hist, hist');
  }

  lemma {:induction false} Assembled(c: Chart, next: set<int>, toEnter: seq<int>, entered: set<int>)
    requires Closed(c, next) && entered <= next && toEnter == Ordered(Size(c), entered)
    ensures Elems(Ordered(Size(c), next)) == next && Elems(toEnter) == entered
    ensures toEnter == [] <==> entered == {}
  {
    assert forall n :: n in next ==> n in Ordered(Size(c), next);
    assert forall n :: n in entered ==> n in toEnter;
    assert toEnter != [] ==> toEnter[0] in toEnter;
  }
}
