/**
 A chart in which the conflict filter lets through a step that ends in an
 illegal configuration: a state below a parallel one has a plain transition to
 itself, and a transition of another region leaves the parallel state.
 */
module LoopExamples {
  import opened Basics
  import opened StateNodes
  import opened Configurations
  import opened Transitions
  import opened Targeting
  import opened Stepping
  import opened StepStarts
  import opened Microsteps
  import opened Selection
  import opened Conflicts
  import F = Finals

  function Node(id: string, kind: StateType, parent: int, children: seq<int>, initial: int,
                transitions: seq<TransitionDef>): StateNode {
    StateNode(id, id, kind, Shallow, parent, children, initial, NULL, [], [], [], transitions, [], [], [], None)
  }

  function On(name: string, target: int): TransitionDef {
    TransitionDef(name, [target], None, [], false, false)
  }

  const NAME := "E"

  /** The root starts in `p`, whose regions hold `x` and `y`; `d` is beside `p`. */
  const EXAMPLE := Arena(
    [Node("root", Compound, NULL, [1, 6], 1, []),
     Node("p", Parallel, 0, [2, 4], NULL, []),
     Node("a", Compound, 1, [3], 3, []),
     Node("x", Atomic, 2, [], NULL, [On(NAME, 3)]),
     Node("b", Compound, 1, [5], 5, []),
     Node("y", Atomic, 4, [], NULL, [On(NAME, 6)]),
     Node("d", Atomic, 0, [], NULL, [])],
    [0, 1, 2, 3, 4, 5, 6])

  const LOOP := TransitionRef(3, 0)
  const EXIT := TransitionRef(5, 0)

  // ---- it is a chart the interpreter is meant for ----

  function ParentIn(n: int): int {
    if n == 1 || n == 6 then 0 else if n == 2 || n == 4 then 1 else if n == 3 then 2 else if n == 5 then 4 else NULL
  }

  function ChildrenIn(n: int): seq<int> {
    if n == 0 then [1, 6] else if n == 1 then [2, 4] else if n == 2 then [3] else if n == 4 then [5] else []
  }

  function KindIn(n: int): StateType {
    if n == 0 || n == 2 || n == 4 then Compound else if n == 1 then Parallel else Atomic
  }

  function InitialIn(n: int): int {
    if n == 0 then 1 else if n == 2 then 3 else if n == 4 then 5 else NULL
  }

  /** What is used of the example, without its text. */
  ghost predicate Shaped(c: Arena) {
    && Size(c) == 7 && c.heap == [0, 1, 2, 3, 4, 5, 6]
    && (forall n {:trigger At(c, n)} :: At(c, n).parent == ParentIn(n) && At(c, n).children == ChildrenIn(n)
          && At(c, n).kind == KindIn(n) && At(c, n).initial == InitialIn(n) && At(c, n).historyDefault == NULL)
    && (forall n {:trigger At(c, n)} ::
              At(c, n).transitions == if n == 3 then [On(NAME, 3)] else if n == 5 then [On(NAME, 6)] else [])
    && (forall m, n :: 0 <= m < n < 7 ==> Id(c, m) != Id(c, n))
  }

  lemma NodeShaped(n: int)
    ensures At(EXAMPLE, n).parent == ParentIn(n) && At(EXAMPLE, n).children == ChildrenIn(n)
    ensures At(EXAMPLE, n).kind == KindIn(n) && At(EXAMPLE, n).initial == InitialIn(n)
    ensures At(EXAMPLE, n).historyDefault == NULL
    ensures At(EXAMPLE, n).transitions == if n == 3 then [On(NAME, 3)] else if n == 5 then [On(NAME, 6)] else []
  {
    if 0 <= n < 7 { assert n in {0, 1, 2, 3, 4, 5, 6}; }
  }

  lemma DistinctIds(m: int, n: int)
    requires 0 <= m < n < 7
    ensures Id(EXAMPLE, m) != Id(EXAMPLE, n)
  {
    assert m in {0, 1, 2, 3, 4, 5} && n in {1, 2, 3, 4, 5, 6};
    assert |Id(EXAMPLE, 0)| == 4;
  }

  lemma ExampleShaped()
    ensures Shaped(EXAMPLE)
  {
    forall n
      ensures At(EXAMPLE, n).parent == ParentIn(n) && At(EXAMPLE, n).children == ChildrenIn(n)
      ensures At(EXAMPLE, n).kind == KindIn(n) && At(EXAMPLE, n).initial == InitialIn(n)
      ensures At(EXAMPLE, n).historyDefault == NULL
      ensures At(EXAMPLE, n).transitions == if n == 3 then [On(NAME, 3)] else if n == 5 then [On(NAME, 6)] else []
    {
      NodeShaped(n);
    }
    forall m, n | 0 <= m < n < 7 ensures Id(EXAMPLE, m) != Id(EXAMPLE, n) { DistinctIds(m, n); }
  }

  lemma Ancestry(c: Arena)
    requires Shaped(c)
    ensures Desc(c, 1, 0) && Desc(c, 6, 0) && Desc(c, 2, 1) && Desc(c, 4, 1)
    ensures Desc(c, 3, 2) && Desc(c, 3, 1) && Desc(c, 3, 0)
    ensures Desc(c, 5, 4) && Desc(c, 5, 1) && Desc(c, 5, 0)
  {
    assert Desc(c, 1, 0) && Desc(c, 2, 1) && Desc(c, 4, 1);
    assert Desc(c, 2, 0) && Desc(c, 4, 0);
  }

  lemma PreOrder(c: Arena, m: int, n: int)
    requires Shaped(c) && 0 < n == m + 1 < 7
    ensures Desc(c, m, Parent(c, n))
  {
    Ancestry(c);
    assert n in {1, 2, 3, 4, 5, 6};
  }

  lemma LinksThere(c: Arena)
    requires Shaped(c)
    ensures forall n :: 0 < n < Size(c) ==> 0 <= Parent(c, n) < n
    ensures forall m, n {:trigger Desc(c, m, Parent(c, n))} :: 0 < n == m + 1 < Size(c) ==> Desc(c, m, Parent(c, n))
    ensures forall p, n {:trigger n in Children(c, p)} :: n in Children(c, p) <==> 0 < n < Size(c) && Parent(c, n) == p
    ensures forall p {:trigger Ascending(Children(c, p))} :: Ascending(Children(c, p))
  {
    forall m, n | 0 < n == m + 1 < Size(c) ensures Desc(c, m, Parent(c, n)) { PreOrder(c, m, n); }
  }

  lemma KindsThere(c: Arena)
    requires Shaped(c)
    ensures forall n {:trigger Children(c, n)} :: Kind(c, n) in {Atomic, StateType.Final} ==> Children(c, n) == []
    ensures forall n {:trigger Initial(c, n)} ::
        Initial(c, n) != NULL <==> Kind(c, n) == Compound && Children(c, n) != []
    ensures forall n {:trigger Initial(c, n)} :: Initial(c, n) != NULL ==> Initial(c, n) in Children(c, n)
    ensures forall n {:trigger Default(c, n)} :: Default(c, n) != NULL ==> Kind(c, n) == History
  {}

  lemma HeapThere(c: Arena)
    requires Shaped(c)
    ensures forall n :: n in c.heap <==> 0 <= n < Size(c)
    ensures NoDup(c.heap)
  {
    assert forall n :: 0 <= n < 7 ==> c.heap[n] == n;
  }

  lemma ShapedIsTree(c: Arena)
    requires Shaped(c)
    ensures Tree(c)
  {
    LinksThere(c);
    KindsThere(c);
    HeapThere(c);
  }

  lemma ShapedIsWellFormed(c: Arena)
    requires Shaped(c)
    ensures Tree(c) && WellFormed(c)
  {
    ShapedIsTree(c);
    assert Children(c, 1)[0] in Children(c, 1);
  }

  lemma ShapedIsOrthogonal(c: WFChart)
    requires Shaped(c)
    ensures Orthogonal(c)
  {
    forall t ensures TargetsApart(c, Targets(c, t)) {
      TargetsThere(c, t);
      AloneApart(c, Targets(c, t));
    }
  }

  lemma TargetsThere(c: Arena, t: TransitionRef)
    requires Shaped(c)
    ensures Targets(c, t) == [] || Targets(c, t) == [3] || Targets(c, t) == [6]
  {
    assert At(c, t.source).transitions ==
           if t.source == 3 then [On(NAME, 3)] else if t.source == 5 then [On(NAME, 6)] else [];
  }

  lemma AloneApart(c: Chart, targets: seq<int>)
    requires |targets| <= 1 && forall t :: t in targets ==> 0 <= t < Size(c)
    ensures TargetsApart(c, targets)
  {}

  /** The example satisfies all that is asked of a chart but that loops below parallel states reenter. */
  lemma ExampleQualifies()
    ensures Shaped(EXAMPLE) && Tree(EXAMPLE) && WellFormed(EXAMPLE) && Orthogonal(EXAMPLE)
  {
    ExampleShaped();
    ShapedIsWellFormed(EXAMPLE);
    ShapedIsOrthogonal(EXAMPLE);
  }

  // ---- what happens in it ----

  /** The nodes 0 .. k-1, as a list and as a set. */
  function Range(k: nat): (r: seq<int>)
    ensures |r| == k && forall i :: 0 <= i < k ==> r[i] == i
    ensures forall n :: n in r <==> 0 <= n < k
  {
    if k == 0 then [] else Range(k - 1) + [k - 1]
  }

  function UpTo(k: nat): (r: set<int>)
    ensures forall n :: n in r <==> 0 <= n < k
  {
    Elems(Range(k))
  }

  lemma RangeOrdered(n: nat, k: nat)
    requires k <= n
    ensures Range(k) == Ordered(n, UpTo(k))
  {
    AscendingUnique(Range(k), Ordered(n, UpTo(k)));
  }

  /** A snapshot of the example in its initial configuration: all but `d` are active. */
  ghost predicate Starting(snap: Snapshot) {
    snap.configuration == Range(6) && snap.historyValue == map[] && snap.status == F.Active
  }

  const ACTIVE := UpTo(6)

  ghost predicate InPlace(c: Chart, s: set<int>, n: int) {
    Settled(c, s, n) && 0 <= n < Size(c) && Kind(c, n) != History && (n != 0 ==> Parent(c, n) in s)
  }

  lemma AllInPlace(c: Chart, s: set<int>)
    requires 0 in s && AtMostOne(c, s) && forall n :: n in s ==> InPlace(c, s, n)
    ensures Legal(c, s)
  {}

  lemma InPlaceThere(c: WFChart, n: int)
    requires Shaped(c) && n in ACTIVE
    ensures InPlace(c, ACTIVE, n)
  {
    assert Children(c, n) == ChildrenIn(n) && Kind(c, n) == KindIn(n) && Parent(c, n) == ParentIn(n);
    if ChildrenIn(n) != [] { assert ChildrenIn(n)[0] in ChildrenIn(n) && ChildrenIn(n)[0] in ACTIVE; }
  }

  lemma SiblingsThere(c: WFChart, a: int, b: int)
    requires Shaped(c) && a in ACTIVE && b in ACTIVE && Siblings(c, a, b)
    ensures Kind(c, Parent(c, a)) == Parallel
  {
    assert Parent(c, a) == ParentIn(a) && Parent(c, b) == ParentIn(b);
  }

  lemma StartingLegal(c: WFChart, snap: Snapshot)
    requires Shaped(c) && Starting(snap)
    ensures Elems(snap.configuration) == ACTIVE && LegalSnapshot(c, snap) && HistoryValid(c, snap.historyValue)
  {
    RangeOrdered(7, 6);
    forall n | n in ACTIVE ensures InPlace(c, ACTIVE, n) { InPlaceThere(c, n); }
    forall a, b | a in ACTIVE && b in ACTIVE && Siblings(c, a, b) ensures Kind(c, Parent(c, a)) == Parallel {
      SiblingsThere(c, a, b);
    }
    AllInPlace(c, ACTIVE);
  }

  lemma NothingBelowLoop(c: WFChart, n: int)
    requires Shaped(c) && 0 <= n < 7 && n != 3
    ensures !Desc(c, n, 3)
  {
    if Desc(c, n, 3) { BelowHasChildren(c, n, 3); }
  }

  /** The transition of `x` to itself exits nothing, so the filter keeps both. */
  lemma LoopExitsNothing(c: WFChart)
    requires Shaped(c)
    ensures SelfLoop(c, LOOP) && Idle(c, LOOP) && ExitSet(c, ACTIVE, LOOP) == {}
  {
    assert Desc(c, 3, 3) && Targets(c, LOOP) == [3];
    forall n | n in ACTIVE && n != 3 ensures !Desc(c, n, 3) { NothingBelowLoop(c, n); }
  }

  lemma HandledThere(c: WFChart, n: int, snap: Snapshot, event: Event)
    requires Shaped(c) && event.name == NAME && (n == 3 || n == 5)
    ensures AtomicIn(c, ACTIVE, n) && Handler(c, n, snap, event) == Some(TransitionRef(n, 0))
    ensures !Def(c, TransitionRef(n, 0)).forbidden
  {
    assert At(c, n).transitions[0].eventType == NAME;
    assert FirstEnabled(c, n, 0, NAME, snap, event) == Some(TransitionRef(n, 0));
  }

  lemma NotAtomicThere(c: WFChart, n: int)
    requires Shaped(c) && n in {0, 1, 2, 4}
    ensures !AtomicIn(c, ACTIVE, n)
  {
    assert ChildrenIn(n)[0] in ACTIVE && ChildrenIn(n)[0] in Children(c, n);
  }

  function CandidatesUpTo(k: nat): seq<TransitionRef> {
    if k <= 3 then [] else if k <= 5 then [LOOP] else [LOOP, EXIT]
  }

  lemma CandidatesStep(c: WFChart, snap: Snapshot, event: Event, n: nat)
    requires Shaped(c) && event.name == NAME && n < 6
    ensures var before, t := Candidates(c, ACTIVE, Range(n), snap, event), TransitionRef(n, 0);
            Candidates(c, ACTIVE, Range(n + 1), snap, event) ==
            if (n == 3 || n == 5) && t !in before then before + [t] else before
  {
    CandidatesNext(c, ACTIVE, Range(n), n, snap, event);
    assert Range(n + 1) == Range(n) + [n];
    if n == 3 || n == 5 { HandledThere(c, n, snap, event); } else { NotAtomicThere(c, n); }
  }

  lemma CandidatesGrow(k: nat)
    requires k < 6
    ensures var before, t := CandidatesUpTo(k), TransitionRef(k, 0);
            CandidatesUpTo(k + 1) == if (k == 3 || k == 5) && t !in before then before + [t] else before
  {}

  lemma {:induction false} CandidatesThere(c: WFChart, snap: Snapshot, event: Event, k: nat)
    requires Shaped(c) && event.name == NAME && k <= 6
    ensures Candidates(c, ACTIVE, Range(k), snap, event) == CandidatesUpTo(k)
  {
    if k == 0 {
      assert Range(0) == [];
    } else {
      CandidatesThere(c, snap, event, k - 1);
      CandidatesStep(c, snap, event, k - 1);
      CandidatesGrow(k - 1);
    }
  }

  lemma ScanOne(c: Chart, active: set<int>, t: TransitionRef, u: TransitionRef)
    requires !Meets(c, active, u, t)
    ensures Scan(c, active, [t], u) == ([t], false)
  {
    var kept := [t];
    assert kept[1..] == [] && Scan(c, active, kept[1..], u) == ([], false);
    assert [kept[0]] + [] == kept;
  }

  /** Of two candidates that do not meet both are kept. */
  lemma ResolveTwo(c: Chart, active: set<int>, t: TransitionRef, u: TransitionRef)
    requires !Meets(c, active, u, t)
    ensures Resolve(c, active, [t, u]) == [t, u]
  {
    assert [t, u][..1] == [t] && [t][..0] == [];
    assert Resolve(c, active, []) == [];
    assert Scan(c, active, [], t) == ([], false) && [] + [t] == [t];
    ScanOne(c, active, t, u);
    assert [t] + [u] == [t, u];
  }

  lemma BothSelected(c: WFChart, snap: Snapshot, event: Event)
    requires Shaped(c) && Starting(snap) && event.name == NAME
    ensures Selected(c, snap, event) == [LOOP, EXIT]
  {
    RangeOrdered(7, 6);
    CandidatesThere(c, snap, event, 6);
    NoMeeting(c);
    ResolveTwo(c, ACTIVE, LOOP, EXIT);
  }

  lemma NoMeeting(c: WFChart)
    requires Shaped(c)
    ensures !Meets(c, ACTIVE, EXIT, LOOP)
  {
    LoopExitsNothing(c);
  }

  lemma OnPathTo(c: WFChart, hist: HistoryMap, i: nat, x: int, n: int)
    requires Shaped(c) && (if i == 0 then x == 3 else i == 1 && x == 6) && 0 <= n < 7 && Desc(c, x, n)
    ensures n in Paths(c, hist, [LOOP, EXIT])
  {
    assert Kind(c, x) == KindIn(x) == Atomic && x in [x] && n in c.heap;
    assert Targets(c, [LOOP, EXIT][i]) == [x];
    assert Aimed(c, hist, [LOOP, EXIT], i, x, x);
  }

  lemma FilledThere(c: WFChart, s: set<int>, t: set<int>)
    requires Shaped(c) && 1 in s && 3 in s && Fills(c, s, t)
    ensures 2 in t && 4 in t && 5 in t
  {
    assert Parent(c, 3) == ParentIn(3);
    RegionsThere(c, t);
    ChildThere(c, t);
  }

  lemma RegionsThere(c: WFChart, t: set<int>)
    requires Shaped(c) && Settled(c, t, 1)
    ensures 4 in t
  {
    assert Children(c, 1) == ChildrenIn(1) && Kind(c, 1) == KindIn(1) && Kind(c, 4) == KindIn(4);
    assert ChildrenIn(1)[1] == 4;
  }

  lemma ChildThere(c: WFChart, t: set<int>)
    requires Shaped(c) && Settled(c, t, 4)
    ensures 5 in t
  {
    assert Children(c, 4) == ChildrenIn(4) && Kind(c, 4) == KindIn(4);
  }

  lemma AllOfThem(t: set<int>)
    requires 0 in t && 1 in t && 2 in t && 3 in t && 4 in t && 5 in t && 6 in t && forall n :: n in t ==> 0 <= n < 7
    ensures t == UpTo(7)
  {}

  lemma TwoBelowRoot(c: WFChart, t: set<int>)
    requires Shaped(c) && 1 in t && 6 in t
    ensures !Legal(c, t)
  {
    assert Parent(c, 1) == 0 && Parent(c, 6) == 0 && Kind(c, 0) == Compound;
    assert Siblings(c, 1, 6);
  }

  /**
   In the example, the selection the filter makes for the event leads to a
   configuration in which the root has two active children: the loop enters
   `x` and all above it again, and the other transition enters `d` beside it.
   */
  lemma LoopBreaksLegality(c: WFChart, cur: Snapshot, event: Event, env: Surroundings, next: Snapshot,
                           env': Surroundings, progress: bool)
    requires Shaped(c) && Starting(cur) && event.name == NAME
    requires IsMicrostep(c, Selected(c, cur, event), cur, event, env, next, env', progress)
    ensures next.configuration == Range(7) && !Legal(c, Elems(next.configuration))
  {
    BothSelected(c, cur, event);
    BothTaken(c, Selected(c, cur, event), cur, event, env, next, env', progress);
  }

  lemma BothTaken(c: WFChart, sel: seq<TransitionRef>, cur: Snapshot, event: Event, env: Surroundings, next: Snapshot,
                  env': Surroundings, progress: bool)
    requires Shaped(c) && Starting(cur) && sel == [LOOP, EXIT]
    requires IsMicrostep(c, sel, cur, event, env, next, env', progress)
    ensures next.configuration == Range(7) && !Legal(c, Elems(next.configuration))
  {
    RangeOrdered(7, 6);
    FillsOf(c, sel, cur, event, env, next, env', progress);
    AllFilled(c, next.historyValue, Elems(next.configuration));
    RangeOrdered(7, 7);
  }

  lemma FillsOf(c: Chart, sel: seq<TransitionRef>, cur: Snapshot, event: Event, env: Surroundings, next: Snapshot,
                env': Surroundings, progress: bool)
    requires IsMicrostep(c, sel, cur, event, env, next, env', progress)
    ensures Fills(c, Start(c, Elems(cur.configuration), next.historyValue, sel), Elems(next.configuration))
    ensures next.configuration == Ordered(Size(c), Elems(next.configuration))
  {}

  lemma AllFilled(c: WFChart, hist: HistoryMap, t: set<int>)
    requires Shaped(c) && Fills(c, Start(c, ACTIVE, hist, [LOOP, EXIT]), t)
    ensures t == UpTo(7) && !Legal(c, t)
  {
    var s := Start(c, ACTIVE, hist, [LOOP, EXIT]);
    PathsThere(c, hist);
    FilledThere(c, s, t);
    AllOfThem(t);
    TwoBelowRoot(c, t);
  }

  /** The paths to `x`, through `p`, and to `d` are entered. */
  lemma PathsThere(c: WFChart, hist: HistoryMap)
    requires Shaped(c)
    ensures 1 in Paths(c, hist, [LOOP, EXIT]) && 3 in Paths(c, hist, [LOOP, EXIT]) && 6 in Paths(c, hist, [LOOP, EXIT])
  {
    Ancestry(c);
    OnPathTo(c, hist, 0, 3, 1);
    OnPathTo(c, hist, 0, 3, 3);
    OnPathTo(c, hist, 1, 6, 6);
  }

  /** And it is a step the interpreter takes: the snapshot is legal, and the filter has kept exactly these two. */
  lemma LoopIsTaken(c: WFChart, cur: Snapshot, event: Event)
    requires Shaped(c) && Starting(cur) && event.name == NAME
    ensures LegalSnapshot(c, cur) && Selected(c, cur, event) == [LOOP, EXIT] && Takes(c, cur, [LOOP, EXIT])
    ensures !Consistent(c, ACTIVE, [LOOP, EXIT])
  {
    StartingLegal(c, cur);
    BothSelected(c, cur, event);
    ShapedIsOrthogonal(c);
    SelectedTakes(c, cur, event);
    LoopDisturbed(c);
  }

  lemma LoopDisturbed(c: WFChart)
    requires Shaped(c) && Orthogonal(c)
    ensures !Consistent(c, ACTIVE, [LOOP, EXIT])
  {
    Ancestry(c);
    LoopExitsNothing(c);
    assert Targets(c, EXIT) == [6];
    NotBelowExit(c);
    assert Domain(c, EXIT) == 0 by { ExitDomain(c); }
    assert 3 in ExitSet(c, ACTIVE, [LOOP, EXIT][1]) && Domain(c, [LOOP, EXIT][0]) == 3;
  }

  lemma NotBelowExit(c: WFChart)
    requires Shaped(c)
    ensures !Desc(c, 6, 5) && !Desc(c, 6, 4) && !Desc(c, 6, 1)
  {
    assert Desc(c, 0, 1) == (0 == 1) && Desc(c, 0, 4) == (0 == 4) && Desc(c, 0, 5) == (0 == 5);
  }

  /** Leaving for `d`, the lowest non-parallel state around both is the root. */
  lemma ExitDomain(c: WFChart)
    requires Shaped(c)
    ensures Domain(c, EXIT) == 0
  {
    NotBelowExit(c);
    Ancestry(c);
    assert Targets(c, EXIT) == [6] && 6 in [6];
    assert LowestCover(c, 0, [6]) == 0;
    assert LowestCover(c, 1, [6]) == LowestCover(c, 0, [6]);
    assert LowestCover(c, 4, [6]) == LowestCover(c, 1, [6]);
  }

  method ChooseLoop(c: WFChart, cur: Snapshot, event: Event) returns (sel: seq<TransitionRef>)
    requires Shaped(c) && Starting(cur) && event.name == NAME
    ensures sel == [LOOP, EXIT] && Takes(c, cur, sel)
  {
    ShapedIsOrthogonal(c);
    LoopIsTaken(c, cur, event);
    OrthogonalTargetsExist(c);
    sel := SelectTransitions(c, cur, event);
  }

  /** Selecting and stepping, as the interpreter does, from the initial configuration of the example. */
  method TakeLoop(c: WFChart, cur: Snapshot, event: Event, env: Surroundings) returns (next: Snapshot)
    requires Shaped(c) && Starting(cur) && event.name == NAME
    ensures next.configuration == Range(7) && !Legal(c, Elems(next.configuration))
  {
    var sel := ChooseLoop(c, cur, event);
    var env', progress;
    next, env', progress := Microstep(c, sel, cur, event, env);
    BothTaken(c, sel, cur, event, env, next, env', progress);
  }
}
