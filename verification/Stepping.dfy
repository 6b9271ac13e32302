/** The base of a step: what survives the exits, together with the paths to everything the transitions aim for. */
module Stepping {
  import opened StateNodes
  import opened Configurations
  import opened Transitions
  import opened Targeting

  /** All nodes the selected transitions exit. */
  ghost function Exits(c: Chart, active: set<int>, sel: seq<TransitionRef>): set<int> {
    set n | n in active && exists i :: 0 <= i < |sel| && n in ExitSet(c, active, sel[i])
  }

  ghost predicate Aimed(c: Chart, hist: HistoryMap, sel: seq<TransitionRef>, i: int, t: int, x: int) {
    0 <= i < |sel| && t in Targets(c, sel[i]) && Aim(c, hist, t, x)
  }

  /** The nodes on the paths from the root to what the selected transitions aim for. */
  ghost function Paths(c: Chart, hist: HistoryMap, sel: seq<TransitionRef>): set<int> {
    set n | n in c.heap && exists i, t, x {:trigger Aimed(c, hist, sel, i, t, x), Desc(c, x, n)} ::
      Aimed(c, hist, sel, i, t, x) && Desc(c, x, n)
  }

  /** The states a step is sure to have active: its survivors and the paths to its aims. */
  ghost function Base(c: Chart, active: set<int>, hist: HistoryMap, sel: seq<TransitionRef>): set<int> {
    (active - Exits(c, active, sel)) + Paths(c, hist, sel)
  }

  /** What the conflict filter lets through: every source is active, and no node is exited twice. */
  ghost predicate Compatible(c: Chart, active: set<int>, sel: seq<TransitionRef>) {
    && (forall i :: 0 <= i < |sel| ==> sel[i].source in active)
    && (forall i, j :: 0 <= i < j < |sel| ==> ExitSet(c, active, sel[i]) !! ExitSet(c, active, sel[j]))
  }

  /** No transition exits the domain of another. */
  ghost predicate Consistent(c: Chart, active: set<int>, sel: seq<TransitionRef>) {
    && Compatible(c, active, sel)
    && (forall i, j :: 0 <= i < |sel| && 0 <= j < |sel| && Targets(c, sel[i]) != [] ==>
          Domain(c, sel[i]) !in ExitSet(c, active, sel[j]))
  }

  /** What a microstep starts from. */
  ghost predicate Ready(c: WFChart, active: set<int>, hist: HistoryMap, sel: seq<TransitionRef>) {
    Orthogonal(c) && Legal(c, active) && HistoryValid(c, hist) && Compatible(c, active, sel)
  }

  lemma {:induction false} SelectedFacts(c: WFChart, active: set<int>, hist: HistoryMap, sel: seq<TransitionRef>,
                                         i: int)
    requires Ready(c, active, hist, sel) && 0 <= i < |sel|
    ensures sel[i].source in active && 0 <= sel[i].source < Size(c)
    ensures TargetsApart(c, Targets(c, sel[i]))
    ensures Targets(c, sel[i]) != [] ==> Domain(c, sel[i]) in active && 0 <= Domain(c, sel[i]) < Size(c)
  {
    var t := sel[i];
    assert TargetsApart(c, Targets(c, t));
    if Targets(c, t) != [] {
      DomainContains(c, t);
      ClosedUp(c, active, t.source, Domain(c, t));
    }
  }

  /** A leaf of a legal configuration has nothing active below it, and conversely. */
  lemma {:induction false} NothingBelowIsLeaf(c: WFChart, active: set<int>, d: int)
    requires Legal(c, active) && d in active && forall n :: n in active ==> !Below(c, n, d)
    ensures Children(c, d) == []
  {
    if Children(c, d) != [] {
      assert Settled(c, active, d);
      var b :| b in Children(c, d) && b in active;
      assert Desc(c, Parent(c, b), d);
    }
  }

  // ---- transitions that exit nothing ----

  /** The domain has no children, so the transition leads from a childless state to just itself. */
  ghost predicate Idle(c: Chart, t: TransitionRef) {
    Targets(c, t) != [] && Children(c, Domain(c, t)) == []
  }

  lemma {:induction false} BelowHasChildren(c: Chart, n: int, a: int)
    requires 0 <= n < Size(c) && Below(c, n, a)
    ensures Children(c, a) != []
  {
    var b := Toward(c, n, a);
    assert b in Children(c, a);
  }

  lemma {:induction false} ChildlessHasNothingBelow(c: Chart, n: int, a: int)
    requires 0 <= n < Size(c) && Desc(c, n, a) && Children(c, a) == []
    ensures n == a
  {
    if n != a { BelowHasChildren(c, n, a); }
  }

  /** An idle transition's source is its domain and all it aims for, and it exits nothing. */
  lemma {:induction false} IdleFacts(c: WFChart, active: set<int>, hist: HistoryMap, sel: seq<TransitionRef>, i: int)
    requires Ready(c, active, hist, sel) && 0 <= i < |sel| && Idle(c, sel[i])
    ensures Domain(c, sel[i]) == sel[i].source && sel[i].source in active && ExitSet(c, active, sel[i]) == {}
    ensures forall t, x :: Aimed(c, hist, sel, i, t, x) ==> t == x == sel[i].source
    ensures Aimed(c, hist, sel, i, sel[i].source, sel[i].source)
  {
    var x := sel[i].source;
    SelectedFacts(c, active, hist, sel, i);
    DomainContains(c, sel[i]);
    ChildlessHasNothingBelow(c, x, Domain(c, sel[i]));
    forall n | n in active && Desc(c, n, x) ensures n == x { ChildlessHasNothingBelow(c, n, x); }
    forall t | t in Targets(c, sel[i]) ensures t == x { ChildlessHasNothingBelow(c, t, x); }
    assert Targets(c, sel[i])[0] in Targets(c, sel[i]);
  }

  /** What exits nothing is idle. */
  lemma {:induction false} ExitsNothingIsIdle(c: WFChart, active: set<int>, hist: HistoryMap, sel: seq<TransitionRef>,
                                              i: int)
    requires Ready(c, active, hist, sel) && 0 <= i < |sel| && Targets(c, sel[i]) != []
    requires ExitSet(c, active, sel[i]) == {}
    ensures Idle(c, sel[i])
  {
    var t, d := sel[i], Domain(c, sel[i]);
    SelectedFacts(c, active, hist, sel, i);
    forall n | n in active ensures !Below(c, n, d) {
      assert n in ExitSet(c, active, t) <==> Below(c, n, d);
    }
    NothingBelowIsLeaf(c, active, d);
  }

  lemma {:induction false} NestedExits(c: Chart, active: set<int>, t: TransitionRef, u: TransitionRef)
    requires Targets(c, u) != [] && Desc(c, Domain(c, t), Domain(c, u)) && 0 <= Domain(c, u)
    requires forall n :: n in active ==> 0 <= n < Size(c)
    ensures ExitSet(c, active, t) <= ExitSet(c, active, u)
  {
    forall n | n in ExitSet(c, active, t) ensures n in ExitSet(c, active, u) {
      DescTrans(c, n, Domain(c, t), Domain(c, u));
      DescBounds(c, n, Domain(c, t));
      DescBounds(c, Domain(c, t), Domain(c, u));
    }
  }

  /** Only idle transitions have their domain exited. */
  lemma {:induction false} DomainSurvives(c: WFChart, active: set<int>, hist: HistoryMap, sel: seq<TransitionRef>,
                                          i: int)
    requires Ready(c, active, hist, sel) && 0 <= i < |sel| && Targets(c, sel[i]) != [] && !Idle(c, sel[i])
    ensures Domain(c, sel[i]) in active - Exits(c, active, sel)
  {
    SelectedFacts(c, active, hist, sel, i);
    if Domain(c, sel[i]) in Exits(c, active, sel) {
      var j :| 0 <= j < |sel| && Domain(c, sel[i]) in ExitSet(c, active, sel[j]);
      SelectedFacts(c, active, hist, sel, j);
      NestedExits(c, active, sel[i], sel[j]);
      assert i != j && ExitSet(c, active, sel[i]) !! ExitSet(c, active, sel[j]);
      ExitsNothingIsIdle(c, active, hist, sel, i);
    }
  }

  /** No two transitions that exit something have comparable domains. */
  lemma {:induction false} DomainsApart(c: WFChart, active: set<int>, hist: HistoryMap, sel: seq<TransitionRef>, i: int,
                                        j: int, x: int)
    requires Ready(c, active, hist, sel) && 0 <= i < |sel| && 0 <= j < |sel| && i != j
    requires Targets(c, sel[i]) != [] && Targets(c, sel[j]) != [] && !Idle(c, sel[i]) && !Idle(c, sel[j])
    ensures !(Desc(c, x, Domain(c, sel[i])) && Desc(c, x, Domain(c, sel[j])))
  {
    if Desc(c, x, Domain(c, sel[i])) && Desc(c, x, Domain(c, sel[j])) {
      AncestorsComparable(c, x, Domain(c, sel[i]), Domain(c, sel[j]));
      var lo, hi := if Desc(c, Domain(c, sel[i]), Domain(c, sel[j])) then i
                    else j, if Desc(c, Domain(c, sel[i]), Domain(c, sel[j])) then j else i;
      SelectedFacts(c, active, hist, sel, hi);
      NestedExits(c, active, sel[lo], sel[hi]);
      assert ExitSet(c, active, sel[lo]) !! ExitSet(c, active, sel[hi]);
      ExitsNothingIsIdle(c, active, hist, sel, lo);
    }
  }

  // ---- survivors and paths ----

  lemma {:induction false} BelowDomainExits(c: Chart, active: set<int>, sel: seq<TransitionRef>, i: int, n: int)
    requires 0 <= i < |sel| && Targets(c, sel[i]) != [] && n in active && Below(c, n, Domain(c, sel[i]))
    ensures n in Exits(c, active, sel)
  {
    assert n in ExitSet(c, active, sel[i]);
  }

  lemma {:induction false} ExitsDownward(c: WFChart, active: set<int>, hist: HistoryMap, sel: seq<TransitionRef>,
                                         n: int)
    requires Ready(c, active, hist, sel) && n in active && n != 0 && Parent(c, n) in Exits(c, active, sel)
    ensures n in Exits(c, active, sel)
  {
    var i :| 0 <= i < |sel| && Parent(c, n) in ExitSet(c, active, sel[i]);
    SelectedFacts(c, active, hist, sel, i);
    DescBounds(c, Parent(c, n), Domain(c, sel[i]));
    BelowDomainExits(c, active, sel, i, n);
  }

  lemma {:induction false} SurvivorsClosed(c: WFChart, active: set<int>, hist: HistoryMap, sel: seq<TransitionRef>)
    requires Ready(c, active, hist, sel)
    ensures Closed(c, active - Exits(c, active, sel))
  {
    var r := active - Exits(c, active, sel);
    assert forall i :: 0 <= i < |sel| ==> 0 !in ExitSet(c, active, sel[i]);
    forall n | n in r && n != 0 ensures Parent(c, n) in r {
      assert Parent(c, n) in active;
      if Parent(c, n) in Exits(c, active, sel) { ExitsDownward(c, active, hist, sel, n); }
    }
  }

  /** An aim lies in the domain of its transition. */
  lemma {:induction false} AimInDomain(c: WFChart, active: set<int>, hist: HistoryMap, sel: seq<TransitionRef>, i: int,
                                       t: int, x: int)
    requires Ready(c, active, hist, sel) && Aimed(c, hist, sel, i, t, x)
    ensures 0 <= t < Size(c) && 0 <= x < Size(c) && Kind(c, x) != History
    ensures Desc(c, x, Anchor(c, t)) && Desc(c, Anchor(c, t), Domain(c, sel[i])) && Desc(c, x, Domain(c, sel[i]))
  {
    SelectedFacts(c, active, hist, sel, i);
    DomainContains(c, sel[i]);
    AimBelow(c, hist, t, x);
    DescTrans(c, x, Anchor(c, t), Domain(c, sel[i]));
  }

  lemma {:induction false} PathsClosed(c: WFChart, active: set<int>, hist: HistoryMap, sel: seq<TransitionRef>, n: int)
    requires Ready(c, active, hist, sel) && n in Paths(c, hist, sel)
    ensures Kind(c, n) != History && (n != 0 ==> Parent(c, n) in Paths(c, hist, sel))
  {
    var i, t, x :| Aimed(c, hist, sel, i, t, x) && Desc(c, x, n);
    AimInDomain(c, active, hist, sel, i, t, x);
    if n != x {
      var b := Toward(c, x, n);
      assert b in Children(c, n);
    }
    if n != 0 {
      assert Desc(c, n, Parent(c, n));
      DescTrans(c, x, n, Parent(c, n));
    }
  }

  lemma {:induction false} BaseClosed(c: WFChart, active: set<int>, hist: HistoryMap, sel: seq<TransitionRef>)
    requires Ready(c, active, hist, sel)
    ensures Closed(c, Base(c, active, hist, sel))
  {
    var s, r := Base(c, active, hist, sel), active - Exits(c, active, sel);
    SurvivorsClosed(c, active, hist, sel);
    forall n | n in s ensures 0 <= n < Size(c) && Kind(c, n) != History && (n != 0 ==> Parent(c, n) in s) {
      if n in Paths(c, hist, sel) { PathsClosed(c, active, hist, sel, n); }
      else { assert n != 0 ==> Parent(c, n) in r; }
    }
  }

  /** A path that leaves the survivors does so below the domain. */
  lemma {:induction false} LeavesBelowDomain(c: WFChart, active: set<int>, hist: HistoryMap, sel: seq<TransitionRef>,
                                             i: int, t: int, x: int, a: int)
    requires Ready(c, active, hist, sel) && Aimed(c, hist, sel, i, t, x) && !Idle(c, sel[i])
    requires Desc(c, x, a) && a !in active - Exits(c, active, sel)
    ensures Below(c, a, Domain(c, sel[i]))
  {
    var d := Domain(c, sel[i]);
    AimInDomain(c, active, hist, sel, i, t, x);
    DomainSurvives(c, active, hist, sel, i);
    SurvivorsClosed(c, active, hist, sel);
    AncestorsComparable(c, x, a, d);
    if Desc(c, d, a) { ClosedUp(c, active - Exits(c, active, sel), d, a); }
  }

  /** The path of an idle transition was active all along. */
  lemma {:induction false} IdlePathActive(c: WFChart, active: set<int>, hist: HistoryMap, sel: seq<TransitionRef>,
                                          i: int, t: int, x: int, a: int)
    requires Ready(c, active, hist, sel) && Aimed(c, hist, sel, i, t, x) && Idle(c, sel[i]) && Desc(c, x, a)
    ensures x == sel[i].source && a in active
  {
    IdleFacts(c, active, hist, sel, i);
    ClosedUp(c, active, x, a);
  }

  /** The paths of two transitions that exit something part at a parallel node. */
  lemma {:induction false} PathsPart(c: WFChart, active: set<int>, hist: HistoryMap, sel: seq<TransitionRef>, i: int,
                                     t: int, x: int, a: int, j: int, u: int, y: int, b: int)
    requires Ready(c, active, hist, sel) && Aimed(c, hist, sel, i, t, x) && Aimed(c, hist, sel, j, u, y)
    requires !Idle(c, sel[i]) && !Idle(c, sel[j])
    requires Siblings(c, a, b) && Desc(c, x, a) && Desc(c, y, b)
    requires a !in active - Exits(c, active, sel) && b !in active - Exits(c, active, sel)
    ensures Kind(c, Parent(c, a)) == Parallel
  {
    AimInDomain(c, active, hist, sel, i, t, x);
    AimInDomain(c, active, hist, sel, j, u, y);
    if i != j {
      LeavesBelowDomain(c, active, hist, sel, i, t, x, a);
      LeavesBelowDomain(c, active, hist, sel, j, u, y, b);
      BelowParent(c, a, Domain(c, sel[i]));
      BelowParent(c, b, Domain(c, sel[j]));
      DomainsApart(c, active, hist, sel, i, j, Parent(c, a));
    } else if t == u {
      AimsOfOneTarget(c, hist, t, x, y, a, b);
    } else {
      SelectedFacts(c, active, hist, sel, i);
      TwoTargetsApart(c, Targets(c, sel[i]), t, u);
      AimsOfTwoTargets(c, hist, t, u, x, y, a, b);
    }
  }

  lemma {:induction false} TwoTargetsApart(c: Chart, ts: seq<int>, t: int, u: int)
    requires TargetsApart(c, ts) && t in ts && u in ts && t != u
    ensures Apart(c, Anchor(c, t), Anchor(c, u))
  {
    var k, l :| 0 <= k < |ts| && 0 <= l < |ts| && ts[k] == t && ts[l] == u;
    assert Apart(c, Anchor(c, ts[k]), Anchor(c, ts[l]));
  }

  /** A path that leads to a sibling of a survivor leads to a survivor, or was active all along. */
  lemma {:induction false} PathAvoidsSurvivors(c: WFChart, active: set<int>, hist: HistoryMap, sel: seq<TransitionRef>,
                                               a: int, j: int, u: int, y: int, b: int)
    requires Ready(c, active, hist, sel) && Aimed(c, hist, sel, j, u, y)
    requires Siblings(c, a, b) && Desc(c, y, b)
    requires a in active - Exits(c, active, sel)
    ensures b in active
  {
    if Idle(c, sel[j]) {
      IdlePathActive(c, active, hist, sel, j, u, y, b);
    } else if b !in active - Exits(c, active, sel) {
      var d := Domain(c, sel[j]);
      AimInDomain(c, active, hist, sel, j, u, y);
      LeavesBelowDomain(c, active, hist, sel, j, u, y, b);
      BelowParent(c, b, d);
      DescBounds(c, Parent(c, b), d);
      BelowDomainExits(c, active, sel, j, a);
    }
  }

  /** No survivor lies below a landing node of a transition that exits something. */
  lemma {:induction false} NoSurvivorBelowLanding(c: WFChart, active: set<int>, hist: HistoryMap,
                                                  sel: seq<TransitionRef>, i: int, t: int, x: int, n: int)
    requires Ready(c, active, hist, sel) && Aimed(c, hist, sel, i, t, x)
    requires n in active - Exits(c, active, sel)
    ensures !Below(c, n, x)
  {
    if Below(c, n, x) {
      AimInDomain(c, active, hist, sel, i, t, x);
      DescTrans(c, n, x, Domain(c, sel[i]));
      DescBounds(c, n, x);
      DescBounds(c, x, Domain(c, sel[i]));
      BelowDomainExits(c, active, sel, i, n);
    }
  }

  /** No other path leads to or past a landing node, those of idle transitions aside. */
  lemma {:induction false} PathMissesLanding(c: WFChart, active: set<int>, hist: HistoryMap, sel: seq<TransitionRef>,
                                             i: int, t: int, x: int, j: int, u: int, y: int)
    requires Ready(c, active, hist, sel) && Aimed(c, hist, sel, i, t, x) && x in Landing(c, hist, t)
    requires Aimed(c, hist, sel, j, u, y) && !Idle(c, sel[i]) && !Idle(c, sel[j])
    ensures !Below(c, y, x)
    ensures Desc(c, y, x) ==> i == j && t == u
  {
    if Desc(c, y, x) {
      AimInDomain(c, active, hist, sel, i, t, x);
      AimInDomain(c, active, hist, sel, j, u, y);
      SelectedFacts(c, active, hist, sel, i);
      if i != j {
        DescTrans(c, y, x, Domain(c, sel[i]));
        DomainsApart(c, active, hist, sel, i, j, y);
      } else if t == u {
        LandingIncomparable(c, hist, t, x, y, y);
      } else {
        TwoTargetsApart(c, Targets(c, sel[i]), t, u);
        DescTrans(c, y, x, Anchor(c, t));
        AncestorsComparable(c, y, Anchor(c, t), Anchor(c, u));
      }
    }
  }
}
