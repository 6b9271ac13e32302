/**
 Where a step starts to complete its configuration from: the base, and the
 initial states of the nodes its targets land on. When what it starts from is
 partial, and so when the step ends in a legal configuration.
 */
module StepStarts {
  import opened StateNodes
  import opened Configurations
  import opened Entry
  import opened Transitions
  import opened Targeting
  import opened Stepping

  /** A transition before the `j`-th leads an idle state at or below `y` to itself, and so enters `y` first. */
  ghost predicate Preempted(c: Chart, sel: seq<TransitionRef>, j: int, y: int) {
    exists k {:trigger Idle(c, sel[k])} :: 0 <= k < j && k < |sel| && Idle(c, sel[k]) && Desc(c, sel[k].source, y)
  }

  /** The `j`-th transition lands on `y`, and is the first to enter it: it enters its initial states, too. */
  ghost predicate Opens(c: Chart, hist: HistoryMap, sel: seq<TransitionRef>, j: int, t: int, y: int) {
    && 0 <= j < |sel| && !Idle(c, sel[j])
    && t in Targets(c, sel[j]) && y in Landing(c, hist, t) && !Preempted(c, sel, j, y)
  }

  /** What the first `n` transitions open. */
  ghost function Opened(c: Chart, hist: HistoryMap, sel: seq<TransitionRef>, n: nat): set<int> {
    set y | y in c.heap && exists j, t {:trigger Opens(c, hist, sel, j, t, y)} :: j < n && Opens(c, hist, sel, j, t, y)
  }

  ghost function DefaultsOf(c: Chart, ys: set<int>): set<int> {
    set n | n in c.heap && exists y :: y in ys && DefaultBelow(c, n, y)
  }

  ghost function StrictDefaultsOf(c: Chart, ys: set<int>): set<int> {
    set n | n in c.heap && exists y :: y in ys && n != y && DefaultBelow(c, n, y)
  }

  /** What a step enters before completion, together with what survives it. */
  ghost function Start(c: Chart, active: set<int>, hist: HistoryMap, sel: seq<TransitionRef>): set<int> {
    Base(c, active, hist, sel) + DefaultsOf(c, Opened(c, hist, sel, |sel|))
  }

  /** What a step has active for another reason than that a parent's initial transition leads to it. */
  ghost function Given(c: Chart, active: set<int>, hist: HistoryMap, sel: seq<TransitionRef>): set<int> {
    Base(c, active, hist, sel) - StrictDefaultsOf(c, Opened(c, hist, sel, |sel|))
  }

  // ---- what it takes for a step to be legal ----

  /** Wherever the paths to two nodes part, they part at a parallel node. */
  ghost predicate Fits(c: Chart, x: int, y: int) {
    forall a, b {:trigger Desc(c, x, a), Desc(c, y, b)} ::
      Siblings(c, a, b) && Desc(c, x, a) && Desc(c, y, b) ==> Kind(c, Parent(c, a)) == Parallel
  }

  /**
   The idle state `x` can be entered along with what the `j`-th transition
   aims for: it fits every aim, and where it lies below a node whose initial
   states are entered before it, it is one of these.
   */
  ghost predicate LoopFits(c: Chart, hist: HistoryMap, sel: seq<TransitionRef>, x: int, j: int) {
    && (forall t, y {:trigger Aimed(c, hist, sel, j, t, y)} :: Aimed(c, hist, sel, j, t, y) ==> Fits(c, x, y))
    && (forall t, y {:trigger Opens(c, hist, sel, j, t, y)} ::
          Opens(c, hist, sel, j, t, y) && Desc(c, x, y) ==> DefaultBelow(c, x, y))
  }

  /** Every idle state of the selection that another transition exits fits that transition. */
  ghost predicate LoopsFit(c: Chart, active: set<int>, hist: HistoryMap, sel: seq<TransitionRef>) {
    forall i, j {:trigger Idle(c, sel[i]), ExitSet(c, active, sel[j])} :: 0 <= i < |sel| && 0 <= j < |sel| ==>
      Idle(c, sel[i]) && sel[i].source in ExitSet(c, active, sel[j]) ==> LoopFits(c, hist, sel, sel[i].source, j)
  }

  lemma {:induction false} ParentDefault(c: Chart, n: int, y: int)
    requires DefaultBelow(c, n, y) && n != y
    ensures ByDefault(c, n) && Kind(c, n) != History && DefaultBelow(c, Parent(c, n), y) && Below(c, n, y)
  {
    DefaultBelowDesc(c, n, y);
  }

  /** Everything on the way down to a default descendant is entered by default. */
  lemma {:induction false} DefaultOnTheWay(c: Chart, x: int, y: int, a: int)
    requires 0 <= x < Size(c) && DefaultBelow(c, x, y) && Desc(c, x, a) && Below(c, a, y)
    ensures ByDefault(c, a)
    decreases x
  {
    if x == y {
      DescBounds(c, x, a);
      DescBounds(c, a, y);
    } else if x != a {
      DefaultOnTheWay(c, Parent(c, x), y, a);
    }
  }

  /** The way down to another descendant leaves the default ones somewhere. */
  lemma {:induction false} LeavesDefaults(c: Chart, x: int, y: int) returns (a: int)
    requires 0 <= x < Size(c) && Desc(c, x, y) && !DefaultBelow(c, x, y)
    requires forall n {:trigger Desc(c, x, n)} :: Desc(c, x, n) ==> Kind(c, n) != History
    ensures 0 < a < Size(c) && Desc(c, x, a) && DefaultBelow(c, Parent(c, a), y) && !ByDefault(c, a)
    decreases x
  {
    var p := Parent(c, x);
    if DefaultBelow(c, p, y) {
      assert Desc(c, x, x);
      a := x;
    } else {
      forall n | Desc(c, p, n) ensures Kind(c, n) != History { assert Desc(c, x, n); }
      a := LeavesDefaults(c, p, y);
    }
  }

  lemma {:induction false} OpensFacts(c: WFChart, active: set<int>, hist: HistoryMap, sel: seq<TransitionRef>, j: int,
                                      t: int, y: int)
    requires Ready(c, active, hist, sel) && Opens(c, hist, sel, j, t, y)
    ensures Aimed(c, hist, sel, j, t, y) && 0 <= y < Size(c) && Kind(c, y) != History && y in Paths(c, hist, sel)
    ensures y in Opened(c, hist, sel, |sel|)
  {
    assert Aimed(c, hist, sel, j, t, y);
    AimInDomain(c, active, hist, sel, j, t, y);
    assert Desc(c, y, y);
  }

  /** `n` is among what the step starts from because it is opened along with `y`. */
  lemma {:induction false} OpenedBy(c: WFChart, active: set<int>, hist: HistoryMap, sel: seq<TransitionRef>, n: int)
    returns (j: int, t: int, y: int)
    requires Ready(c, active, hist, sel) && n in DefaultsOf(c, Opened(c, hist, sel, |sel|))
    requires n !in Base(c, active, hist, sel)
    ensures Opens(c, hist, sel, j, t, y) && DefaultBelow(c, n, y) && n != y
  {
    y :| y in Opened(c, hist, sel, |sel|) && DefaultBelow(c, n, y);
    j, t :| Opens(c, hist, sel, j, t, y);
    OpensFacts(c, active, hist, sel, j, t, y);
  }

  lemma {:induction false} OpenedMember(c: WFChart, active: set<int>, hist: HistoryMap, sel: seq<TransitionRef>, n: int)
    requires Ready(c, active, hist, sel) && n in DefaultsOf(c, Opened(c, hist, sel, |sel|))
    requires n !in Base(c, active, hist, sel)
    ensures 0 < n < Size(c) && Kind(c, n) != History && Parent(c, n) in DefaultsOf(c, Opened(c, hist, sel, |sel|))
  {
    var j, t, y := OpenedBy(c, active, hist, sel, n);
    OpensFacts(c, active, hist, sel, j, t, y);
    ParentDefault(c, n, y);
  }

  lemma {:induction false} StartClosed(c: WFChart, active: set<int>, hist: HistoryMap, sel: seq<TransitionRef>)
    requires Ready(c, active, hist, sel)
    ensures Closed(c, Start(c, active, hist, sel))
  {
    var base, more := Base(c, active, hist, sel), DefaultsOf(c, Opened(c, hist, sel, |sel|));
    BaseClosed(c, active, hist, sel);
    forall n | n in more && n !in base ensures Kind(c, n) != History && Parent(c, n) in more {
      OpenedMember(c, active, hist, sel, n);
    }
    ClosedUnion(c, base, more);
  }

  lemma {:induction false} ClosedUnion(c: Chart, s: set<int>, t: set<int>)
    requires Closed(c, s) && forall n :: n in t ==> 0 <= n < Size(c)
    requires forall n {:trigger Parent(c, n) in t} :: n in t && n !in s ==> Kind(c, n) != History && Parent(c, n) in t
    ensures Closed(c, s + t)
  {
    forall n | n in s + t ensures Kind(c, n) != History && (n != 0 ==> Parent(c, n) in s + t) {
      if n in s { assert n != 0 ==> Parent(c, n) in s; }
      else { assert Parent(c, n) in t; }
    }
  }

  /** An idle state below what a transition lands on is exited by it. */
  lemma {:induction false} IdleBelowLanding(c: WFChart, active: set<int>, hist: HistoryMap, sel: seq<TransitionRef>,
                                            i: int, j: int, t: int, y: int)
    requires Ready(c, active, hist, sel) && 0 <= i < |sel| && Idle(c, sel[i])
    requires Aimed(c, hist, sel, j, t, y) && Below(c, sel[i].source, y)
    ensures sel[i].source in ExitSet(c, active, sel[j])
  {
    var x := sel[i].source;
    IdleFacts(c, active, hist, sel, i);
    AimInDomain(c, active, hist, sel, j, t, y);
    DescTrans(c, x, y, Domain(c, sel[j]));
    DescBounds(c, x, y);
    DescBounds(c, y, Domain(c, sel[j]));
  }

  // ---- if they fit ----

  /** The path of an idle transition and one that leaves what was active. */
  lemma {:induction false} IdlePathFits(c: WFChart, active: set<int>, hist: HistoryMap, sel: seq<TransitionRef>, i: int,
                                        t: int, x: int, a: int, j: int, u: int, y: int, b: int)
    requires Ready(c, active, hist, sel) && LoopsFit(c, active, hist, sel)
    requires Aimed(c, hist, sel, i, t, x) && Aimed(c, hist, sel, j, u, y) && Idle(c, sel[i]) && !Idle(c, sel[j])
    requires Siblings(c, a, b) && Desc(c, x, a) && Desc(c, y, b) && b !in active
    ensures Kind(c, Parent(c, a)) == Parallel
  {
    var d := Domain(c, sel[j]);
    IdlePathActive(c, active, hist, sel, i, t, x, a);
    LeavesBelowDomain(c, active, hist, sel, j, u, y, b);
    AimInDomain(c, active, hist, sel, j, u, y);
    BelowParent(c, b, d);
    DescBounds(c, Parent(c, b), d);
    DescTrans(c, x, a, d);
    DescBounds(c, x, a);
    assert x in ExitSet(c, active, sel[j]) && LoopFits(c, hist, sel, x, j);
  }

  lemma {:induction false} BaseSiblings(c: WFChart, active: set<int>, hist: HistoryMap, sel: seq<TransitionRef>, a: int,
                                        b: int)
    requires Ready(c, active, hist, sel) && LoopsFit(c, active, hist, sel)
    requires a in Base(c, active, hist, sel) && b in Base(c, active, hist, sel) && Siblings(c, a, b) && b !in active
    ensures Kind(c, Parent(c, a)) == Parallel
  {
    var r := active - Exits(c, active, sel);
    var j, u, y :| Aimed(c, hist, sel, j, u, y) && Desc(c, y, b);
    if Idle(c, sel[j]) { IdlePathActive(c, active, hist, sel, j, u, y, b); }
    if a in r {
      PathAvoidsSurvivors(c, active, hist, sel, a, j, u, y, b);
    } else {
      var i, t, x :| Aimed(c, hist, sel, i, t, x) && Desc(c, x, a);
      if Idle(c, sel[i]) { IdlePathFits(c, active, hist, sel, i, t, x, a, j, u, y, b); }
      else { PathsPart(c, active, hist, sel, i, t, x, a, j, u, y, b); }
    }
  }

  /** A sibling of a state opened along with a landing node is opened by default, too. */
  lemma {:induction false} OpenedSiblings(c: WFChart, active: set<int>, hist: HistoryMap, sel: seq<TransitionRef>,
                                          a: int, j: int, t: int, y: int, b: int)
    requires Ready(c, active, hist, sel) && LoopsFit(c, active, hist, sel)
    requires Opens(c, hist, sel, j, t, y) && DefaultBelow(c, b, y) && b != y && Siblings(c, a, b)
    requires a in Start(c, active, hist, sel)
    ensures ByDefault(c, a)
  {
    OpensFacts(c, active, hist, sel, j, t, y);
    ParentDefault(c, b, y);
    DefaultBelowDesc(c, Parent(c, b), y);
    DescBounds(c, Parent(c, b), y);
    assert Below(c, a, y);
    if a in active - Exits(c, active, sel) {
      NoSurvivorBelowLanding(c, active, hist, sel, j, t, y, a);
    } else if a in Paths(c, hist, sel) {
      var i, u, x :| Aimed(c, hist, sel, i, u, x) && Desc(c, x, a);
      PathBelowOpened(c, active, hist, sel, i, u, x, a, j, t, y);
    } else {
      var k, u, z := OpenedBy(c, active, hist, sel, a);
      ParentDefault(c, a, z);
    }
  }

  lemma {:induction false} PathBelowOpened(c: WFChart, active: set<int>, hist: HistoryMap, sel: seq<TransitionRef>,
                                           i: int, u: int, x: int, a: int, j: int, t: int, y: int)
    requires Ready(c, active, hist, sel) && LoopsFit(c, active, hist, sel)
    requires Opens(c, hist, sel, j, t, y) && Aimed(c, hist, sel, i, u, x) && Desc(c, x, a) && 0 <= a < Size(c)
    requires Below(c, a, y)
    ensures ByDefault(c, a)
  {
    OpensFacts(c, active, hist, sel, j, t, y);
    AimInDomain(c, active, hist, sel, i, u, x);
    DescTrans(c, x, a, y);
    DescBounds(c, x, a);
    DescBounds(c, a, y);
    if Idle(c, sel[i]) {
      IdleFacts(c, active, hist, sel, i);
      IdleBelowLanding(c, active, hist, sel, i, j, t, y);
      assert LoopFits(c, hist, sel, x, j);
      DefaultOnTheWay(c, x, y, a);
    } else {
      PathMissesLanding(c, active, hist, sel, j, t, y, i, u, x);
    }
  }

  lemma {:induction false} FittingStartPartial(c: WFChart, active: set<int>, hist: HistoryMap, sel: seq<TransitionRef>)
    requires Ready(c, active, hist, sel) && LoopsFit(c, active, hist, sel)
    ensures Partial(c, Start(c, active, hist, sel))
  {
    var s := Start(c, active, hist, sel);
    StartClosed(c, active, hist, sel);
    forall a, b | a in s && b in s && Siblings(c, a, b) ensures Kind(c, Parent(c, a)) == Parallel {
      StartSiblings(c, active, hist, sel, a, b);
    }
  }

  lemma {:induction false} StartSiblings(c: WFChart, active: set<int>, hist: HistoryMap, sel: seq<TransitionRef>,
                                         a: int, b: int)
    requires Ready(c, active, hist, sel) && LoopsFit(c, active, hist, sel) && Siblings(c, a, b)
    requires a in Start(c, active, hist, sel) && b in Start(c, active, hist, sel)
    ensures Kind(c, Parent(c, a)) == Parallel
  {
    var base := Base(c, active, hist, sel);
    if a in base && b in base {
      if b !in active { BaseSiblings(c, active, hist, sel, a, b); }
      else if a !in active { BaseSiblings(c, active, hist, sel, b, a); }
    } else {
      var p, q := if b in base then b else a, if b in base then a else b;
      var j, t, y := OpenedBy(c, active, hist, sel, q);
      OpenedSiblings(c, active, hist, sel, p, j, t, y, q);
      ParentDefault(c, q, y);
    }
  }

  // ---- if they do not ----

  lemma {:induction false} AimOnPath(c: WFChart, active: set<int>, hist: HistoryMap, sel: seq<TransitionRef>, i: int,
                                     t: int, x: int, a: int)
    requires Ready(c, active, hist, sel) && Aimed(c, hist, sel, i, t, x) && Desc(c, x, a)
    ensures a in Paths(c, hist, sel) && a in Base(c, active, hist, sel) && 0 <= a < Size(c) && Kind(c, a) != History
  {
    AimInDomain(c, active, hist, sel, i, t, x);
    DescBounds(c, x, a);
    PathsClosed(c, active, hist, sel, a);
  }

  lemma {:induction false} UnfitNotPartial(c: WFChart, active: set<int>, hist: HistoryMap, sel: seq<TransitionRef>,
                                           i: int, j: int)
    requires Ready(c, active, hist, sel) && 0 <= i < |sel| && Idle(c, sel[i])
    requires !LoopFits(c, hist, sel, sel[i].source, j)
    ensures !Partial(c, Start(c, active, hist, sel))
  {
    var x := sel[i].source;
    IdleFacts(c, active, hist, sel, i);
    if t, y :| Aimed(c, hist, sel, j, t, y) && !Fits(c, x, y) {
      var a, b :| Siblings(c, a, b) && Desc(c, x, a) && Desc(c, y, b) && Kind(c, Parent(c, a)) != Parallel;
      AimOnPath(c, active, hist, sel, i, x, x, a);
      AimOnPath(c, active, hist, sel, j, t, y, b);
    } else {
      var t, y :| Opens(c, hist, sel, j, t, y) && Desc(c, x, y) && !DefaultBelow(c, x, y);
      OffDefaultNotPartial(c, active, hist, sel, i, j, t, y);
    }
  }

  lemma {:induction false} OffDefaultNotPartial(c: WFChart, active: set<int>, hist: HistoryMap, sel: seq<TransitionRef>,
                                                i: int, j: int, t: int, y: int)
    requires Ready(c, active, hist, sel) && 0 <= i < |sel| && Idle(c, sel[i]) && Opens(c, hist, sel, j, t, y)
    requires Desc(c, sel[i].source, y) && !DefaultBelow(c, sel[i].source, y)
    ensures !Partial(c, Start(c, active, hist, sel))
  {
    var x := sel[i].source;
    IdleFacts(c, active, hist, sel, i);
    OpensFacts(c, active, hist, sel, j, t, y);
    forall n | Desc(c, x, n) ensures Kind(c, n) != History { AimOnPath(c, active, hist, sel, i, x, x, n); }
    var a := LeavesDefaults(c, x, y);
    AimOnPath(c, active, hist, sel, i, x, x, a);
    var e := DefaultSibling(c, a, y);
    DefaultsStart(c, active, hist, sel, j, t, y, e);
    assert a in Start(c, active, hist, sel);
  }

  lemma {:induction false} DefaultsStart(c: WFChart, active: set<int>, hist: HistoryMap, sel: seq<TransitionRef>,
                                         j: int, t: int, y: int, n: int)
    requires Ready(c, active, hist, sel) && Opens(c, hist, sel, j, t, y) && DefaultBelow(c, n, y) && 0 <= n < Size(c)
    ensures n in Start(c, active, hist, sel)
  {
    OpensFacts(c, active, hist, sel, j, t, y);
  }

  /** Beside a state that is not entered by default there is one that is. */
  lemma {:induction false} DefaultSibling(c: WFChart, a: int, y: int) returns (e: int)
    requires 0 < a < Size(c) && Kind(c, a) != History && !ByDefault(c, a) && DefaultBelow(c, Parent(c, a), y)
    ensures Siblings(c, a, e) && Kind(c, Parent(c, a)) != Parallel && DefaultBelow(c, e, y)
  {
    var p := Parent(c, a);
    assert a in Children(c, p);
    EntryChildIsChild(c, p);
    e := EntryChild(c, p);
  }

  /**
   When what a step starts from is partial: exactly if every idle state that
   another transition exits fits what that transition aims for.
   */
  lemma {:induction false} StartPartialExactly(c: WFChart, active: set<int>, hist: HistoryMap, sel: seq<TransitionRef>)
    requires Ready(c, active, hist, sel)
    ensures Closed(c, Start(c, active, hist, sel))
    ensures Partial(c, Start(c, active, hist, sel)) <==> LoopsFit(c, active, hist, sel)
  {
    StartClosed(c, active, hist, sel);
    if LoopsFit(c, active, hist, sel) {
      FittingStartPartial(c, active, hist, sel);
    } else {
      var i, j :| 0 <= i < |sel| && 0 <= j < |sel| && Idle(c, sel[i]) && sel[i].source in ExitSet(c, active, sel[j])
        && !LoopFits(c, hist, sel, sel[i].source, j);
      UnfitNotPartial(c, active, hist, sel, i, j);
    }
  }

  // ---- selections in which no transition exits the domain of another ----

  lemma {:induction false} ConsistentFits(c: WFChart, active: set<int>, hist: HistoryMap, sel: seq<TransitionRef>)
    requires Ready(c, active, hist, sel) && Consistent(c, active, sel)
    ensures LoopsFit(c, active, hist, sel)
  {
    forall i, j | 0 <= i < |sel| && 0 <= j < |sel| && Idle(c, sel[i])
      ensures sel[i].source !in ExitSet(c, active, sel[j]) {
      IdleFacts(c, active, hist, sel, i);
    }
  }

  /** Nothing of the base lies below a landing node. */
  lemma {:induction false} NothingBelowLanding(c: WFChart, active: set<int>, hist: HistoryMap, sel: seq<TransitionRef>,
                                               j: int, t: int, y: int, n: int)
    requires Ready(c, active, hist, sel) && Consistent(c, active, sel)
    requires Aimed(c, hist, sel, j, t, y) && y in Landing(c, hist, t)
    requires n in Base(c, active, hist, sel)
    ensures !Below(c, n, y)
  {
    if Below(c, n, y) {
      AimInDomain(c, active, hist, sel, j, t, y);
      BaseClosed(c, active, hist, sel);
      if Idle(c, sel[j]) {
        IdleFacts(c, active, hist, sel, j);
        BelowHasChildren(c, n, y);
      } else if n in active - Exits(c, active, sel) {
        NoSurvivorBelowLanding(c, active, hist, sel, j, t, y, n);
      } else {
        var i, u, x :| Aimed(c, hist, sel, i, u, x) && Desc(c, x, n);
        AimInDomain(c, active, hist, sel, i, u, x);
        DescTrans(c, x, n, y);
        DescBounds(c, x, n);
        DescBounds(c, n, y);
        if Idle(c, sel[i]) {
          IdleFacts(c, active, hist, sel, i);
          IdleBelowLanding(c, active, hist, sel, i, j, t, y);
        } else {
          PathMissesLanding(c, active, hist, sel, j, t, y, i, u, x);
        }
      }
    }
  }

  lemma {:induction false} NothingOpenedInBase(c: WFChart, active: set<int>, hist: HistoryMap, sel: seq<TransitionRef>,
                                               n: int)
    requires Ready(c, active, hist, sel) && Consistent(c, active, sel) && n in Base(c, active, hist, sel)
    ensures n !in StrictDefaultsOf(c, Opened(c, hist, sel, |sel|))
  {
    if y :| y in Opened(c, hist, sel, |sel|) && n != y && DefaultBelow(c, n, y) {
      var j, t :| Opens(c, hist, sel, j, t, y);
      OpensFacts(c, active, hist, sel, j, t, y);
      DefaultBelowDesc(c, n, y);
      NothingBelowLanding(c, active, hist, sel, j, t, y, n);
    }
  }

  /** Then the base is partial, and nothing in it is an initial state opened along with another. */
  lemma {:induction false} BasePartial(c: WFChart, active: set<int>, hist: HistoryMap, sel: seq<TransitionRef>)
    requires Ready(c, active, hist, sel) && Consistent(c, active, sel)
    ensures Partial(c, Base(c, active, hist, sel)) && Partial(c, Start(c, active, hist, sel))
    ensures Given(c, active, hist, sel) == Base(c, active, hist, sel)
  {
    ConsistentFits(c, active, hist, sel);
    FittingStartPartial(c, active, hist, sel);
    BaseClosed(c, active, hist, sel);
    forall n | n in Base(c, active, hist, sel) ensures n !in StrictDefaultsOf(c, Opened(c, hist, sel, |sel|)) {
      NothingOpenedInBase(c, active, hist, sel, n);
    }
  }
}
