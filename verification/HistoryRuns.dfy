/** History over whole runs: what a history node brings back is what was active when its parent was last exited. */
module HistoryRuns {
  import opened Basics
  import opened StateNodes
  import opened Configurations
  import opened Targeting
  import opened Stepping
  import opened StepStarts
  import opened Histories
  import opened Actions
  import opened Microsteps
  import opened Selection
  import opened Macrosteps
  import opened Lifetimes

  /** What history is about: the active states and the recorded values. */
  datatype Memory = Memory(active: set<int>, hist: HistoryMap)

  function MemoryOf(snap: Snapshot): Memory {
    Memory(Elems(snap.configuration), snap.historyValue)
  }

  /** A microstep's effect on the memory; taking no transition changes nothing. */
  ghost predicate Moves(c: Chart, m: Memory, sel: seq<TransitionRef>, m': Memory) {
    && Updated(c, m.active, HistoryChildren(c, Exits(c, m.active, sel)), m.hist, m'.hist)
    && Completes(c, Base(c, m.active, m'.hist, sel), m'.active)
  }

  ghost predicate Advances(c: WFChart, m: Memory, sel: seq<TransitionRef>, m': Memory) {
    Consistent(c, m.active, sel) && Moves(c, m, sel, m')
  }

  /** The memories a machine goes through, and the transitions taken between them. */
  datatype Trail = Trail(memories: seq<Memory>, sels: seq<seq<TransitionRef>>)

  ghost predicate AdvancesAt(c: WFChart, t: Trail, k: nat)
    requires |t.memories| == |t.sels| + 1 && k < |t.sels|
  {
    Advances(c, t.memories[k], t.sels[k], t.memories[k + 1])
  }

  ghost predicate IsTrail(c: WFChart, t: Trail) {
    && Orthogonal(c) && |t.memories| == |t.sels| + 1
    && Legal(c, t.memories[0].active) && HistoryValid(c, t.memories[0].hist)
    && forall k {:trigger AdvancesAt(c, t, k)} :: 0 <= k < |t.sels| ==> AdvancesAt(c, t, k)
  }

  lemma {:induction false} StepOf(c: WFChart, t: Trail, k: nat)
    requires IsTrail(c, t) && k < |t.sels|
    ensures Advances(c, t.memories[k], t.sels[k], t.memories[k + 1])
  {
    assert AdvancesAt(c, t, k);
  }

  /** The `k`-th step exits `p`. */
  ghost predicate ExitsAt(c: Chart, t: Trail, k: nat, p: int)
    requires k < |t.sels| < |t.memories|
  {
    p in Exits(c, t.memories[k].active, t.sels[k])
  }

  /** The `k`-th step is the last of the first `n` to exit `p`. */
  ghost predicate LastExit(c: Chart, t: Trail, n: nat, k: nat, p: int)
    requires n <= |t.sels| < |t.memories|
  {
    && k < n && ExitsAt(c, t, k, p)
    && forall j :: k < j < n ==> !ExitsAt(c, t, j, p)
  }

  lemma {:induction false} ExitsActive(c: Chart, active: set<int>, sel: seq<TransitionRef>)
    ensures Exits(c, active, sel) <= active
  {}

  lemma {:induction false} TrailStays(c: WFChart, t: Trail, n: nat)
    requires IsTrail(c, t) && n <= |t.sels|
    ensures Legal(c, t.memories[n].active) && HistoryValid(c, t.memories[n].hist)
  {
    if n > 0 {
      TrailStays(c, t, n - 1);
      StepOf(c, t, n - 1);
      MoveStays(c, t.memories[n - 1], t.sels[n - 1], t.memories[n]);
    }
  }

  lemma {:induction false} MoveStays(c: WFChart, m: Memory, sel: seq<TransitionRef>, m': Memory)
    requires Legal(c, m.active) && HistoryValid(c, m.hist) && Moves(c, m, sel, m')
    ensures Legal(c, m'.active) && HistoryValid(c, m'.hist)
  {
    ExitsActive(c, m.active, sel);
    RecordingKeepsValid(c, m.active, Exits(c, m.active, sel), m.hist, m'.hist);
  }

  /** `h` has stored `rec`. */
  ghost predicate Stores(c: Chart, m: Memory, h: int, rec: seq<int>) {
    Id(c, h) in m.hist && m.hist[Id(c, h)] == rec
  }

  /** What one step does to the value stored for `h`. */
  lemma {:induction false} StoredByStep(c: Chart, m: Memory, sel: seq<TransitionRef>, m': Memory, h: int, rec: seq<int>)
    requires Moves(c, m, sel, m') && 0 < h < Size(c) && Kind(c, h) == History
    requires forall a :: a in m.active ==> 0 <= a < Size(c)
    ensures Parent(c, h) in Exits(c, m.active, sel) ==> (Stores(c, m', h, rec) <==> rec == Record(c, m.active, h))
    ensures Parent(c, h) !in Exits(c, m.active, sel) ==> (Stores(c, m', h, rec) <==> Stores(c, m, h, rec))
  {
    assert h in c.heap;
    UpdatedAt(c, m.active, HistoryChildren(c, Exits(c, m.active, sel)), m.hist, m'.hist, h);
  }

  lemma {:induction false} StoredAtExit(c: WFChart, t: Trail, k: nat, h: int, rec: seq<int>)
    requires IsTrail(c, t) && k < |t.sels| && 0 < h < Size(c) && Kind(c, h) == History
    requires ExitsAt(c, t, k, Parent(c, h)) && rec == Record(c, t.memories[k].active, h)
    ensures Stores(c, t.memories[k + 1], h, rec)
  {
    TrailStays(c, t, k);
    StepOf(c, t, k);
    StoredByStep(c, t.memories[k], t.sels[k], t.memories[k + 1], h, rec);
  }

  /** What is stored does not change in a step that does not exit the parent. */
  lemma {:induction false} StoredNext(c: WFChart, t: Trail, n: nat, h: int, rec: seq<int>)
    requires IsTrail(c, t) && n < |t.sels| && 0 < h < Size(c) && Kind(c, h) == History
    requires !ExitsAt(c, t, n, Parent(c, h))
    ensures Stores(c, t.memories[n + 1], h, rec) <==> Stores(c, t.memories[n], h, rec)
  {
    TrailStays(c, t, n);
    StepOf(c, t, n);
    StoredByStep(c, t.memories[n], t.sels[n], t.memories[n + 1], h, rec);
  }

  /** No step from the `a`-th on and before the `n`-th exits `p`. */
  ghost predicate Undisturbed(c: Chart, t: Trail, a: nat, n: nat, p: int)
    requires n <= |t.sels| < |t.memories|
  {
    forall k :: a <= k < n ==> !ExitsAt(c, t, k, p)
  }

  /** What is stored does not change as long as the parent is not exited. */
  lemma {:induction false} StoredSince(c: WFChart, t: Trail, a: nat, n: nat, h: int, rec: seq<int>)
    requires IsTrail(c, t) && a <= n <= |t.sels| && 0 < h < Size(c) && Kind(c, h) == History
    requires Undisturbed(c, t, a, n, Parent(c, h))
    ensures Stores(c, t.memories[n], h, rec) <==> Stores(c, t.memories[a], h, rec)
    decreases n
  {
    if n > a {
      StoredNext(c, t, n - 1, h, rec);
      StoredSince(c, t, a, n - 1, h, rec);
    }
  }

  /** After any run, a history node has stored what was active when its parent was last exited. */
  lemma {:induction false} StoredAtLastExit(c: WFChart, t: Trail, n: nat, k: nat, h: int, rec: seq<int>)
    requires IsTrail(c, t) && n <= |t.sels| && 0 < h < Size(c) && Kind(c, h) == History
    requires LastExit(c, t, n, k, Parent(c, h)) && rec == Record(c, t.memories[k].active, h)
    ensures Stores(c, t.memories[n], h, rec)
  {
    StoredAtExit(c, t, k, h, rec);
    StoredSince(c, t, k + 1, n, h, rec);
  }

  // ---- bringing it back ----

  /** A legal configuration has a leaf below each of its states. */
  lemma {:induction false} LeafExists(c: WFChart, w: set<int>, n: int) returns (l: int)
    requires Legal(c, w) && n in w
    ensures l in w && Desc(c, l, n) && AtomicIn(c, w, l)
    decreases Size(c) - n
  {
    if AtomicIn(c, w, n) {
      l := n;
    } else {
      var ch :| ch in Children(c, n) && ch in w;
      l := LeafExists(c, w, ch);
      assert Desc(c, Parent(c, ch), n);
      DescTrans(c, l, ch, n);
    }
  }

  /** A node with a history child has an active child in every legal configuration it is in. */
  lemma {:induction false} HasActiveChild(c: WFChart, w: set<int>, h: int) returns (b: int)
    requires Legal(c, w) && 0 < h < Size(c) && Kind(c, h) == History && Parent(c, h) in w
    ensures b in Children(c, Parent(c, h)) && b in w
  {
    var p := Parent(c, h);
    assert h in Children(c, p);
    assert Settled(c, w, p);
    if Kind(c, p) == Parallel {
      b :| b in Children(c, p) && Kind(c, b) != History;
    } else {
      b :| b in Children(c, p) && b in w;
    }
  }

  /** Two legal configurations, one of which has all the other has below `p`, agree below `p`. */
  lemma {:induction false} SameBelow(c: WFChart, w: set<int>, u: set<int>, p: int, x: int)
    requires Legal(c, w) && Legal(c, u) && p in w && p in u
    requires forall n {:trigger Below(c, n, p)} :: n in w && Below(c, n, p) ==> n in u
    requires x in u && Below(c, x, p)
    ensures x in w
    decreases x
  {
    var q := Parent(c, x);
    if q != p { SameBelow(c, w, u, p, q); }
    assert Settled(c, w, q);
    assert x in Children(c, q);
    if Kind(c, q) != Parallel {
      var b :| b in Children(c, q) && b in w;
      DescBounds(c, q, p);
      assert Below(c, b, p);
      assert b != x ==> Siblings(c, b, x);
    }
  }

  /** A step takes a transition with history target `h`, for which it has `w` on record. */
  ghost predicate Revisits(c: WFChart, m: Memory, sel: seq<TransitionRef>, m': Memory, i: nat, h: int, w: set<int>) {
    && Ready(c, m.active, m'.hist, sel) && Consistent(c, m.active, sel)
    && Completes(c, Base(c, m.active, m'.hist, sel), m'.active)
    && i < |sel| && h in Targets(c, sel[i]) && 0 < h < Size(c) && Kind(c, h) == History
    && Legal(c, w) && Parent(c, h) in w
    && Stores(c, m', h, Record(c, w, h))
  }

  lemma {:induction false} StoredReentered(c: WFChart, m: Memory, sel: seq<TransitionRef>, m': Memory, i: nat, h: int,
                                           w: set<int>, x: int)
    requires Revisits(c, m, sel, m', i, h, w) && x in Record(c, w, h)
    ensures x in Landing(c, m'.hist, h) && Aimed(c, m'.hist, sel, i, h, x) && x in Base(c, m.active, m'.hist, sel)
    ensures x in m'.active
  {
    AimOnPath(c, m.active, m'.hist, sel, i, h, x, x);
  }

  lemma {:induction false} ParentReentered(c: WFChart, m: Memory, sel: seq<TransitionRef>, m': Memory, i: nat, h: int,
                                           w: set<int>)
    requires Revisits(c, m, sel, m', i, h, w)
    ensures Parent(c, h) in m'.active
  {
    assert Aim(c, m'.hist, h, Parent(c, h));
    AimOnPath(c, m.active, m'.hist, sel, i, h, Parent(c, h), Parent(c, h));
  }

  lemma {:induction false} DeepKept(c: WFChart, m: Memory, sel: seq<TransitionRef>, m': Memory, i: nat, h: int,
                                    w: set<int>, n: int)
    requires Revisits(c, m, sel, m', i, h, w) && At(c, h).history == Deep && n in w && Below(c, n, Parent(c, h))
    ensures n in m'.active
  {
    var l := LeafExists(c, w, n);
    DescTrans(c, l, n, Parent(c, h));
    DescBounds(c, l, n);
    DescBounds(c, n, Parent(c, h));
    RecordHasLeaf(c, w, h, l);
    StoredReentered(c, m, sel, m', i, h, w, l);
    ClosedUp(c, m'.active, l, n);
  }

  lemma {:induction false} RecordHasLeaf(c: Chart, w: set<int>, h: int, l: int)
    requires At(c, h).history == Deep && 0 <= l < Size(c)
    requires l in w && l != Parent(c, h) && Desc(c, l, Parent(c, h)) && AtomicIn(c, w, l)
    ensures l in Record(c, w, h)
  {
    assert l in c.heap;
  }

  /** Deep history is exact: below its parent, exactly what was on record becomes active. */
  lemma {:induction false} DeepRestores(c: WFChart, m: Memory, sel: seq<TransitionRef>, m': Memory, i: nat, h: int,
                                        w: set<int>, x: int)
    requires Revisits(c, m, sel, m', i, h, w) && At(c, h).history == Deep && 0 <= x < Size(c)
    requires Below(c, x, Parent(c, h))
    ensures x in m'.active <==> x in w
  {
    var p := Parent(c, h);
    ParentReentered(c, m, sel, m', i, h, w);
    forall n | n in w && Below(c, n, p) ensures n in m'.active {
      DeepKept(c, m, sel, m', i, h, w, n);
    }
    if x in m'.active { SameBelow(c, w, m'.active, p, x); }
  }

  /**
   Shallow history is exact: just the direct children on record become active, and all below them is at initial
   states.
   */
  lemma {:induction false} ShallowRestores(c: WFChart, m: Memory, sel: seq<TransitionRef>, m': Memory, i: nat, h: int,
                                           w: set<int>, x: int)
    requires Revisits(c, m, sel, m', i, h, w) && At(c, h).history == Shallow && 0 <= x < Size(c)
    requires Below(c, x, Parent(c, h))
    ensures Parent(c, x) == Parent(c, h) ==> (x in m'.active <==> x in w)
    ensures Parent(c, x) != Parent(c, h) && x in m'.active ==> ByDefault(c, x)
  {
    var p := Parent(c, h);
    ParentReentered(c, m, sel, m', i, h, w);
    if Parent(c, x) == p {
      assert x in Children(c, p);
      if x in w { StoredReentered(c, m, sel, m', i, h, w, x); }
      else if x in m'.active { ShallowChild(c, m, sel, m', i, h, w, x); }
    } else if x in m'.active {
      var b := Toward(c, x, p);
      ClosedUp(c, m'.active, x, b);
      ShallowChild(c, m, sel, m', i, h, w, b);
      assert b in Children(c, p);
      StoredReentered(c, m, sel, m', i, h, w, b);
      if x in Base(c, m.active, m'.hist, sel) {
        NothingBelowLanding(c, m.active, m'.hist, sel, i, h, b, x);
      }
    }
  }

  lemma {:induction false} ShallowChild(c: WFChart, m: Memory, sel: seq<TransitionRef>, m': Memory, i: nat, h: int,
                                        w: set<int>, x: int)
    requires Revisits(c, m, sel, m', i, h, w) && At(c, h).history == Shallow && x in m'.active && 0 < x
    requires Parent(c, x) == Parent(c, h)
    ensures x in w
  {
    var p := Parent(c, h);
    assert Settled(c, w, p);
    assert x in Children(c, p);
    if Kind(c, p) != Parallel {
      var b := HasActiveChild(c, w, h);
      StoredReentered(c, m, sel, m', i, h, w, b);
      assert b != x ==> Siblings(c, b, x);
    }
  }

  // ---- over whole runs ----

  lemma {:induction false} TrailReady(c: WFChart, t: Trail, n: nat)
    requires IsTrail(c, t) && n < |t.sels|
    ensures Ready(c, t.memories[n].active, t.memories[n + 1].hist, t.sels[n])
    ensures Consistent(c, t.memories[n].active, t.sels[n])
    ensures Completes(c, Base(c, t.memories[n].active, t.memories[n + 1].hist, t.sels[n]), t.memories[n + 1].active)
  {
    TrailStays(c, t, n);
    TrailStays(c, t, n + 1);
    StepOf(c, t, n);
  }

  lemma {:induction false} ExitedLegal(c: WFChart, t: Trail, k: nat, p: int)
    requires IsTrail(c, t) && k < |t.sels| && ExitsAt(c, t, k, p)
    ensures Legal(c, t.memories[k].active) && p in t.memories[k].active
  {
    TrailStays(c, t, k);
    ExitsActive(c, t.memories[k].active, t.sels[k]);
  }

  /**
   Over any run: taking a transition to a history node whose parent was last exited in step `k` (this very step
   included).
   */
  ghost predicate Returns(c: WFChart, t: Trail, n: nat, k: nat, h: int) {
    && IsTrail(c, t) && n < |t.sels| && 0 < h < Size(c) && Kind(c, h) == History
    && (exists i :: 0 <= i < |t.sels[n]| && h in Targets(c, t.sels[n][i]))
    && LastExit(c, t, n + 1, k, Parent(c, h))
  }

  lemma {:induction false} ReturnsRevisits(c: WFChart, t: Trail, n: nat, k: nat, h: int) returns (i: nat)
    requires Returns(c, t, n, k, h)
    ensures Revisits(c, t.memories[n], t.sels[n], t.memories[n + 1], i, h, t.memories[k].active)
  {
    i :| 0 <= i < |t.sels[n]| && h in Targets(c, t.sels[n][i]);
    TrailReady(c, t, n);
    StoredAtReturn(c, t, n, k, h);
    IsRevisit(c, t.memories[n], t.sels[n], t.memories[n + 1], i, h, t.memories[k].active);
  }

  lemma {:induction false} StoredAtReturn(c: WFChart, t: Trail, n: nat, k: nat, h: int)
    requires Returns(c, t, n, k, h)
    ensures var w := t.memories[k].active;
            Legal(c, w) && Parent(c, h) in w && Stores(c, t.memories[n + 1], h, Record(c, w, h))
  {
    ExitedLegal(c, t, k, Parent(c, h));
    StoredAtLastExit(c, t, n + 1, k, h, Record(c, t.memories[k].active, h));
  }

  lemma IsRevisit(c: WFChart, m: Memory, sel: seq<TransitionRef>, m': Memory, i: nat, h: int, w: set<int>)
    requires Ready(c, m.active, m'.hist, sel) && Consistent(c, m.active, sel)
    requires Completes(c, Base(c, m.active, m'.hist, sel), m'.active)
    requires i < |sel| && h in Targets(c, sel[i]) && 0 < h < Size(c) && Kind(c, h) == History
    requires Legal(c, w) && Parent(c, h) in w && Stores(c, m', h, Record(c, w, h))
    ensures Revisits(c, m, sel, m', i, h, w)
  {}

  /**
   Deep history is exact over any run: the active states below `h`'s parent become those that were active when it was
   last exited.
   */
  lemma {:induction false} DeepHistoryExact(c: WFChart, t: Trail, n: nat, k: nat, h: int, x: int)
    requires Returns(c, t, n, k, h) && At(c, h).history == Deep && 0 <= x < Size(c) && Below(c, x, Parent(c, h))
    ensures x in t.memories[n + 1].active <==> x in t.memories[k].active
  {
    var i := ReturnsRevisits(c, t, n, k, h);
    DeepRestores(c, t.memories[n], t.sels[n], t.memories[n + 1], i, h, t.memories[k].active, x);
  }

  /** Shallow history is exact over any run: the same direct children, and initial states below them. */
  lemma {:induction false} ShallowHistoryExact(c: WFChart, t: Trail, n: nat, k: nat, h: int, x: int)
    requires Returns(c, t, n, k, h) && At(c, h).history == Shallow && 0 <= x < Size(c) && Below(c, x, Parent(c, h))
    ensures Parent(c, x) == Parent(c, h) ==> (x in t.memories[n + 1].active <==> x in t.memories[k].active)
    ensures Parent(c, x) != Parent(c, h) && x in t.memories[n + 1].active ==> ByDefault(c, x)
  {
    var i := ReturnsRevisits(c, t, n, k, h);
    ShallowRestores(c, t.memories[n], t.sels[n], t.memories[n + 1], i, h, t.memories[k].active, x);
  }

  // ---- the trail of a life ----

  /** The transitions taken in one pass of the settling loop. */
  ghost function TakenIn(c: Chart, s: Loop): seq<TransitionRef> {
    if Pending(c, s) then Selected(c, s.snap, EVENTLESS)
    else if s.queue == [] then []
    else Selected(c, s.snap, s.queue[0])
  }

  ghost function RunTrail(c: Chart, run: Run): Trail
    requires |run.states| == |run.passes| + 1
  {
    Trail(seq(|run.states|, i requires 0 <= i < |run.states| => MemoryOf(run.states[i].snap)),
          seq(|run.passes|, i requires 0 <= i < |run.passes| => TakenIn(c, run.states[i])))
  }

  ghost function MacroTrail(c: Chart, cur: Snapshot, event: Event, m: Macro): Trail
    requires |m.run.states| == |m.run.passes| + 1
  {
    Join(Trail([MemoryOf(cur), MemoryOf(m.first)], [Selected(c, cur, event)]), RunTrail(c, m.run))
  }

  function Join(t: Trail, u: Trail): Trail
    requires u.memories != []
  {
    Trail(t.memories + u.memories[1..], t.sels + u.sels)
  }

  /** The microsteps of a life, one after the other. */
  ghost function LifeTrail(c: RunChart, l: Life): Trail
    requires IsLife(c, l)
  {
    if l.Born? then RunTrail(c, l.macro.run)
    else if l.Resumed? then Trail([MemoryOf(l.snap)], [])
    else if !Accepts(c, l.before.snap, l.event) then LifeTrail(c, l.before)
    else Join(LifeTrail(c, l.before), MacroTrail(c, l.before.snap, l.event, l.macro))
  }

  lemma {:induction false} Stutters(c: WFChart, m: Memory)
    requires Legal(c, m.active)
    ensures Advances(c, m, [], m)
  {
    assert Exits(c, m.active, []) == {};
    assert Paths(c, m.hist, []) == {};
    assert Base(c, m.active, m.hist, []) == m.active;
    assert HistoryChildren(c, {}) == {};
  }

  lemma {:induction false} MicrostepAdvances(c: RunChart, cur: Snapshot, event: Event, next: Snapshot,
                                             own: Surroundings, progress: bool)
    requires Good(c, cur) && IsMicrostep(c, Selected(c, cur, event), cur, event, NOTHING, next, own, progress)
    ensures Advances(c, MemoryOf(cur), Selected(c, cur, event), MemoryOf(next))
  {
    GoodTakes(c, cur, event);
    ConsistentStep(c, Selected(c, cur, event), cur, event, NOTHING, next, own, progress);
  }

  lemma {:induction false} PassAdvances(c: RunChart, run: Run, k: nat)
    requires IsRun(c, run) && k < |run.passes| && Good(c, run.states[k].snap)
    ensures Advances(c, MemoryOf(run.states[k].snap), TakenIn(c, run.states[k]), MemoryOf(run.states[k + 1].snap))
  {
    var s, pass, s' := run.states[k], run.passes[k], run.states[k + 1];
    IterationOf(c, run, k, s, pass, s');
    var own := Surroundings(pass.effects, pass.raised);
    if Pending(c, s) {
      MicrostepAdvances(c, s.snap, EVENTLESS, s'.snap, own, s'.armed);
    } else if Selected(c, s.snap, s.queue[0]) != [] {
      var progress := Took(c, s, Selected(c, s.snap, s.queue[0]), s.queue[0], pass, s'.snap, true);
      MicrostepAdvances(c, s.snap, s.queue[0], s'.snap, own, progress);
    } else {
      Stutters(c, MemoryOf(s.snap));
    }
  }

  lemma {:induction false} RunStep(c: RunChart, run: Run, k: nat)
    requires IsRun(c, run) && Good(c, run.states[0].snap) && k < |run.passes|
    ensures Advances(c, MemoryOf(run.states[k].snap), TakenIn(c, run.states[k]), MemoryOf(run.states[k + 1].snap))
  {
    RunKeepsGood(c, run, k);
    PassAdvances(c, run, k);
  }

  lemma {:induction false} RunIsTrail(c: RunChart, run: Run) returns (t: Trail)
    requires IsRun(c, run) && Good(c, run.states[0].snap)
    ensures t == RunTrail(c, run) && IsTrail(c, t)
    ensures t.memories[0] == MemoryOf(run.states[0].snap) && t.memories[|t.sels|] == MemoryOf(Last(run).snap)
  {
    t := RunTrail(c, run);
    forall k | 0 <= k < |t.sels| ensures AdvancesAt(c, t, k) {
      RunStep(c, run, k);
    }
  }

  lemma {:induction false} StepIsTrail(c: WFChart, m: Memory, sel: seq<TransitionRef>, m': Memory) returns (t: Trail)
    requires Orthogonal(c) && Legal(c, m.active) && HistoryValid(c, m.hist) && Advances(c, m, sel, m')
    ensures t == Trail([m, m'], [sel]) && IsTrail(c, t)
  {
    t := Trail([m, m'], [sel]);
  }

  lemma JoinAtLeft(t: Trail, u: Trail, k: nat)
    requires |t.memories| == |t.sels| + 1 && |u.memories| == |u.sels| + 1 && k < |t.sels|
    ensures var v := Join(t, u);
            v.memories[k] == t.memories[k] && v.sels[k] == t.sels[k] && v.memories[k + 1] == t.memories[k + 1]
  {}

  lemma JoinAtRight(t: Trail, u: Trail, k: nat)
    requires |t.memories| == |t.sels| + 1 && |u.memories| == |u.sels| + 1 && k < |u.sels|
    requires t.memories[|t.sels|] == u.memories[0]
    ensures var v, n := Join(t, u), |t.sels| + k;
            v.memories[n] == u.memories[k] && v.sels[n] == u.sels[k] && v.memories[n + 1] == u.memories[k + 1]
  {}

  lemma {:induction false} JoinLeft(c: WFChart, t: Trail, u: Trail, k: nat)
    requires IsTrail(c, t) && |u.memories| == |u.sels| + 1 && k < |t.sels|
    ensures AdvancesAt(c, Join(t, u), k)
  {
    StepOf(c, t, k);
    JoinAtLeft(t, u, k);
  }

  lemma {:induction false} JoinRight(c: WFChart, t: Trail, u: Trail, k: nat)
    requires IsTrail(c, u) && |t.memories| == |t.sels| + 1 && k < |u.sels| && t.memories[|t.sels|] == u.memories[0]
    ensures AdvancesAt(c, Join(t, u), |t.sels| + k)
  {
    StepOf(c, u, k);
    JoinAtRight(t, u, k);
  }

  lemma {:induction false} JoinStep(c: WFChart, t: Trail, u: Trail, k: nat)
    requires IsTrail(c, t) && IsTrail(c, u) && t.memories[|t.sels|] == u.memories[0] && k < |t.sels| + |u.sels|
    ensures AdvancesAt(c, Join(t, u), k)
  {
    if k < |t.sels| {
      JoinLeft(c, t, u, k);
    } else {
      var j := k - |t.sels|;
      JoinRight(c, t, u, j);
      assert k == |t.sels| + j;
    }
  }

  lemma JoinEnds(t: Trail, u: Trail)
    requires |t.memories| == |t.sels| + 1 && |u.memories| == |u.sels| + 1 && t.memories[|t.sels|] == u.memories[0]
    ensures var v := Join(t, u);
            && |v.memories| == |v.sels| + 1 && |v.sels| == |t.sels| + |u.sels|
            && v.memories[0] == t.memories[0] && v.memories[|v.sels|] == u.memories[|u.sels|]
  {}

  lemma {:induction false} JoinIsTrail(c: WFChart, t: Trail, u: Trail) returns (v: Trail)
    requires IsTrail(c, t) && IsTrail(c, u) && t.memories[|t.sels|] == u.memories[0]
    ensures v == Join(t, u) && IsTrail(c, v)
    ensures v.memories[0] == t.memories[0] && v.memories[|v.sels|] == u.memories[|u.sels|]
  {
    v := Join(t, u);
    JoinEnds(t, u);
    forall k | 0 <= k < |v.sels| ensures AdvancesAt(c, v, k) {
      JoinStep(c, t, u, k);
    }
  }

  lemma {:induction false} MacroIsTrail(c: RunChart, cur: Snapshot, event: Event, m: Macro, next: Snapshot,
                                        effects: seq<Effect>) returns (t: Trail)
    requires Good(c, cur) && Accepts(c, cur, event) && IsMacrostep(c, cur, event, m, next, effects)
    ensures |m.run.states| == |m.run.passes| + 1 && t == MacroTrail(c, cur, event, m) && IsTrail(c, t)
    ensures t.memories[0] == MemoryOf(cur) && t.memories[|t.sels|] == MemoryOf(next)
  {
    MacrostepGood(c, cur, event, m, next, effects);
    var t1 := RunIsTrail(c, m.run);
    MicrostepAdvances(c, cur, event, m.first, m.own, m.progress);
    var t0 := StepIsTrail(c, MemoryOf(cur), Selected(c, cur, event), MemoryOf(m.first));
    t := JoinIsTrail(c, t0, t1);
  }

  /** The microsteps of a life form a trail, so all of the above holds of every life. */
  lemma {:induction false} LifeIsTrail(c: RunChart, l: Life) returns (t: Trail)
    requires IsLife(c, l)
    ensures t == LifeTrail(c, l) && IsTrail(c, t) && t.memories[|t.sels|] == MemoryOf(l.snap)
  {
    if l.Born? {
      InitialStepGood(c, l.ctx, l.macro.first, l.macro.own);
      t := RunIsTrail(c, l.macro.run);
      assert MemoryOf(l.snap) == MemoryOf(Last(l.macro.run).snap);
    } else if l.Resumed? {
      t := Trail([MemoryOf(l.snap)], []);
    } else {
      var b := l.before;
      t := LifeIsTrail(c, b);
      if Accepts(c, b.snap, l.event) {
        EverySnapshotGood(c, b);
        var u := MacroIsTrail(c, b.snap, l.event, l.macro, l.snap, l.effects);
        t := JoinIsTrail(c, t, u);
      }
    }
  }
}
