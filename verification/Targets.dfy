/**
 Where the targets of transitions lead, history included, and why what they
 ask for fits together with what stays active.
 */
module Targeting {
  import opened Basics
  import opened StateNodes
  import opened Configurations

  type HistoryMap = map<string, seq<int>>

  /** No child of `a` is in `s`. */
  predicate AtomicIn(c: Chart, s: set<int>, a: int) {
    forall ch :: ch in Children(c, a) ==> ch !in s
  }

  /** What a history node `h` records when its parent is exited while `active` is active. */
  function Record(c: Chart, active: set<int>, h: int): seq<int> {
    var p := Parent(c, h);
    if At(c, h).history == Shallow then Restrict(Children(c, p), active)
    else Restrict(c.heap, set a | a in active && a != p && Desc(c, a, p) && AtomicIn(c, active, a))
  }

  /** Every recorded value was recorded in a legal configuration with the history node's parent active. */
  ghost predicate HistoryValid(c: Chart, hist: HistoryMap) {
    forall h {:trigger Id(c, h) in hist} :: 0 < h < Size(c) && Kind(c, h) == History && Id(c, h) in hist ==>
      exists w :: Legal(c, w) && Parent(c, h) in w && hist[Id(c, h)] == Record(c, w, h)
  }

  function Stored(c: Chart, hist: HistoryMap, h: int): seq<int> {
    if Id(c, h) in hist then hist[Id(c, h)] else []
  }

  /** A history node with nothing stored leads to its default. */
  function StoredOrDefault(c: Chart, hist: HistoryMap, h: int): seq<int> {
    if Stored(c, hist, h) != [] then Stored(c, hist, h)
    else if Default(c, h) != NULL then [Default(c, h)]
    else []
  }

  /** The nodes a target leads to: itself, or what its history node resolves to. */
  function Landing(c: Chart, hist: HistoryMap, t: int): seq<int> {
    if Kind(c, t) != History then [t]
    else if StoredOrDefault(c, hist, t) != [] then StoredOrDefault(c, hist, t)
    else
      var i := Initial(c, Parent(c, t));
      if i == NULL then [] else if Kind(c, i) == History then StoredOrDefault(c, hist, i) else [i]
  }

  /** `x` is among the nodes that target `t` asks for. */
  ghost predicate Aim(c: Chart, hist: HistoryMap, t: int, x: int) {
    x == Anchor(c, t) || x in Landing(c, hist, t)
  }

  lemma {:induction false} RecordMembers(c: WFChart, w: set<int>, h: int, x: int)
    requires Legal(c, w) && x in Record(c, w, h) && 0 < h < Size(c)
    ensures x in w && Below(c, x, Parent(c, h))
    ensures At(c, h).history == Shallow ==> Parent(c, x) == Parent(c, h)
    ensures At(c, h).history == Deep ==> AtomicIn(c, w, x)
  {
    if At(c, h).history == Shallow {
      assert x in Children(c, Parent(c, h));
      assert Desc(c, Parent(c, x), Parent(c, h));
    }
  }

  /** Landing nodes are proper states at or below the anchor. */
  lemma {:induction false} LandingBelow(c: WFChart, hist: HistoryMap, t: int, x: int)
    requires HistoryValid(c, hist) && 0 <= t < Size(c) && x in Landing(c, hist, t)
    ensures 0 <= x < Size(c) && Kind(c, x) != History && Desc(c, x, Anchor(c, t))
  {
    if Kind(c, t) == History {
      var i := Initial(c, Parent(c, t));
      if StoredOrDefault(c, hist, t) != [] {
        StoredBelow(c, hist, t, x);
      } else {
        assert i in Children(c, Parent(c, t));
        if Kind(c, i) == History { StoredBelow(c, hist, i, x); }
        else { assert Desc(c, Parent(c, i), Parent(c, t)); }
      }
    }
  }

  lemma {:induction false} StoredBelow(c: WFChart, hist: HistoryMap, h: int, x: int)
    requires HistoryValid(c, hist) && 0 < h < Size(c) && Kind(c, h) == History && x in StoredOrDefault(c, hist, h)
    ensures 0 <= x < Size(c) && Kind(c, x) != History && Desc(c, x, Parent(c, h))
  {
    if Stored(c, hist, h) != [] {
      assert Id(c, h) in hist;
      var w :| Legal(c, w) && Parent(c, h) in w && hist[Id(c, h)] == Record(c, w, h);
      RecordMembers(c, w, h, x);
    } else {
      assert Desc(c, Parent(c, x), Parent(c, h));
    }
  }

  lemma {:induction false} AimBelow(c: WFChart, hist: HistoryMap, t: int, x: int)
    requires HistoryValid(c, hist) && 0 <= t < Size(c) && Aim(c, hist, t, x)
    ensures 0 <= x < Size(c) && Kind(c, x) != History && Desc(c, x, Anchor(c, t))
  {
    if x == Anchor(c, t) {
      if Kind(c, t) == History { assert t in Children(c, x); }
    } else {
      LandingBelow(c, hist, t, x);
    }
  }

  /** Two landing nodes of one target were active together once, as siblings or without active children. */
  lemma {:induction false} LandedTogether(c: WFChart, hist: HistoryMap, t: int, x: int, y: int) returns (w: set<int>)
    requires HistoryValid(c, hist) && 0 <= t < Size(c) && x != y
    requires x in Landing(c, hist, t) && y in Landing(c, hist, t)
    ensures Legal(c, w) && x in w && y in w && (Parent(c, x) == Parent(c, y) || AtomicIn(c, w, x))
  {
    var i := Initial(c, Parent(c, t));
    var h := if StoredOrDefault(c, hist, t) != [] then t else i;
    assert h == i ==> i in Children(c, Parent(c, t));
    assert Id(c, h) in hist;
    w :| Legal(c, w) && Parent(c, h) in w && hist[Id(c, h)] == Record(c, w, h);
    RecordMembers(c, w, h, x);
    RecordMembers(c, w, h, y);
  }

  // ---- aims do not conflict ----

  lemma {:induction false} AimsOfOneTarget(c: WFChart, hist: HistoryMap, t: int, x: int, y: int, a: int, b: int)
    requires HistoryValid(c, hist) && 0 <= t < Size(c) && Aim(c, hist, t, x) && Aim(c, hist, t, y)
    requires Siblings(c, a, b) && Desc(c, x, a) && Desc(c, y, b)
    ensures Kind(c, Parent(c, a)) == Parallel
  {
    AimBelow(c, hist, t, x);
    AimBelow(c, hist, t, y);
    if x == Anchor(c, t) {
      DescTrans(c, y, x, a);
      SiblingAncestors(c, y, a, b);
    } else if y == Anchor(c, t) {
      DescTrans(c, x, y, b);
      SiblingAncestors(c, x, a, b);
    } else if x == y {
      SiblingAncestors(c, x, a, b);
    } else {
      var w := LandedTogether(c, hist, t, x, y);
      ClosedUp(c, w, x, a);
      ClosedUp(c, w, y, b);
    }
  }

  lemma {:induction false} AimsOfTwoTargets(c: WFChart, hist: HistoryMap, t: int, u: int, x: int, y: int, a: int,
                                            b: int)
    requires HistoryValid(c, hist) && 0 <= t < Size(c) && 0 <= u < Size(c) && Apart(c, Anchor(c, t), Anchor(c, u))
    requires Aim(c, hist, t, x) && Aim(c, hist, u, y)
    requires Siblings(c, a, b) && Desc(c, x, a) && Desc(c, y, b)
    ensures Kind(c, Parent(c, a)) == Parallel
  {
    var p, q := Anchor(c, t), Anchor(c, u);
    AimBelow(c, hist, t, x);
    AimBelow(c, hist, u, y);
    AimReaches(c, x, y, a, b, p, q);
    AimReaches(c, y, x, b, a, q, p);
  }

  /** The path to `x` cannot leave the path to `y` below the anchor `p` of `x`. */
  lemma {:induction false} AimReaches(c: Chart, x: int, y: int, a: int, b: int, p: int, q: int)
    requires 0 <= x < Size(c) && 0 <= y < Size(c) && Desc(c, x, p) && Desc(c, y, q)
    requires !Desc(c, p, q) && !Desc(c, q, p)
    requires Siblings(c, a, b) && Desc(c, x, a) && Desc(c, y, b)
    ensures Desc(c, p, a)
  {
    AncestorsComparable(c, x, p, a);
    if !Desc(c, p, a) {
      BelowParent(c, a, p);
      assert Desc(c, b, p);
      DescTrans(c, y, b, p);
      AncestorsComparable(c, y, p, q);
      assert false;
    }
  }

  /** No aim of a target lies above a landing node of it. */
  lemma {:induction false} LandingIncomparable(c: WFChart, hist: HistoryMap, t: int, x: int, y: int, n: int)
    requires HistoryValid(c, hist) && 0 <= t < Size(c) && x in Landing(c, hist, t) && Aim(c, hist, t, y)
    requires 0 <= n < Size(c) && Desc(c, y, n)
    ensures !Below(c, n, x)
  {
    if Below(c, n, x) {
      LandingBelow(c, hist, t, x);
      AimBelow(c, hist, t, y);
      DescTrans(c, y, n, x);
      DescBounds(c, y, n);
      DescBounds(c, n, x);
      DescBounds(c, x, Anchor(c, t));
      assert y != Anchor(c, t) && y != x;
      var w := LandedTogether(c, hist, t, x, y);
      if Parent(c, x) == Parent(c, y) {
        SiblingAncestors(c, y, x, y);
        assert false;
      } else {
        var b := Toward(c, n, x);
        assert b in Children(c, x);
        ClosedUp(c, w, y, n);
        ClosedUp(c, w, n, b);
        assert false;
      }
    }
  }
}
