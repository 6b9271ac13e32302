/** Matching: when a state value covers another, and when it covers a dotted path. */
module Paths {
  import opened Basics
  import opened StateNodes
  import opened Configurations
  import opened StateValues
  import opened Microsteps
  import opened Selection
  import opened Persistence

  // ---- covering is a partial order ----

  /** A leaf name or branches, not both: the only values the library builds. */
  predicate Proper(v: StateValue) {
    (v.leaf == "" || v.branches == map[]) && forall k :: k in v.branches ==> Proper(v.branches[k])
  }

  lemma {:induction false} ContainsReflexive(v: StateValue)
    ensures v.Contains(v)
  {
    forall k | k in v.branches ensures v.branches[k].Contains(v.branches[k]) { ContainsReflexive(v.branches[k]); }
  }

  lemma {:induction false} ContainsTransitive(u: StateValue, v: StateValue, w: StateValue)
    requires u.Contains(v) && v.Contains(w)
    ensures u.Contains(w)
    decreases w
  {
    if !w.Empty() && !v.IsLeaf() && !w.IsLeaf() {
      assert !v.Empty() by { ProperBranches(w); }
      forall k | k in w.branches ensures k in u.branches && u.branches[k].Contains(w.branches[k]) {
        ContainsTransitive(u.branches[k], v.branches[k], w.branches[k]);
      }
    }
  }

  /** Neither empty nor a leaf: there are branches. */
  lemma ProperBranches(w: StateValue)
    requires !w.Empty() && !w.IsLeaf()
    ensures exists k :: k in w.branches
  {
    assert w.branches.Keys == {} ==> w.branches == map[];
    var k :| k in w.branches.Keys;
  }

  lemma {:induction false} ContainsAntisymmetric(u: StateValue, v: StateValue)
    requires Proper(u) && Proper(v) && u.Contains(v) && v.Contains(u)
    ensures u == v
    decreases v
  {
    if !u.Empty() && !v.Empty() && !u.IsLeaf() && !v.IsLeaf() {
      forall k | k in v.branches ensures k in u.branches && u.branches[k] == v.branches[k] {
        ContainsAntisymmetric(u.branches[k], v.branches[k]);
      }
      assert forall k :: k in u.branches ==> k in v.branches;
      assert u.branches == v.branches;
    }
  }

  /** The values of paths are proper. */
  lemma {:induction false} PathProper(p: string)
    ensures Proper(FromPath(p))
    decreases |p|
  {
    var dot := FindDot(p);
    if dot < |p| { PathProper(p[dot + 1..]); }
  }

  /** So are the values of configurations. */
  lemma {:induction false} ValueProper(c: Chart, n: int, active: set<int>)
    ensures Proper(ValueOf(c, n, active))
    decreases Size(c) - n, 1, 0
  {
    if Kind(c, n) == Parallel { RegionsProper(c, n, |Children(c, n)|, active); }
    else { ActiveChildProper(c, n, 0, active); }
  }

  lemma {:induction false} RegionsProper(c: Chart, n: int, k: nat, active: set<int>)
    requires k <= |Children(c, n)|
    ensures forall key :: key in RegionValues(c, n, k, active) ==> Proper(RegionValues(c, n, k, active)[key])
    decreases Size(c) - n, 0, k
  {
    if k > 0 {
      assert Children(c, n)[k - 1] in Children(c, n);
      RegionsProper(c, n, k - 1, active);
      ValueProper(c, Children(c, n)[k - 1], active);
    }
  }

  lemma {:induction false} ActiveChildProper(c: Chart, n: int, k: nat, active: set<int>)
    requires k <= |Children(c, n)|
    ensures Proper(ActiveChildValue(c, n, k, active))
    decreases Size(c) - n, 0, |Children(c, n)| - k
  {
    if k < |Children(c, n)| {
      var ch := Children(c, n)[k];
      assert ch in Children(c, n);
      if ch in active { ValueProper(c, ch, active); } else { ActiveChildProper(c, n, k + 1, active); }
    }
  }

  // ---- paths ----

  /** Walking down from `n` along the segments of `p` stays among active states. */
  predicate Walks(c: Chart, active: set<int>, n: int, p: string)
    decreases |p|
  {
    var dot := FindDot(p);
    ChildNamed(c, n, p[..dot]) in active && (dot < |p| ==> Walks(c, active, ChildNamed(c, n, p[..dot]), p[dot + 1..]))
  }

  /** No segment of `p` is empty. */
  predicate Whole(p: string)
    decreases |p|
  {
    var dot := FindDot(p);
    dot > 0 && (dot < |p| ==> Whole(p[dot + 1..]))
  }

  /** Walking to the end, where an empty last segment is good only at a state that has a value of its own. */
  predicate Reaches(c: Chart, active: set<int>, n: int, p: string)
    decreases |p|
  {
    var dot := FindDot(p);
    var b := ChildNamed(c, n, p[..dot]);
    if dot == |p| then p == "" || b in active
    else dot > 0 && b in active && (Kind(c, n) == Parallel
                                    || Children(c, b) != []) && Reaches(c, active, b, p[dot + 1..])
  }

  lemma {:induction false} NamedRange(c: Chart, n: int, k: string, active: set<int>)
    requires Closed(c, active) && ChildNamed(c, n, k) in active
    ensures ChildNamed(c, n, k) in Children(c, n) && At(c, ChildNamed(c, n, k)).key == k
  {
    FirstNamedMember(c, Children(c, n), k);
  }

  lemma {:induction false} FirstNamedMember(c: Chart, cs: seq<int>, k: string)
    requires FirstNamed(c, cs, k) != NULL
    ensures FirstNamed(c, cs, k) in cs && At(c, FirstNamed(c, cs, k)).key == k
  {
    if At(c, cs[0]).key != k { FirstNamedMember(c, cs[1..], k); }
  }

  /** What a region's name finds in the value of a parallel state. */
  lemma {:induction false} ParallelBranch(c: WFChart, active: set<int>, n: int, k: string)
    requires Named(c) && Legal(c, active) && n in active && Kind(c, n) == Parallel
    ensures var v, b := ValueOf(c, n, active), ChildNamed(c, n, k);
            && !v.Empty() && !v.IsLeaf()
            && (k in v.branches <==> b in active)
            && (b in active ==> v.branches[k] == ValueOf(c, b, active))
  {
    var v, b := ValueOf(c, n, active), ChildNamed(c, n, k);
    ValueEmpty(c, active, n);
    assert Settled(c, active, n);
    if k in v.branches {
      var j := RegionKey(c, n, |Children(c, n)|, active, k);
      assert Children(c, n)[j] in Children(c, n);
      ChildFound(c, n, Children(c, n)[j]);
      RegionActive(c, active, n, b);
    }
    if b in active {
      NamedRange(c, n, k, active);
      var j :| 0 <= j < |Children(c, n)| && Children(c, n)[j] == b;
      RegionValueOf(c, n, |Children(c, n)|, active, j);
    }
  }

  /** What a name finds in the value of any other active state. */
  lemma {:induction false} OtherBranch(c: WFChart, active: set<int>, n: int, k: string)
    requires Named(c) && Legal(c, active) && n in active && Kind(c, n) != Parallel
    ensures var v, b := ValueOf(c, n, active), ChildNamed(c, n, k);
            && (Children(c, n) == [] <==> v.Empty())
            && (v.IsLeaf() && v.leaf == k <==> b in active && Children(c, b) == [])
            && (k in v.branches <==> b in active && Children(c, b) != [])
            && (k in v.branches ==> v.branches[k] == ValueOf(c, b, active))
  {
    var v, b := ValueOf(c, n, active), ChildNamed(c, n, k);
    ValueEmpty(c, active, n);
    if b in active { NamedRange(c, n, k, active); }
    if Children(c, n) == [] {
      NoActiveChild(c, n, 0, active);
    } else {
      var a := OnlyChild(c, active, n);
      ActiveChildIs(c, n, 0, active, a);
      ChildFound(c, n, a);
      ValueEmpty(c, active, a);
    }
  }

  lemma {:induction false} ContainsBranch(v: StateValue, k: string, sub: StateValue)
    ensures v.Contains(BranchesOf(map[k := sub])) <==> !v.IsLeaf() && k in v.branches && v.branches[k].Contains(sub)
  {
    var w := BranchesOf(map[k := sub]);
    assert k in w.branches && w.branches[k] == sub;
    assert w.branches != map[];
  }

  /** Covering a path is reaching its end among active states. */
  lemma {:induction false} PathMatches(c: WFChart, active: set<int>, n: int, p: string)
    requires Named(c) && Legal(c, active) && n in active
    ensures ValueOf(c, n, active).Contains(FromPath(p)) <==> Reaches(c, active, n, p)
    decreases |p|
  {
    var dot := FindDot(p);
    var k := p[..dot];
    var b := ChildNamed(c, n, k);
    if b in active {
      NamedRange(c, n, k, active);
      assert 0 < b < Size(c) && At(c, b).key != "";
    }
    if dot < |p| {
      var rest := p[dot + 1..];
      ContainsBranch(ValueOf(c, n, active), k, FromPath(rest));
      if b in active { PathMatches(c, active, b, rest); }
      SegmentMatches(c, active, n, k);
    } else {
      assert k == p;
      SegmentMatches(c, active, n, p);
    }
  }

  /** What one segment finds. */
  lemma {:induction false} SegmentMatches(c: WFChart, active: set<int>, n: int, k: string)
    requires Named(c) && Legal(c, active) && n in active
    ensures var v, b := ValueOf(c, n, active), ChildNamed(c, n, k);
            && (k != "" ==> (v.Contains(Leaf(k)) <==> b in active))
            && (!v.IsLeaf() && k in v.branches <==> b in active && (Kind(c, n) == Parallel || Children(c, b) != []))
            && (k in v.branches ==> v.branches[k] == ValueOf(c, b, active))
  {
    if Kind(c, n) == Parallel { ParallelBranch(c, active, n, k); } else { OtherBranch(c, active, n, k); }
  }

  lemma {:induction false} WholeReaches(c: Chart, active: set<int>, n: int, p: string)
    requires Whole(p) && Closed(c, active)
    ensures Reaches(c, active, n, p) <==> Walks(c, active, n, p)
    decreases |p|
  {
    var dot := FindDot(p);
    var b := ChildNamed(c, n, p[..dot]);
    if dot < |p| {
      WholeReaches(c, active, b, p[dot + 1..]);
      if Walks(c, active, b, p[dot + 1..]) {
        NamedRange(c, b, p[dot + 1..][..FindDot(p[dot + 1..])], active);
      }
    }
  }

  /**
   `matches`: in a legal configuration, a path without empty segments is covered exactly if walking it from the root
   reaches an active state.
   */
  lemma {:induction false} MatchesExact(c: WFChart, active: set<int>, p: string)
    requires Named(c) && Legal(c, active) && Whole(p)
    ensures ValueOf(c, 0, active).Contains(FromPath(p)) <==> Walks(c, active, 0, p)
  {
    PathMatches(c, active, 0, p);
    WholeReaches(c, active, 0, p);
  }

  /** A state guard with such a path holds, in a legal configuration, exactly if the walk reaches an active state. */
  lemma {:induction false} StateInExact(c: WFChart, snap: Snapshot, event: Event, p: string)
    requires Named(c) && Legal(c, Elems(snap.configuration)) && Whole(p)
    requires snap.value == ValueOf(c, 0, Elems(snap.configuration))
    ensures EvaluateGuard(StateIn(p), snap, event) <==> Walks(c, Elems(snap.configuration), 0, p)
  {
    MatchesExact(c, Elems(snap.configuration), p);
  }
}
