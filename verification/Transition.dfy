/** What a transition exits and where it leads. */
module Transitions {
  import opened Basics
  import opened StateNodes

  // ---- domains and exit sets ----

  /**
   The nearest of `a` and its ancestors that is not parallel and properly contains all of `targets`; the root if none
   is.
   */
  function LowestCover(c: Chart, a: int, targets: seq<int>): int
    decreases a
  {
    if !(0 <= a < Size(c)) then 0
    else if Kind(c, a) != Parallel && (forall t :: t in targets ==> t != a && Desc(c, t, a)) then a
    else if Parent(c, a) < a then LowestCover(c, Parent(c, a), targets)
    else 0
  }

  /** The node whose active descendants a transition exits. */
  function Domain(c: Chart, t: TransitionRef): int {
    if Targets(c, t) == [] then NULL
    else if !Def(c, t).reenter && (forall x :: x in Targets(c, t) ==> Desc(c, x, t.source)) then t.source
    else LowestCover(c, Parent(c, t.source), Targets(c, t))
  }

  method TransitionDomain(c: Chart, t: TransitionRef) returns (d: int)
    requires 0 <= t.source < Size(c) && forall x :: x in Targets(c, t) ==> 0 <= x < Size(c)
    ensures d == Domain(c, t)
  {
    var targets := Targets(c, t);
    if targets == [] { return NULL; }
    if !Def(c, t).reenter {
      var allInside := AllBelow(c, targets, t.source, false);
      if allInside { return t.source; }
    }
    var a := Parent(c, t.source);
    while a != NULL
      invariant -1 <= a < Size(c)
      invariant LowestCover(c, Parent(c, t.source), targets) == LowestCover(c, a, targets)
    {
      var coversAll := AllBelow(c, targets, a, true);
      if coversAll && Kind(c, a) != Parallel { return a; }
      a := Parent(c, a);
    }
    return 0;
  }

  /** Whether all targets lie below `a`, `a` itself excluded when `proper`. */
  method AllBelow(c: Chart, targets: seq<int>, a: int, proper: bool) returns (all: bool)
    requires 0 <= a < Size(c) && forall x :: x in targets ==> 0 <= x < Size(c)
    ensures all <==> forall x :: x in targets ==> Desc(c, x, a) && (proper ==> x != a)
  {
    for i := 0 to |targets|
      invariant forall x :: x in targets[..i] ==> Desc(c, x, a) && (proper ==> x != a)
    {
      var x := targets[i];
      assert x in targets;
      var inside := IsDescendantOf(c, x, a);
      if !inside || (proper && x == a) { return false; }
      TakeNext(targets, i);
    }
    assert targets[..|targets|] == targets;
    return true;
  }

  /** The active nodes strictly below the domain. */
  function ExitSet(c: Chart, active: set<int>, t: TransitionRef): set<int> {
    if Targets(c, t) == [] then {} else set n | n in active && n != Domain(c, t) && Desc(c, n, Domain(c, t))
  }

  method ComputeExitSet(c: Chart, active: set<int>, t: TransitionRef) returns (out: set<int>)
    requires 0 <= t.source < Size(c) && forall x :: x in Targets(c, t) ==> 0 <= x < Size(c)
    requires forall n :: n in active ==> 0 <= n < Size(c)
    ensures out == ExitSet(c, active, t)
  {
    out := {};
    if Targets(c, t) == [] { return; }
    var domain := TransitionDomain(c, t);
    LowestCoverInRange(c, Parent(c, t.source), Targets(c, t));
    var order := Restrict(c.heap, active);
    for i := 0 to |order|
      invariant out == set n | n in order[..i] && n != domain && Desc(c, n, domain)
    {
      var n := order[i];
      assert n in order;
      if n != domain {
        var inside := IsDescendantOf(c, n, domain);
        if inside { out := out + {n}; }
      }
      TakeNext(order, i);
    }
    assert order[..|order|] == order;
    assert forall n :: n in order <==> n in active;
  }

  lemma {:induction false} LowestCoverInRange(c: Chart, a: int, targets: seq<int>)
    ensures 0 <= LowestCover(c, a, targets) < Size(c)
    decreases a
  {
    if 0 <= Parent(c, a) < a { LowestCoverInRange(c, Parent(c, a), targets); }
  }

  lemma {:induction false} LowestCoverCovers(c: Chart, n: int, a: int, targets: seq<int>)
    requires 0 <= n < Size(c) && (0 <= a ==> Desc(c, n, a))
    requires forall x :: x in targets ==> 0 <= x < Size(c)
    ensures Desc(c, n, LowestCover(c, a, targets)) && 0 <= LowestCover(c, a, targets) < Size(c)
    ensures forall x :: x in targets ==> Desc(c, x, LowestCover(c, a, targets))
    decreases a
  {
    LowestCoverInRange(c, a, targets);
    DescRoot(c, n);
    forall x | x in targets ensures Desc(c, x, 0) { DescRoot(c, x); }
    if 0 <= a {
      DescBounds(c, n, a);
      if 0 <= Parent(c, a) < a {
        assert Desc(c, a, Parent(c, a));
        DescTrans(c, n, a, Parent(c, a));
        LowestCoverCovers(c, n, Parent(c, a), targets);
      }
    }
  }

  /** The domain contains the source and all the targets. */
  lemma {:induction false} DomainContains(c: Chart, t: TransitionRef)
    requires 0 <= t.source < Size(c) && Targets(c, t) != []
    requires forall x :: x in Targets(c, t) ==> 0 <= x < Size(c)
    ensures 0 <= Domain(c, t) < Size(c) && Desc(c, t.source, Domain(c, t))
    ensures forall x :: x in Targets(c, t) ==> Desc(c, x, Domain(c, t))
  {
    var p := Parent(c, t.source);
    assert 0 <= p ==> Desc(c, p, p) && Desc(c, t.source, p);
    LowestCoverCovers(c, t.source, p, Targets(c, t));
  }

  // ---- which node the domain is ----

  /** `t` leads only to its source and below it, and does not reenter it. */
  ghost predicate Internal(c: Chart, t: TransitionRef) {
    !Def(c, t).reenter && forall x :: x in Targets(c, t) ==> Desc(c, x, t.source)
  }

  /** `a` lies properly above all of `targets` and is not parallel. */
  ghost predicate Covers(c: Chart, a: int, targets: seq<int>) {
    Kind(c, a) != Parallel && forall x :: x in targets ==> Below(c, x, a)
  }

  lemma {:induction false} LowestCoverExact(c: Chart, a: int, targets: seq<int>)
    requires -1 <= a < Size(c)
    ensures var d := LowestCover(c, a, targets);
            && (d == 0 || (0 <= a && Desc(c, a, d) && Covers(c, d, targets)))
            && (forall b :: 0 <= a && Desc(c, a, b) && Covers(c, b, targets) ==> Desc(c, d, b))
    decreases a
  {
    if 0 <= a && !Covers(c, a, targets) {
      var p := Parent(c, a);
      LowestCoverExact(c, p, targets);
      if 0 <= p {
        var d := LowestCover(c, p, targets);
        assert Desc(c, a, p);
        if d != 0 { DescTrans(c, a, p, d); }
      }
      forall b | Desc(c, a, b) && Covers(c, b, targets) ensures Desc(c, LowestCover(c, a, targets), b) {
        assert b != a;
      }
    }
  }

  /**
   The domain of an internal transition is its source. That of any other is
   the root or a proper ancestor of the source that is not parallel and
   properly contains all targets, and it is the lowest of these.
   */
  lemma {:induction false} DomainExact(c: Chart, t: TransitionRef)
    requires 0 <= t.source < Size(c) && Targets(c, t) != []
    ensures Internal(c, t) ==> Domain(c, t) == t.source
    ensures !Internal(c, t) ==>
      Domain(c, t) == 0 || (Below(c, t.source, Domain(c, t)) && Covers(c, Domain(c, t), Targets(c, t)))
    ensures !Internal(c, t) ==> forall a ::
      Below(c, t.source, a) && Covers(c, a, Targets(c, t)) ==> Desc(c, Domain(c, t), a)
  {
    var p := Parent(c, t.source);
    LowestCoverExact(c, p, Targets(c, t));
    if 0 <= p {
      assert Desc(c, t.source, p);
      var d := LowestCover(c, p, Targets(c, t));
      if d != 0 {
        DescTrans(c, t.source, p, d);
        DescBounds(c, p, d);
      }
    }
  }

  /** A transition that stays properly inside a state that is not parallel does not exit it. */
  lemma {:induction false} InsideNotExited(c: Chart, active: set<int>, t: TransitionRef, a: int)
    requires 0 <= t.source < Size(c) && Below(c, t.source, a) && Covers(c, a, Targets(c, t))
    ensures a !in ExitSet(c, active, t)
  {
    if Targets(c, t) != [] {
      DomainExact(c, t);
      DescBounds(c, t.source, a);
      assert Desc(c, Domain(c, t), a);
      if Desc(c, a, Domain(c, t)) {
        DescBounds(c, a, Domain(c, t));
        DescBounds(c, Domain(c, t), a);
      }
    }
  }
}
