/** Completing a configuration: the worklist that gives every compound a child and every parallel all its regions. */
module Completion {
  import opened Basics
  import opened StateNodes
  import opened Configurations
  import opened Entry

  /** `u` is `s` with some of what is missing in it. */
  ghost predicate Grown(c: Chart, s: set<int>, u: set<int>) {
    && s <= u
    && Closed(c, u)
    && (forall n :: n in u && n !in s ==> Missing(c, s, n))
  }

  /** A descent into a place where nothing is active yet. */
  lemma {:induction false} GrowFresh(c: WFChart, s: set<int>, u: set<int>, x: int, l: seq<int>)
    requires Grown(c, s, u) && Descent(c, x, l)
    requires 0 < x && x !in u && Parent(c, x) in u && Missing(c, u, x)
    ensures Grown(c, s, u + Elems(l)) && Elems(l) !! u
  {
    var u' := u + Elems(l);
    forall n | n in l ensures n !in u && x <= n {
      assert Desc(c, n, x);
      DescBounds(c, n, x);
      if n in u { ClosedUp(c, u, n, x); }
    }
    forall n | n in u' && n != 0 ensures Parent(c, n) in u' {
      if n in u { assert Parent(c, n) in u; }
      else if n != x { assert Parent(c, n) in l; }
    }
    forall n | n in l ensures Missing(c, s, n) {
      FreshMissing(c, s, u, x, l, n);
    }
  }

  lemma {:induction false} FreshMissing(c: WFChart, s: set<int>, u: set<int>, x: int, l: seq<int>, n: int)
    requires s <= u && Closed(c, u) && Descent(c, x, l) && Missing(c, u, x) && n in l
    requires forall m :: m in l ==> m !in u
    ensures Missing(c, s, n)
  {
    if n != x {
      assert Parent(c, n) in l;
      forall b | b in Children(c, Parent(c, n)) ensures b !in s {
        assert b in u ==> Parent(c, b) in u;
      }
    }
  }

  ghost function AllNodes(c: Chart): set<int> {
    set n | n in c.heap
  }

  ghost function TakenOf(c: Chart, s: set<int>): set<int> {
    set n | n in s && Taken(c, n)
  }

  /** `add` lists, without repetition, what `g` has that `active` has not. */
  ghost predicate Lists(add: seq<int>, active: set<int>, g: set<int>) {
    NoDup(add) && Elems(add) !! active && g == active + Elems(add)
  }

  /** What is missing just below `n`, expanded to initial states: one node's share of a completion pass. */
  method MissingBelow(c: WFChart, active: set<int>, n: int, via: set<int>, ghost s: set<int>)
    returns (add: seq<int>, via': set<int>, ghost g: set<int>)
    requires Grown(c, s, active) && n in active
    ensures Grown(c, s, g) && Settled(c, g, n) && Lists(add, active, g)
    ensures via' == via + TakenOf(c, Elems(add))
  {
    add, via', g := [], via, active;
    if Kind(c, n) == Parallel {
      add, via', g := MissingRegions(c, active, n, via, s);
    } else if Kind(c, n) == Compound && Initial(c, n) != NULL {
      var children := Children(c, n);
      var hasActiveChild := false;
      var i := 0;
      while i < |children| && !hasActiveChild
        invariant 0 <= i <= |children|
        invariant hasActiveChild ==> exists b :: b in children && b in active
        invariant !hasActiveChild ==> forall b :: b in children[..i] ==> b !in active
      {
        var ch := children[i];
        assert ch in children;
        if ch in active { hasActiveChild := true; }
        i := i + 1;
      }
      if !hasActiveChild {
        ghost var l;
        ghost var k := EntryIndex(c, n);
        assert children[..|children|] == children;
        assert EntryChild(c, n) in children;
        add, via', l := AddInitial(c, Initial(c, n), add, via', true);
        g := active + Elems(l);
        GrowFresh(c, s, active, EntryChild(c, n), l);
        assert add == l;
        AscendingNoDup(add);
        TakenDescent(c, EntryChild(c, n), l);
      }
    } else {
      assert Children(c, n) == [] || Initial(c, n) != NULL || Kind(c, n) != Compound;
    }
  }

  lemma {:induction false} AscendingNoDup(l: seq<int>)
    requires Ascending(l)
    ensures NoDup(l)
  {}

  lemma {:induction false} TakenDescent(c: Chart, x: int, l: seq<int>)
    ensures ViaOf(c, x, l, Taken(c, x)) == TakenOf(c, Elems(l))
  {}

  /** The regions of `n` so far: `add` is fresh, and comes before the regions still to be looked at. */
  ghost predicate RegionsAdded(c: Chart, s: set<int>, active: set<int>, n: int, i: nat, add: seq<int>, g: set<int>)
    requires i <= |Children(c, n)|
  {
    Grown(c, s, g) && Lists(add, active, g) && RegionsUpTo(c, n, i) <= g && Before(add, Children(c, n)[i..])
  }

  ghost function RegionsUpTo(c: Chart, x: int, i: nat): set<int>
    requires i <= |Children(c, x)|
  {
    if i == 0 then {}
    else RegionsUpTo(c, x, i - 1) + (if Kind(c, Children(c, x)[i - 1]) != History then {Children(c, x)[i - 1]} else {})
  }

  lemma {:induction false} RegionsUpToAll(c: Chart, x: int, i: nat, r: int)
    requires i <= |Children(c, x)| && r in Children(c, x)[..i] && Kind(c, r) != History
    ensures r in RegionsUpTo(c, x, i)
  {
    if r != Children(c, x)[i - 1] { RegionsUpToAll(c, x, i - 1, r); }
  }

  ghost predicate Before(s: seq<int>, t: seq<int>) {
    forall x, y :: x in s && y in t ==> x < y
  }

  lemma {:induction false} RegionsSkipped(c: WFChart, s: set<int>, active: set<int>, n: int, i: nat, add: seq<int>,
                                          g: set<int>)
    requires i < |Children(c, n)| && RegionsAdded(c, s, active, n, i, add, g)
    requires Children(c, n)[i] in active || Kind(c, Children(c, n)[i]) == History
    ensures RegionsAdded(c, s, active, n, i + 1, add, g)
  {
    var rest, now := Children(c, n)[i + 1..], Children(c, n)[i..];
    assert now == [Children(c, n)[i]] + rest;
    forall x, y | x in add && y in rest ensures x < y { assert y in now; }
  }

  /** A region's descent comes before the regions after it. */
  lemma {:induction false} RegionsStayBefore(c: WFChart, n: int, i: nat, add: seq<int>, l: seq<int>)
    requires i < |Children(c, n)| && Descent(c, Children(c, n)[i], l) && Before(add, Children(c, n)[i..])
    ensures Before(add + l, Children(c, n)[i + 1..])
  {
    var rest, r := Children(c, n)[i + 1..], Children(c, n)[i];
    assert Children(c, n)[i..] == [r] + rest && r in Children(c, n)[i..];
    assert r in Children(c, n) && Ascending(Children(c, n));
    forall m, q | m in add + l && q in rest ensures m < q {
      assert q in Children(c, n)[i..] && q in Children(c, n) && r < q;
      if m in l {
        assert Desc(c, m, r);
        SiblingSubtreesOrdered(c, r, q, m);
      }
    }
  }

  lemma {:induction false} ListsMore(add: seq<int>, active: set<int>, g: set<int>, l: seq<int>)
    requires Lists(add, active, g) && NoDup(l) && Elems(l) !! g
    ensures Lists(add + l, active, g + Elems(l))
  {
    ElemsConcat(add, l);
    NoDupConcat(add, l);
  }

  lemma {:induction false} TakenMore(c: Chart, add: seq<int>, r: int, l: seq<int>, via: set<int>)
    requires Taken(c, r)
    ensures via + TakenOf(c, Elems(add)) + ViaOf(c, r, l, true) == via + TakenOf(c, Elems(add + l))
  {
    ElemsConcat(add, l);
  }

  lemma {:induction false} RegionAdded(c: WFChart, s: set<int>, active: set<int>, n: int, i: nat, add: seq<int>,
                                       g: set<int>, l: seq<int>, via: set<int>)
    returns (g': set<int>)
    requires n in active && Kind(c, n) == Parallel && i < |Children(c, n)|
    requires RegionsAdded(c, s, active, n, i, add, g)
    requires Children(c, n)[i] !in active && Descent(c, Children(c, n)[i], l)
    ensures RegionsAdded(c, s, active, n, i + 1, add + l, g')
    ensures via + TakenOf(c, Elems(add)) + ViaOf(c, Children(c, n)[i], l, true) == via + TakenOf(c, Elems(add + l))
  {
    g' := g + Elems(l);
    var r := Children(c, n)[i];
    RegionByDefault(c, n, i);
    assert r in Children(c, n) && r in Children(c, n)[i..] && l[0] in l;
    GrowFresh(c, s, g, r, l);
    AscendingNoDup(l);
    ListsMore(add, active, g, l);
    RegionsStayBefore(c, n, i, add, l);
    TakenMore(c, add, r, l, via);
  }

  lemma {:induction false} NoDupConcat(s: seq<int>, t: seq<int>)
    requires NoDup(s) && NoDup(t) && Elems(s) !! Elems(t)
    ensures NoDup(s + t)
  {
    var u := s + t;
    forall i, j | 0 <= i < j < |u| ensures u[i] != u[j] {
      if i < |s| <= j { assert u[i] in Elems(s) && u[j] in Elems(t); }
    }
  }

  method MissingRegions(c: WFChart, active: set<int>, n: int, via: set<int>, ghost s: set<int>)
    returns (add: seq<int>, via': set<int>, ghost g: set<int>)
    requires Grown(c, s, active) && n in active && Kind(c, n) == Parallel
    ensures Grown(c, s, g) && Settled(c, g, n) && Lists(add, active, g)
    ensures via' == via + TakenOf(c, Elems(add))
  {
    add, via', g := [], via, active;
    var regions := Children(c, n);
    for i := 0 to |regions|
      invariant RegionsAdded(c, s, active, n, i, add, g)
      invariant via' == via + TakenOf(c, Elems(add))
    {
      add, via', g := MissingRegion(c, active, n, i, add, via', s, g, via);
    }
    RegionsSettled(c, n, g);
  }

  /** One region's turn. */
  method MissingRegion(c: WFChart, active: set<int>, n: int, i: nat, add: seq<int>, via: set<int>, ghost s: set<int>,
                       ghost g: set<int>, ghost via0: set<int>)
    returns (add': seq<int>, via': set<int>, ghost g': set<int>)
    requires n in active && Kind(c, n) == Parallel && i < |Children(c, n)|
    requires RegionsAdded(c, s, active, n, i, add, g) && via == via0 + TakenOf(c, Elems(add))
    ensures RegionsAdded(c, s, active, n, i + 1, add', g') && via' == via0 + TakenOf(c, Elems(add'))
  {
    add', via', g' := add, via, g;
    var region := Children(c, n)[i];
    RegionByDefault(c, n, i);
    if region !in active {
      ghost var l;
      add', via', l := AddInitial(c, region, add, via, true);
      if Kind(c, region) != History { g' := RegionAdded(c, s, active, n, i, add, g, l, via0); }
    }
    if region in active || Kind(c, region) == History { RegionsSkipped(c, s, active, n, i, add, g); }
  }

  lemma {:induction false} RegionsSettled(c: WFChart, n: int, g: set<int>)
    requires Kind(c, n) == Parallel && RegionsUpTo(c, n, |Children(c, n)|) <= g
    ensures Settled(c, g, n)
  {
    var regions := Children(c, n);
    assert regions[..|regions|] == regions;
    forall r | r in regions && Kind(c, r) != History ensures r in g {
      RegionsUpToAll(c, n, |regions|, r);
    }
  }

  ghost predicate AllSettled(c: Chart, s: set<int>, l: seq<int>) {
    forall n {:trigger Settled(c, s, n)} :: n in l ==> Settled(c, s, n)
  }

  /** What holds all through completing `s`: how far the active set and the list of entered nodes have come. */
  ghost predicate Completing(c: Chart, s: set<int>, toEnter: seq<int>, via: set<int>, active: set<int>,
                             toEnter': seq<int>, via': set<int>) {
    && Grown(c, s, active)
    && NoDup(toEnter') && Elems(toEnter') == Elems(toEnter) + (active - s)
    && via' == via + TakenOf(c, active - s)
  }

  method CompleteConfiguration(c: WFChart, nextActive: set<int>, toEnter: seq<int>, viaInitial: set<int>)
    returns (nextActive': set<int>, toEnter': seq<int>, viaInitial': set<int>)
    requires Closed(c, nextActive)
    requires NoDup(toEnter) && Elems(toEnter) <= nextActive
    ensures Fills(c, nextActive, nextActive')
    ensures NoDup(toEnter') && Elems(toEnter') == Elems(toEnter) + (nextActive' - nextActive)
    ensures viaInitial' == viaInitial + TakenOf(c, nextActive' - nextActive)
  {
    nextActive', toEnter', viaInitial' := nextActive, toEnter, viaInitial;
    var changed := true;
    while changed
      invariant Completing(c, nextActive, toEnter, viaInitial, nextActive', toEnter', viaInitial')
      invariant changed || AllSettled(c, nextActive', Restrict(c.heap, nextActive'))
      decreases AllNodes(c) - nextActive', changed
    {
      ghost var before := nextActive';
      nextActive', toEnter', viaInitial', changed :=
        CompletionPass(c, nextActive', toEnter', viaInitial', nextActive, toEnter, viaInitial);
      assert changed ==> AllNodes(c) - nextActive' < AllNodes(c) - before;
    }
    forall n | n in nextActive' ensures Settled(c, nextActive', n) {
      assert n in Restrict(c.heap, nextActive');
    }
  }

  /** `changed` says whether anything has been added to `active`. */
  ghost predicate ChangedTo(c: Chart, active: set<int>, active': set<int>, changed: bool) {
    if changed then exists n :: n in active' && n in c.heap && n !in active else active' == active
  }

  lemma {:induction false} ChangedMore(c: Chart, s: set<int>, active: set<int>, active': set<int>, changed: bool,
                                       add: seq<int>, g: set<int>)
    requires ChangedTo(c, active, active', changed) && active <= active' && Grown(c, s, g) && Lists(add, active', g)
    ensures ChangedTo(c, active, g, changed || add != [])
  {
    if add != [] {
      SomeAdded(c, s, active', add, g);
      var n := add[0];
      assert n in g && n in c.heap && n !in active;
    } else {
      assert g == active' + Elems(add) == active';
    }
  }

  /** One pass over the nodes active when it starts. */
  method CompletionPass(c: WFChart, active: set<int>, toEnter: seq<int>, via: set<int>, ghost s: set<int>,
                        ghost toEnter0: seq<int>, ghost via0: set<int>)
    returns (active': set<int>, toEnter': seq<int>, via': set<int>, changed: bool)
    requires Completing(c, s, toEnter0, via0, active, toEnter, via) && Elems(toEnter0) <= s
    ensures Completing(c, s, toEnter0, via0, active', toEnter', via')
    ensures ChangedTo(c, active, active', changed)
    ensures active <= active'
    ensures changed || AllSettled(c, active', Restrict(c.heap, active))
  {
    active', toEnter', via', changed := active, toEnter, via, false;
    var snapshot := Restrict(c.heap, active);
    for i := 0 to |snapshot|
      invariant Completing(c, s, toEnter0, via0, active', toEnter', via') && active <= active'
      invariant ChangedTo(c, active, active', changed)
      invariant changed || AllSettled(c, active, snapshot[..i])
    {
      var n := snapshot[i];
      assert n in snapshot;
      TakeNext(snapshot, i);
      ghost var via1 := via';
      var add;
      ghost var g;
      add, via', g := MissingBelow(c, active', n, via', s);
      Inserted(c, s, toEnter0, via0, active', toEnter', via1, add, g, via');
      ChangedMore(c, s, active, active', changed, add, g);
      active', toEnter', changed := InsertAll(active', toEnter', add, changed, g);
    }
    assert snapshot[..|snapshot|] == snapshot;
  }

  lemma {:induction false} SomeAdded(c: Chart, s: set<int>, active: set<int>, add: seq<int>, g: set<int>)
    requires Grown(c, s, g) && Lists(add, active, g) && add != []
    ensures add[0] in g && add[0] in c.heap && add[0] !in active
  {
    var x := add[0];
    assert x in Elems(add) && x in g;
  }

  /** The insertions of one node's share. */
  method InsertAll(active: set<int>, toEnter: seq<int>, add: seq<int>, changed: bool, ghost g: set<int>)
    returns (active': set<int>, toEnter': seq<int>, changed': bool)
    requires Lists(add, active, g)
    ensures active' == g && toEnter' == toEnter + add && changed' == (changed || add != [])
    ensures add == [] ==> g == active
  {
    active', toEnter', changed' := active, toEnter, changed;
    for k := 0 to |add|
      invariant active' == active + Elems(add[..k]) && toEnter' == toEnter + add[..k]
      invariant changed' == (changed || k > 0)
    {
      InsertNext(add, k, active);
      if add[k] !in active' {
        active', toEnter', changed' := active' + {add[k]}, toEnter' + [add[k]], true;
      }
    }
    assert add[..|add|] == add;
  }

  lemma {:induction false} InsertNext(add: seq<int>, k: nat, active: set<int>)
    requires NoDup(add) && Elems(add) !! active && k < |add|
    ensures add[k] !in active + Elems(add[..k])
    ensures Elems(add[..k+1]) == Elems(add[..k]) + {add[k]} && add[..k+1] == add[..k] + [add[k]]
  {
    assert add[k] in Elems(add);
  }

  /** The bookkeeping of one node's share: all of `add` is new. */
  lemma {:induction false} Inserted(c: Chart, s: set<int>, toEnter: seq<int>, via: set<int>, active: set<int>,
                                    te: seq<int>, vi: set<int>, add: seq<int>, g: set<int>, vi': set<int>)
    requires Completing(c, s, toEnter, via, active, te, vi) && Elems(toEnter) <= s
    requires Grown(c, s, g) && Lists(add, active, g) && vi' == vi + TakenOf(c, Elems(add))
    ensures Completing(c, s, toEnter, via, g, te + add, vi') && active <= g
  {
    NoDupConcat(te, add);
    assert Elems(te + add) == Elems(te) + Elems(add);
    assert g - s == (active - s) + Elems(add);
  }
}
