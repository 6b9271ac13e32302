/** Computing what a step enters: the loops of the interpreter, for any selection. */
module EntrySets {
  import opened Basics
  import opened StateNodes
  import opened Configurations
  import opened Entry
  import opened Completion
  import opened Targeting
  import opened StepStarts

  /** `n` and its ancestors short of `stop`, upwards. */
  function Chain(c: Chart, stop: int, n: int): seq<int>
    decreases n
  {
    if n == stop || !(0 <= n < Size(c)) then []
    else [n] + (if Parent(c, n) < n then Chain(c, stop, Parent(c, n)) else [])
  }

  lemma {:induction false} ChainMembers(c: Chart, stop: int, n: int, a: int)
    requires 0 <= n < Size(c)
    ensures a in Chain(c, stop, n) ==> Desc(c, n, a)
    ensures Desc(c, n, a) && a !in Chain(c, stop, n) ==> Desc(c, stop, a)
    decreases n
  {
    if n != stop && n != 0 {
      ChainMembers(c, stop, Parent(c, n), a);
    }
  }

  /** A chain that does not meet `stop` goes up to the root. */
  lemma {:induction false} ChainWhole(c: Chart, stop: int, n: int, a: int)
    requires 0 <= n < Size(c) && !Desc(c, n, stop) && Desc(c, n, a)
    ensures a in Chain(c, stop, n)
    decreases n
  {
    if n != a { ChainWhole(c, stop, Parent(c, n), a); }
  }

  method PushChain(c: Chart, stop: int, n: int, entered: seq<int>) returns (entered': seq<int>)
    requires n == NULL || 0 <= n < Size(c)
    ensures Elems(entered') == Elems(entered) + Elems(Chain(c, stop, n))
  {
    var chain := ChainUp(c, stop, n);
    ReverseElems(chain);
    entered' := AppendNew(entered, Reverse(chain));
  }

  /** The first loop of pushing a chain. */
  method ChainUp(c: Chart, stop: int, n: int) returns (chain: seq<int>)
    requires n == NULL || 0 <= n < Size(c)
    ensures chain == Chain(c, stop, n)
  {
    chain := [];
    var a := n;
    assert [] + Chain(c, stop, n) == Chain(c, stop, n);
    while a != NULL && a != stop
      invariant -1 <= a < Size(c)
      invariant Chain(c, stop, n) == chain + Chain(c, stop, a)
    {
      ChainStep(c, stop, a);
      AppendAfter(chain, [a], Chain(c, stop, Parent(c, a)));
      chain := chain + [a];
      a := Parent(c, a);
    }
    assert chain + [] == chain;
  }

  lemma ChainStep(c: Chart, stop: int, a: int)
    requires 0 <= a < Size(c) && a != stop
    ensures -1 <= Parent(c, a) < a && Chain(c, stop, a) == [a] + Chain(c, stop, Parent(c, a))
  {}

  /** The second loop of pushing a chain. */
  method AppendNew(entered: seq<int>, nodes: seq<int>) returns (entered': seq<int>)
    ensures Elems(entered') == Elems(entered) + Elems(nodes)
  {
    entered' := entered;
    for i := 0 to |nodes|
      invariant Elems(entered') == Elems(entered) + Elems(nodes[..i])
    {
      var x := nodes[i];
      TakeNext(nodes, i);
      ElemsConcat(nodes[..i], [x]);
      ElemsConcat(entered', [x]);
      assert x in entered' ==> x in Elems(entered');
      if x !in entered' { entered' := entered' + [x]; }
    }
    assert nodes[..|nodes|] == nodes;
  }

  /**
   What has been entered so far: at most the `paths` and what has been opened
   on the way, all of the latter, with initial transitions taken just below
   what was opened.
   */
  ghost predicate Entering(c: Chart, entered: seq<int>, via: set<int>, paths: set<int>, ys: set<int>) {
    && Elems(entered) <= paths + DefaultsOf(c, ys)
    && DefaultsOf(c, ys) <= Elems(entered)
    && via == TakenOf(c, StrictDefaultsOf(c, ys))
  }

  /** `x` and its ancestors are among the survivors `r` or have been entered. */
  ghost predicate Covered(c: Chart, r: set<int>, entered: seq<int>, x: int) {
    forall a {:trigger Desc(c, x, a)} :: Desc(c, x, a) ==> a in r || a in entered
  }

  ghost predicate OnPaths(c: Chart, paths: set<int>, x: int) {
    forall a {:trigger Desc(c, x, a)} :: Desc(c, x, a) ==> a in paths
  }

  lemma {:induction false} CoveredLater(c: Chart, r: set<int>, entered: seq<int>, entered': seq<int>, x: int)
    requires Covered(c, r, entered, x) && Elems(entered) <= Elems(entered')
    ensures Covered(c, r, entered', x)
  {
    forall a | Desc(c, x, a) ensures a in r || a in entered' {
      assert a in entered ==> a in Elems(entered);
    }
  }

  lemma {:induction false} PushedCovers(c: Chart, r: set<int>, entered: seq<int>, entered': seq<int>, stop: int, n: int)
    requires 0 <= n < Size(c) && (Covered(c, r, entered, stop) || !Desc(c, n, stop))
    requires Elems(entered') == Elems(entered) + Elems(Chain(c, stop, n))
    ensures Covered(c, r, entered', n)
  {
    forall a | Desc(c, n, a) ensures a in r || a in entered' {
      ChainMembers(c, stop, n, a);
      if !Desc(c, n, stop) { ChainWhole(c, stop, n, a); }
      assert a in entered ==> a in Elems(entered);
      assert a in Chain(c, stop, n) ==> a in Elems(entered');
    }
  }

  lemma {:induction false} PushedEnters(c: Chart, entered: seq<int>, entered': seq<int>, via: set<int>, paths: set<int>,
                                        ys: set<int>, stop: int, n: int)
    requires Entering(c, entered, via, paths, ys) && 0 <= n < Size(c) && OnPaths(c, paths, n)
    requires Elems(entered') == Elems(entered) + Elems(Chain(c, stop, n))
    ensures Entering(c, entered', via, paths, ys)
    ensures forall y :: y in Elems(entered') && y !in Elems(entered) ==> Desc(c, n, y)
  {
    var chain := Elems(Chain(c, stop, n));
    forall a | a in chain ensures a in paths { ChainMembers(c, stop, n, a); }
    forall a | a in chain ensures Desc(c, n, a) { ChainMembers(c, stop, n, a); }
  }

  lemma {:induction false} DescentEnters(c: WFChart, entered: seq<int>, via: set<int>, paths: set<int>, ys: set<int>,
                                         x: int, l: seq<int>)
    requires Entering(c, entered, via, paths, ys) && Descent(c, x, l)
    ensures Entering(c, entered + l, via + ViaOf(c, x, l, false), paths, ys + {x})
    ensures x in entered + l && Elems(entered + l) == Elems(entered) + Defaults(c, x)
  {
    DescentIsDefaults(c, x, l);
    ElemsConcat(entered, l);
    OpenOne(c, ys, x);
    assert l[0] in l;
    assert forall n :: n in l <==> n in Defaults(c, x);
  }

  lemma {:induction false} OpenOne(c: Chart, ys: set<int>, x: int)
    ensures DefaultsOf(c, ys + {x}) == DefaultsOf(c, ys) + Defaults(c, x)
    ensures StrictDefaultsOf(c, ys + {x}) == StrictDefaultsOf(c, ys) + (Defaults(c, x) - {x})
  {
    forall n | n in c.heap
      ensures n in DefaultsOf(c, ys + {x}) <==> n in DefaultsOf(c, ys) || n in Defaults(c, x)
      ensures n in StrictDefaultsOf(c, ys + {x}) <==> n in StrictDefaultsOf(c, ys) || (n in Defaults(c, x) && n != x)
    {
      if y :| y in ys && DefaultBelow(c, n, y) { assert y in ys + {x}; }
      if y :| y in ys && n != y && DefaultBelow(c, n, y) { assert y in ys + {x}; }
      assert x in ys + {x};
    }
  }

  /** The nodes above, at and below `x`. */
  ghost function Near(c: Chart, x: int): set<int> {
    set n | n in c.heap && (Desc(c, x, n) || Desc(c, n, x))
  }

  /** The shared step of entering a target or a stored node: the chain to it, then its initial states. */
  method EnterNode(c: WFChart, stop: int, x: int, entered: seq<int>, via: set<int>, ghost paths: set<int>,
                   ghost ys: set<int>, ghost r: set<int>)
    returns (entered': seq<int>, via': set<int>, ghost ys': set<int>)
    requires 0 <= x < Size(c) && Kind(c, x) != History && OnPaths(c, paths, x)
    requires Entering(c, entered, via, paths, ys) && (Covered(c, r, entered, stop) || stop == x)
    ensures Entering(c, entered', via', paths, ys') && ys' == ys + ({x} - Elems(entered))
    ensures Elems(entered) <= Elems(entered') <= Elems(entered) + Near(c, x)
    ensures Covered(c, r, entered', x)
  {
    entered' := PushChain(c, stop, Parent(c, x), entered);
    via', ys' := via, ys;
    AbovePushed(c, stop, x, entered, entered', via, paths, ys, r);
    ghost var pushed := entered';
    if x !in entered' {
      ghost var l;
      entered', via', l := AddInitial(c, x, entered', via', false);
      DescentEnters(c, pushed, via, paths, ys, x, l);
      ys' := ys + {x};
      DefaultsNear(c, x);
    }
    assert x in entered' && (x in pushed <==> x in Elems(entered));
    NodeCovered(c, r, pushed, entered', x);
  }

  lemma {:induction false} DefaultsNear(c: Chart, x: int)
    ensures Defaults(c, x) <= Near(c, x)
  {
    forall n | n in Defaults(c, x) ensures n in Near(c, x) { DefaultBelowDesc(c, n, x); }
  }

  /** The chain to `x` has been pushed, and `x` is no part of it. */
  lemma {:induction false} AbovePushed(c: WFChart, stop: int, x: int, entered: seq<int>, entered': seq<int>,
                                       via: set<int>, paths: set<int>, ys: set<int>, r: set<int>)
    requires 0 <= x < Size(c) && OnPaths(c, paths, x) && Entering(c, entered, via, paths, ys)
    requires Covered(c, r, entered, stop) || stop == x
    requires Elems(entered') == Elems(entered) + Elems(Chain(c, stop, Parent(c, x)))
    ensures Entering(c, entered', via, paths, ys) && (x != 0 ==> Covered(c, r, entered', Parent(c, x)))
    ensures Elems(entered') <= Elems(entered) + Near(c, x) && (x in entered' <==> x in Elems(entered))
  {
    var p := Parent(c, x);
    assert x in entered' <==> x in Elems(entered');
    if x == 0 {
      assert Chain(c, stop, p) == [];
    } else {
      forall a | Desc(c, p, a) ensures a in paths && a != x && a in Near(c, x) {
        DescBounds(c, p, a);
        assert Desc(c, x, a);
      }
      PushedEnters(c, entered, entered', via, paths, ys, stop, p);
      PushedCovers(c, r, entered, entered', stop, p);
      forall y | y in Elems(entered') && y !in Elems(entered) ensures y in Near(c, x) && y != x {
        assert Desc(c, p, y);
      }
    }
  }

  lemma {:induction false} NodeCovered(c: Chart, r: set<int>, pushed: seq<int>, entered: seq<int>, x: int)
    requires 0 <= x < Size(c) && x in entered && Elems(pushed) <= Elems(entered)
    requires x != 0 ==> Covered(c, r, pushed, Parent(c, x))
    ensures Covered(c, r, entered, x)
  {
    if x != 0 { CoveredLater(c, r, pushed, entered, Parent(c, x)); }
    forall a | Desc(c, x, a) ensures a in r || a in entered {
      assert a != x ==> Desc(c, Parent(c, x), a);
    }
  }

  ghost predicate AimsCovered(c: Chart, hist: HistoryMap, r: set<int>, entered: seq<int>, target: int) {
    forall x {:trigger Aim(c, hist, target, x)} :: Aim(c, hist, target, x) ==> Covered(c, r, entered, x)
  }

  ghost predicate AimsOnPaths(c: Chart, hist: HistoryMap, paths: set<int>, target: int) {
    forall x {:trigger Aim(c, hist, target, x)} :: Aim(c, hist, target, x) ==> OnPaths(c, paths, x)
  }

  method ComputeEntrySet(c: WFChart, domain: int, target: int, entered: seq<int>, hist: HistoryMap, via: set<int>,
                         ghost paths: set<int>, ghost ys: set<int>, ghost r: set<int>)
    returns (entered': seq<int>, via': set<int>, ghost ys': set<int>)
    requires 0 <= target < Size(c) && HistoryValid(c, hist) && AimsOnPaths(c, hist, paths, target)
    requires Entering(c, entered, via, paths, ys)
    requires Covered(c, r, entered, domain) || (domain == target && Kind(c, target) != History)
    ensures Entering(c, entered', via', paths, ys') && Elems(entered) <= Elems(entered')
    ensures ys' == ys + (Elems(Landing(c, hist, target)) - Elems(entered))
    ensures AimsCovered(c, hist, r, entered', target)
    decreases if Kind(c, target) != History then 0 else if Default(c, target) != NULL then 1 else 2
  {
    if Kind(c, target) == History {
      var p := Parent(c, target);
      entered' := PushChain(c, domain, p, entered);
      AnchorPushed(c, domain, target, entered, entered', hist, via, paths, ys, r);
      ghost var pushed := entered';
      CoveredLater(c, r, entered, pushed, domain);
      ElsewhereFits(c, hist, target, paths);
      if Id(c, target) in hist && hist[Id(c, target)] != [] {
        StoredFits(c, hist, target, paths);
        entered', via', ys' := EnterStored(c, p, hist[Id(c, target)], entered', via, paths, ys, r);
      } else if Default(c, target) != NULL {
        entered', via', ys' := ComputeEntrySet(c, domain, Default(c, target), entered', hist, via, paths, ys, r);
        ElsewhereCovered(c, hist, r, entered', target, Default(c, target));
      } else if Initial(c, p) != NULL {
        entered', via', ys' := ComputeEntrySet(c, domain, Initial(c, p), entered', hist, via, paths, ys, r);
        ElsewhereCovered(c, hist, r, entered', target, Initial(c, p));
      } else {
        via', ys' := via, ys;
      }
      CoveredLater(c, r, pushed, entered', p);
      LandingsCovered(c, hist, r, entered', target);
    } else {
      assert Aim(c, hist, target, target);
      entered', via', ys' := EnterNode(c, domain, target, entered, via, paths, ys, r);
      assert Landing(c, hist, target) == [target];
    }
  }

  /** The chain to the parent of a history node has been pushed; it holds nothing the history node leads to. */
  lemma {:induction false} AnchorPushed(c: WFChart, domain: int, target: int, entered: seq<int>, entered': seq<int>,
                                        hist: HistoryMap, via: set<int>, paths: set<int>, ys: set<int>, r: set<int>)
    requires 0 <= target < Size(c) && Kind(c, target) == History && HistoryValid(c, hist)
    requires AimsOnPaths(c, hist, paths, target) && Entering(c, entered, via, paths, ys)
    requires Covered(c, r, entered, domain)
    requires Elems(entered') == Elems(entered) + Elems(Chain(c, domain, Parent(c, target)))
    ensures Entering(c, entered', via, paths, ys) && Covered(c, r, entered', Parent(c, target))
    ensures Elems(Landing(c, hist, target)) - Elems(entered') == Elems(Landing(c, hist, target)) - Elems(entered)
  {
    var p := Parent(c, target);
    assert target in Children(c, p) && Aim(c, hist, target, p);
    PushedEnters(c, entered, entered', via, paths, ys, domain, p);
    PushedCovers(c, r, entered, entered', domain, p);
    forall y | y in Elems(Landing(c, hist, target)) && y in Elems(entered') ensures y in Elems(entered) {
      LandingNotAbove(c, hist, target, y);
    }
  }

  lemma {:induction false} LandingNotAbove(c: WFChart, hist: HistoryMap, target: int, y: int)
    requires 0 <= target < Size(c) && Kind(c, target) == History && HistoryValid(c, hist)
    requires y in Landing(c, hist, target)
    ensures !Desc(c, Parent(c, target), y)
  {
    var p := Parent(c, target);
    LandingStrictlyBelow(c, hist, target, y);
    if Desc(c, p, y) {
      DescBounds(c, y, p);
      DescBounds(c, p, y);
    }
  }

  lemma {:induction false} LandingStrictlyBelow(c: WFChart, hist: HistoryMap, target: int, y: int)
    requires 0 <= target < Size(c) && Kind(c, target) == History && HistoryValid(c, hist)
    requires y in Landing(c, hist, target)
    ensures Below(c, y, Parent(c, target)) && 0 <= y < Size(c)
  {
    var i := Initial(c, Parent(c, target));
    LandingBelow(c, hist, target, y);
    if StoredOrDefault(c, hist, target) != [] {
      StoredStrictlyBelow(c, hist, target, y);
    } else {
      assert i in Children(c, Parent(c, target));
      if Kind(c, i) == History { StoredStrictlyBelow(c, hist, i, y); }
    }
  }

  lemma {:induction false} StoredStrictlyBelow(c: WFChart, hist: HistoryMap, h: int, y: int)
    requires 0 < h < Size(c) && Kind(c, h) == History && HistoryValid(c, hist) && y in StoredOrDefault(c, hist, h)
    ensures y != Parent(c, h)
  {
    if Stored(c, hist, h) != [] {
      assert Id(c, h) in hist;
      var w :| Legal(c, w) && Parent(c, h) in w && hist[Id(c, h)] == Record(c, w, h);
      RecordMembers(c, w, h, y);
    } else {
      assert Parent(c, y) == Parent(c, h);
    }
  }

  /** Where a history target without a stored value leads is where its default or its parent's initial state leads. */
  lemma {:induction false} ElsewhereFits(c: WFChart, hist: HistoryMap, target: int, paths: set<int>)
    requires 0 <= target < Size(c) && Kind(c, target) == History && AimsOnPaths(c, hist, paths, target)
    ensures Stored(c, hist, target) == [] && Default(c, target) != NULL ==>
      Elsewhere(c, hist, target, Default(c, target), paths)
    ensures Stored(c, hist, target) == [] && Default(c, target) == NULL && Initial(c, Parent(c, target)) != NULL ==>
      Elsewhere(c, hist, target, Initial(c, Parent(c, target)), paths)
    ensures Stored(c, hist, target) == [] && Default(c, target) == NULL && Initial(c, Parent(c, target)) == NULL ==>
      Landing(c, hist, target) == []
  {
    var p, d, i := Parent(c, target), Default(c, target), Initial(c, Parent(c, target));
    assert Aim(c, hist, target, p);
    if Stored(c, hist, target) == [] {
      if d != NULL {
        assert Landing(c, hist, target) == [d] == Landing(c, hist, d);
        SameAims(c, hist, target, d, paths);
      } else if i != NULL {
        assert i in Children(c, p);
        assert Landing(c, hist, target) == Landing(c, hist, i);
        SameAims(c, hist, target, i, paths);
      }
    }
  }

  lemma {:induction false} SameAims(c: WFChart, hist: HistoryMap, target: int, e: int, paths: set<int>)
    requires AimsOnPaths(c, hist, paths, target) && Kind(c, target) == History
    requires Landing(c, hist, e) == Landing(c, hist, target) && Parent(c, e) == Parent(c, target)
    ensures AimsOnPaths(c, hist, paths, e)
  {
    forall x | Aim(c, hist, e, x) ensures OnPaths(c, paths, x) {
      assert Aim(c, hist, target, x);
    }
  }

  /** `e` leads where the history node `target` does. */
  ghost predicate Elsewhere(c: Chart, hist: HistoryMap, target: int, e: int, paths: set<int>) {
    && 0 <= e < Size(c) && (Kind(c, e) == History ==> Default(c, e) != NULL && Default(c, target) == NULL)
    && Landing(c, hist, e) == Landing(c, hist, target) && AimsOnPaths(c, hist, paths, e)
  }

  lemma {:induction false} ElsewhereCovered(c: Chart, hist: HistoryMap, r: set<int>, entered: seq<int>, target: int,
                                            e: int)
    requires AimsCovered(c, hist, r, entered, e) && Landing(c, hist, e) == Landing(c, hist, target)
    ensures forall x {:trigger Covered(c, r, entered, x)} :: x in Landing(c, hist, target) ==> Covered(c, r, entered, x)
  {
    forall x | x in Landing(c, hist, target) ensures Covered(c, r, entered, x) { assert Aim(c, hist, e, x); }
  }

  /** What a history node leads to is covered once its parent and what its stand-in leads to are. */
  lemma {:induction false} LandingsCovered(c: Chart, hist: HistoryMap, r: set<int>, entered: seq<int>, target: int)
    requires Kind(c, target) == History && Covered(c, r, entered, Parent(c, target))
    requires forall x {:trigger Covered(c, r, entered, x)} ::
        x in Landing(c, hist, target) ==> Covered(c, r, entered, x)
    ensures AimsCovered(c, hist, r, entered, target)
  {}

  /** Stored nodes lie on the paths, and none above another. */
  lemma {:induction false} StoredFits(c: WFChart, hist: HistoryMap, target: int, paths: set<int>)
    requires 0 <= target < Size(c) && Kind(c, target) == History && HistoryValid(c, hist)
    requires AimsOnPaths(c, hist, paths, target)
    requires Stored(c, hist, target) != []
    ensures Landing(c, hist, target) == Stored(c, hist, target)
    ensures Enterable(c, Stored(c, hist, target), paths)
  {
    forall x | x in Stored(c, hist, target) ensures 0 <= x < Size(c) && Kind(c, x) != History && OnPaths(c, paths, x) {
      LandingBelow(c, hist, target, x);
      assert Aim(c, hist, target, x);
    }
    forall x, y | x in Stored(c, hist, target) && y in Stored(c, hist, target) && Desc(c, x, y) ensures x == y {
      LandingIncomparable(c, hist, target, y, x, x);
    }
  }

  ghost predicate Enterable(c: Chart, xs: seq<int>, paths: set<int>) {
    && (forall x :: x in xs ==> 0 <= x < Size(c) && Kind(c, x) != History && OnPaths(c, paths, x))
    && (forall x, y {:trigger Desc(c, x, y)} :: x in xs && y in xs && Desc(c, x, y) ==> x == y)
  }

  ghost function AllNear(c: Chart, xs: seq<int>): set<int> {
    set n | n in c.heap && exists x :: x in xs && n in Near(c, x)
  }

  method EnterStored(c: WFChart, p: int, stored: seq<int>, entered: seq<int>, via: set<int>, ghost paths: set<int>,
                     ghost ys: set<int>, ghost r: set<int>)
    returns (entered': seq<int>, via': set<int>, ghost ys': set<int>)
    requires Entering(c, entered, via, paths, ys) && Covered(c, r, entered, p) && Enterable(c, stored, paths)
    ensures Entering(c, entered', via', paths, ys') && Elems(entered) <= Elems(entered')
    ensures ys' == ys + (Elems(stored) - Elems(entered))
    ensures forall x {:trigger Covered(c, r, entered', x)} :: x in stored ==> Covered(c, r, entered', x)
  {
    entered', via', ys' := entered, via, ys;
    for i := 0 to |stored|
      invariant Entering(c, entered', via', paths, ys')
      invariant Elems(entered) <= Elems(entered') <= Elems(entered) + AllNear(c, stored[..i])
      invariant ys' == ys + (Elems(stored[..i]) - Elems(entered))
      invariant forall x {:trigger Covered(c, r, entered', x)} :: x in stored[..i] ==> Covered(c, r, entered', x)
    {
      var x := stored[i];
      assert x in stored;
      ghost var before := entered';
      CoveredLater(c, r, entered, entered', p);
      entered', via', ys' := EnterNode(c, p, x, entered', via', paths, ys', r);
      NextStored(c, stored, i, entered, before, paths);
      AllCoveredNext(c, r, stored, i, before, entered');
    }
    assert stored[..|stored|] == stored;
  }

  /** The next stored node has been entered before only if it already was when the first one was looked at. */
  lemma {:induction false} NextStored(c: Chart, stored: seq<int>, i: nat, entered: seq<int>, before: seq<int>,
                                      paths: set<int>)
    requires i < |stored| && Enterable(c, stored, paths)
    requires Elems(entered) <= Elems(before) <= Elems(entered) + AllNear(c, stored[..i])
    ensures Elems(stored[..i + 1]) == Elems(stored[..i]) + {stored[i]}
    ensures stored[i] in Elems(before) ==> stored[i] in Elems(entered) || stored[i] in Elems(stored[..i])
    ensures AllNear(c, stored[..i]) + Near(c, stored[i]) == AllNear(c, stored[..i + 1])
  {
    var x := stored[i];
    TakeNext(stored, i);
    ElemsConcat(stored[..i], [x]);
    assert x in stored;
    if x in AllNear(c, stored[..i]) {
      var z :| z in stored[..i] && x in Near(c, z);
      assert z in stored;
    }
    assert forall z :: z in stored[..i + 1] <==> z in stored[..i] || z == x;
  }

  lemma {:induction false} AllCoveredNext(c: Chart, r: set<int>, xs: seq<int>, i: nat, before: seq<int>,
                                          entered: seq<int>)
    requires i < |xs| && Elems(before) <= Elems(entered) && Covered(c, r, entered, xs[i])
    requires forall x {:trigger Covered(c, r, before, x)} :: x in xs[..i] ==> Covered(c, r, before, x)
    ensures forall x {:trigger Covered(c, r, entered, x)} :: x in xs[..i + 1] ==> Covered(c, r, entered, x)
  {
    TakeNext(xs, i);
    forall x | x in xs[..i + 1] ensures Covered(c, r, entered, x) {
      if x != xs[i] {
        assert Covered(c, r, before, x);
        CoveredLater(c, r, before, entered, x);
      }
    }
  }
}
