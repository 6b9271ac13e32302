/** Entering states: initial descents, target resolution and the completion of a configuration. */
module Entry {
  import opened Basics
  import opened StateNodes
  import opened Configurations

  // ---- descending through initial states ----

  /** `n` is entered by taking its parent's initial transition, or as a region. */
  predicate Taken(c: Chart, n: int) {
    Kind(c, Parent(c, n)) == Parallel || Initial(c, Parent(c, n)) == n
  }

  /** Everything `n` enters by default just below itself is in `l`. */
  ghost predicate Expanded(c: Chart, n: int, l: seq<int>) {
    && (Kind(c, n) == Parallel ==> forall r :: r in Children(c, n) && Kind(c, r) != History ==> r in l)
    && (Initial(c, n) != NULL ==> EntryChild(c, n) in l)
  }

  /** `l` starts at `x` and lists, in document order, `x` and all it enters by default below itself. */
  ghost predicate Descent(c: Chart, x: int, l: seq<int>) {
    && l != [] && l[0] == x
    && Ascending(l)
    && (forall n :: n in l ==> 0 <= n < Size(c) && Kind(c, n) != History)
    && (forall n {:trigger Desc(c, n, x)} :: n in l ==> Desc(c, n, x))
    && (forall n {:trigger Parent(c, n) in l} :: n in l && n != x ==> Parent(c, n) in l && ByDefault(c, n))
    && (forall n {:trigger Expanded(c, n, l)} :: n in l ==> Expanded(c, n, l))
  }

  /** A descent from `x` that has gone through some of the first `i` children of `x`. */
  ghost predicate Descending(c: Chart, x: int, i: nat, l: seq<int>) {
    && l != [] && l[0] == x
    && Ascending(l)
    && (forall n :: n in l ==> 0 <= n < Size(c) && Kind(c, n) != History)
    && (forall n {:trigger Desc(c, n, x)} :: n in l ==> Desc(c, n, x))
    && (forall n, j :: n in l && i <= j < |Children(c, x)| ==> n < Children(c, x)[j])
    && (forall n {:trigger Parent(c, n) in l} :: n in l && n != x ==> Parent(c, n) in l && ByDefault(c, n))
    && (forall n {:trigger Expanded(c, n, l)} :: n in l && n != x ==> Expanded(c, n, l))
  }

  /** The nodes of `l` entered through an initial transition; `top` says whether `x` was. */
  function ViaOf(c: Chart, x: int, l: seq<int>, top: bool): set<int> {
    set n | n in l && (if n == x then top else Taken(c, n))
  }

  function Resolved(c: Chart, x: int): int {
    if Kind(c, x) == History then Default(c, x) else x
  }

  /** `n` is `y`, or entered by default below it. */
  ghost predicate DefaultBelow(c: Chart, n: int, y: int)
    decreases n
  {
    n == y || (0 <= Parent(c, n) < n && Kind(c, n) != History && ByDefault(c, n) && DefaultBelow(c, Parent(c, n), y))
  }

  /** What entering `y` enters by default, `y` included. */
  ghost function Defaults(c: Chart, y: int): set<int> {
    set n | n in c.heap && DefaultBelow(c, n, y)
  }

  lemma {:induction false} DefaultBelowDesc(c: Chart, n: int, y: int)
    requires DefaultBelow(c, n, y)
    ensures Desc(c, n, y)
    decreases n
  {
    if n != y { DefaultBelowDesc(c, Parent(c, n), y); }
  }

  /** A descent lists exactly the default descendants. */
  lemma {:induction false} DescentIsDefaults(c: WFChart, y: int, l: seq<int>)
    requires Descent(c, y, l)
    ensures Elems(l) == Defaults(c, y)
  {
    forall n | n in l ensures n in Defaults(c, y) { ListedIsDefault(c, y, l, n); }
    forall n | n in Defaults(c, y) ensures n in l { DefaultIsListed(c, y, l, n); }
  }

  lemma {:induction false} ListedIsDefault(c: WFChart, y: int, l: seq<int>, n: int)
    requires Descent(c, y, l) && n in l
    ensures DefaultBelow(c, n, y)
    decreases n
  {
    if n != y {
      assert Parent(c, n) in l;
      ListedIsDefault(c, y, l, Parent(c, n));
    }
  }

  lemma {:induction false} DefaultIsListed(c: WFChart, y: int, l: seq<int>, n: int)
    requires Descent(c, y, l) && 0 <= n < Size(c) && DefaultBelow(c, n, y)
    ensures n in l
    decreases n
  {
    if n == y {
      assert l[0] in l;
    } else {
      var p := Parent(c, n);
      DefaultIsListed(c, y, l, p);
      assert Expanded(c, p, l) && n in Children(c, p);
    }
  }

  /** Siblings' subtrees do not interleave in document order. */
  lemma {:induction false} SiblingSubtreesOrdered(c: Chart, r: int, s: int, n: int)
    requires Siblings(c, r, s) && r < s && 0 <= n < Size(c) && Desc(c, n, r)
    ensures n < s
  {
    if s <= n {
      SubtreeInterval(c, r, s, n);
      BelowParent(c, s, r);
      DescBounds(c, Parent(c, s), r);
      assert false;
    }
  }

  lemma {:induction false} AscendingConcat(s: seq<int>, t: seq<int>)
    requires Ascending(s) && Ascending(t)
    requires forall x, y :: x in s && y in t ==> x < y
    ensures Ascending(s + t)
  {
    var u := s + t;
    forall i, j | 0 <= i < j < |u| ensures u[i] < u[j] {
      if i < |s| <= j { assert u[i] in s && u[j] in t; }
    }
  }

  lemma {:induction false} DescendingExtends(c: Chart, x: int, i: nat, l: seq<int>, below: seq<int>)
    requires i < |Children(c, x)| && Descending(c, x, i, l)
    requires ByDefault(c, Children(c, x)[i]) && Descent(c, Children(c, x)[i], below)
    ensures Descending(c, x, i + 1, l + below)
    ensures forall n :: n in below ==> n != x
    ensures Children(c, x)[i] in l + below
  {
    var l', r := l + below, Children(c, x)[i];
    assert r in Children(c, x) && l[0] in l && below[0] in below;
    forall n | n in below ensures r <= n && x < n && Desc(c, n, x) {
      DescBounds(c, n, r);
      DescTrans(c, n, r, x);
    }
    AscendingConcat(l, below);
    forall n, j | n in l' && i + 1 <= j < |Children(c, x)| ensures n < Children(c, x)[j] {
      var s := Children(c, x)[j];
      assert s in Children(c, x) && Ascending(Children(c, x));
      if n in below { SiblingSubtreesOrdered(c, r, s, n); }
    }
    forall n | n in l' && n != x ensures Parent(c, n) in l' && ByDefault(c, n) {
      if n in l { assert Parent(c, n) in l; }
      else if n == r { assert Parent(c, n) == x; }
      else { assert Parent(c, n) in below; }
    }
    forall n | n in l' && n != x ensures Expanded(c, n, l') {
      if n in l { assert Expanded(c, n, l); } else { assert Expanded(c, n, below); }
    }
  }

  lemma {:induction false} ViaExtends(c: Chart, x: int, l: seq<int>, r: int, below: seq<int>, top: bool)
    requires forall n :: n in below ==> n != x
    ensures ViaOf(c, x, l + below, top) == ViaOf(c, x, l, top) + ViaOf(c, r, below, Taken(c, r))
  {
    assert forall n :: n in l + below <==> n in l || n in below;
  }

  lemma {:induction false} DescendingStart(c: Chart, x: int)
    requires 0 <= x < Size(c) && Kind(c, x) != History
    ensures Descending(c, x, 0, [x])
    ensures ViaOf(c, x, [x], false) == {} && ViaOf(c, x, [x], true) == {x}
  {
    forall j | 0 <= j < |Children(c, x)| ensures x < Children(c, x)[j] {
      assert Children(c, x)[j] in Children(c, x);
    }
  }

  lemma {:induction false} DescendingDone(c: Chart, x: int, i: nat, l: seq<int>)
    requires Descending(c, x, i, l) && Expanded(c, x, l)
    ensures Descent(c, x, l)
  {
    forall n | n in l && n != x ensures Parent(c, n) in l && ByDefault(c, n) {
      assert Parent(c, n) in l;
    }
  }

  /**
   `l` was entered by descending from `x`, and of it those reached through initial transitions were added to `via`.
   */
  ghost predicate Entered(c: Chart, x: int, isVia: bool, l: seq<int>, via: set<int>, via': set<int>) {
    if Resolved(c, x) == NULL then l == [] && via' == via
    else Descent(c, Resolved(c, x), l) && via' == via + ViaOf(c, Resolved(c, x), l, isVia && Kind(c, x) != History)
  }

  /** The bookkeeping of one more descent, from `y` to the `i`-th child of `x`. */
  lemma {:induction false} Extended(c: Chart, x: int, i: nat, y: int, cfg0: seq<int>, via0: set<int>, l: seq<int>,
                                    v: set<int>, top: bool, below: seq<int>, via': set<int>)
    returns (l': seq<int>, v': set<int>)
    requires i < |Children(c, x)| && Descending(c, x, i, l) && v == ViaOf(c, x, l, top)
    requires Resolved(c, y) == Children(c, x)[i] != NULL && ByDefault(c, Resolved(c, y))
    requires Taken(c, Resolved(c, y)) <==> Kind(c, y) != History
    requires Entered(c, y, true, below, via0 + v, via')
    ensures l' == l + below && cfg0 + l + below == cfg0 + l' && via' == via0 + v'
    ensures Descending(c, x, i + 1, l') && v' == ViaOf(c, x, l', top) && Children(c, x)[i] in l'
  {
    DescendingExtends(c, x, i, l, below);
    ViaExtends(c, x, l, Resolved(c, y), below, top);
    l', v' := l + below, v + ViaOf(c, Resolved(c, y), below, Taken(c, Resolved(c, y)));
    assert cfg0 + l + below == cfg0 + l';
  }

  method AddInitial(c: WFChart, x: int, cfg: seq<int>, via: set<int>, isVia: bool)
    returns (cfg': seq<int>, via': set<int>, ghost l: seq<int>)
    requires 0 <= x < Size(c)
    ensures cfg <= cfg' && via <= via'
    ensures cfg' == cfg + l && Entered(c, x, isVia, l, via, via')
    decreases Size(c) - Resolved(c, x), if Kind(c, x) == History then 3 else 2
  {
    cfg', via', l := cfg, via, [];
    if Kind(c, x) == History {
      if Default(c, x) != NULL {
        cfg', via', l := AddInitial(c, Default(c, x), cfg', via', false);
      }
    } else {
      ghost var v := {};
      cfg' := cfg' + [x];
      if isVia { via', v := via' + {x}, {x}; }
      DescendingStart(c, x);
      cfg', via', l, v := AddBelow(c, x, cfg', via', cfg, via, [x], v, isVia);
    }
  }

  /** The part of `AddInitial` below `x`; the ghost arguments say what came before. */
  method AddBelow(c: WFChart, x: int, cfg: seq<int>, via: set<int>, ghost cfg0: seq<int>, ghost via0: set<int>,
                  ghost l0: seq<int>, ghost v0: set<int>, ghost top: bool)
    returns (cfg': seq<int>, via': set<int>, ghost l: seq<int>, ghost v: set<int>)
    requires 0 <= x < Size(c) && Kind(c, x) != History
    requires cfg == cfg0 + l0 && via == via0 + v0 && v0 == ViaOf(c, x, l0, top) && Descending(c, x, 0, l0)
    ensures cfg' == cfg0 + l && via' == via0 + v && v == ViaOf(c, x, l, top) && Descent(c, x, l)
    decreases Size(c) - x, 1
  {
    cfg', via', l, v := cfg, via, l0, v0;
    if Kind(c, x) == Parallel {
      cfg', via', l, v := AddRegions(c, x, cfg', via', cfg0, via0, l, v, top);
      DescendingDone(c, x, |Children(c, x)|, l);
    } else if Initial(c, x) != NULL {
      ghost var i := EntryIndex(c, x);
      ghost var below;
      cfg', via', below := AddInitial(c, Initial(c, x), cfg', via', true);
      l, v := Extended(c, x, i, Initial(c, x), cfg0, via0, l, v, top, below, via');
      DescendingDone(c, x, i + 1, l);
    } else {
      DescendingDone(c, x, 0, l);
    }
  }

  /** The loop of `AddInitial` over the regions of a parallel node; the ghost arguments say what came before. */
  method AddRegions(c: WFChart, x: int, cfg: seq<int>, via: set<int>, ghost cfg0: seq<int>, ghost via0: set<int>,
                    ghost l0: seq<int>, ghost v0: set<int>, ghost top: bool)
    returns (cfg': seq<int>, via': set<int>, ghost l: seq<int>, ghost v: set<int>)
    requires 0 <= x < Size(c) && Kind(c, x) == Parallel
    requires cfg == cfg0 + l0 && via == via0 + v0 && v0 == ViaOf(c, x, l0, top) && Descending(c, x, 0, l0)
    ensures cfg' == cfg0 + l && via' == via0 + v && v == ViaOf(c, x, l, top)
    ensures Descending(c, x, |Children(c, x)|, l) && Expanded(c, x, l)
    decreases Size(c) - x, 0, |Children(c, x)| + 1
  {
    cfg', via', l, v := cfg, via, l0, v0;
    for i := 0 to |Children(c, x)|
      invariant cfg' == cfg0 + l && via' == via0 + v && v == ViaOf(c, x, l, top)
      invariant Descending(c, x, i, l) && RegionsIn(c, x, i, l)
    {
      cfg', via', l, v := AddRegion(c, x, i, cfg', via', cfg0, via0, l, v, top);
    }
    RegionsExpanded(c, x, l);
  }

  /** One turn of that loop. */
  method AddRegion(c: WFChart, x: int, i: nat, cfg: seq<int>, via: set<int>, ghost cfg0: seq<int>, ghost via0: set<int>,
                   ghost l0: seq<int>, ghost v0: set<int>, ghost top: bool)
    returns (cfg': seq<int>, via': set<int>, ghost l: seq<int>, ghost v: set<int>)
    requires 0 <= x < Size(c) && Kind(c, x) == Parallel && i < |Children(c, x)|
    requires cfg == cfg0 + l0 && via == via0 + v0 && v0 == ViaOf(c, x, l0, top)
    requires Descending(c, x, i, l0) && RegionsIn(c, x, i, l0)
    ensures cfg' == cfg0 + l && via' == via0 + v && v == ViaOf(c, x, l, top)
    ensures Descending(c, x, i + 1, l) && RegionsIn(c, x, i + 1, l)
    decreases Size(c) - x, 0, i
  {
    cfg', via', l, v := cfg, via, l0, v0;
    var region := Children(c, x)[i];
    if Kind(c, region) != History {
      RegionByDefault(c, x, i);
      ghost var below;
      cfg', via', below := AddInitial(c, region, cfg', via', true);
      l, v := Extended(c, x, i, region, cfg0, via0, l, v, top, below, via');
      RegionsGrow(c, x, i, l0, l);
    }
  }

  /** The regions among the first `i` children of `x` are all in `l`. */
  ghost predicate RegionsIn(c: Chart, x: int, i: nat, l: seq<int>)
    requires i <= |Children(c, x)|
  {
    forall j :: 0 <= j < i && Kind(c, Children(c, x)[j]) != History ==> Children(c, x)[j] in l
  }

  lemma RegionsGrow(c: Chart, x: int, i: nat, l: seq<int>, l': seq<int>)
    requires i < |Children(c, x)| && RegionsIn(c, x, i, l)
    requires Children(c, x)[i] in l' && forall n :: n in l ==> n in l'
    ensures RegionsIn(c, x, i + 1, l')
  {}

  lemma {:induction false} RegionsExpanded(c: WFChart, x: int, l: seq<int>)
    requires 0 <= x < Size(c) && Kind(c, x) == Parallel && RegionsIn(c, x, |Children(c, x)|, l)
    ensures Expanded(c, x, l)
  {
    forall r | r in Children(c, x) && Kind(c, r) != History ensures r in l {
      var j :| 0 <= j < |Children(c, x)| && Children(c, x)[j] == r;
    }
  }

  lemma {:induction false} RegionByDefault(c: Chart, x: int, i: nat)
    requires Kind(c, x) == Parallel && i < |Children(c, x)|
    ensures x < Children(c, x)[i] < Size(c)
    ensures ByDefault(c, Children(c, x)[i]) && Taken(c, Children(c, x)[i])
  {
    assert Children(c, x)[i] in Children(c, x);
  }

  lemma {:induction false} EntryIndex(c: WFChart, x: int) returns (i: nat)
    requires Initial(c, x) != NULL
    ensures i < |Children(c, x)| && Children(c, x)[i] == EntryChild(c, x)
    ensures x < Initial(c, x) < Size(c) && x < EntryChild(c, x) && ByDefault(c, EntryChild(c, x))
    ensures Taken(c, EntryChild(c, x)) <==> Kind(c, Initial(c, x)) != History
  {
    EntryChildIsChild(c, x);
    assert Initial(c, x) in Children(c, x);
    i :| 0 <= i < |Children(c, x)| && Children(c, x)[i] == EntryChild(c, x);
  }
}
