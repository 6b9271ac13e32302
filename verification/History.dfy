/** Recording the history of exited nodes. */
module Histories {
  import opened Basics
  import opened StateNodes
  import opened Configurations
  import opened Targeting

  method RecordFor(c: Chart, active: set<int>, n: int, h: int) returns (rec: seq<int>)
    requires 0 < h < Size(c) && Parent(c, h) == n && forall a :: a in active ==> 0 <= a < Size(c)
    ensures rec == Record(c, active, h)
  {
    if At(c, h).history == Shallow { rec := RecordShallow(Children(c, n), active); }
    else { rec := RecordDeep(c, active, n); }
  }

  method RecordShallow(children: seq<int>, active: set<int>) returns (rec: seq<int>)
    ensures rec == Restrict(children, active)
  {
    rec := [];
    for i := 0 to |children|
      invariant rec == Restrict(children[..i], active)
    {
      RestrictNext(children, i, active);
      if children[i] in active { rec := rec + [children[i]]; }
    }
    assert children[..|children|] == children;
  }

  /** The active nodes below `n` without an active child. */
  ghost function LeavesBelow(c: Chart, active: set<int>, n: int): set<int> {
    set a | a in active && a != n && Desc(c, a, n) && AtomicIn(c, active, a)
  }

  method HasNoActiveChild(c: Chart, active: set<int>, a: int) returns (atomic: bool)
    ensures atomic == AtomicIn(c, active, a)
  {
    var children := Children(c, a);
    for j := 0 to |children|
      invariant forall ch :: ch in children[..j] ==> ch !in active
    {
      var ch := children[j];
      assert ch in children;
      TakeNext(children, j);
      if ch in active { return false; }
    }
    assert children[..|children|] == children;
    return true;
  }

  method IsLeafBelow(c: Chart, active: set<int>, a: int, n: int) returns (leaf: bool)
    requires a in active && 0 <= a < Size(c) && 0 <= n
    ensures leaf <==> a in LeavesBelow(c, active, n)
  {
    leaf := false;
    var inside := IsDescendantOf(c, a, n);
    if a != n && inside { leaf := HasNoActiveChild(c, active, a); }
  }

  method RecordDeep(c: Chart, active: set<int>, n: int) returns (rec: seq<int>)
    requires 0 <= n < Size(c) && forall a :: a in active ==> 0 <= a < Size(c)
    ensures rec == Restrict(c.heap, LeavesBelow(c, active, n))
  {
    rec := [];
    ghost var leaves := LeavesBelow(c, active, n);
    var order := Restrict(c.heap, active);
    for i := 0 to |order|
      invariant rec == Restrict(order[..i], leaves)
    {
      var a := order[i];
      assert a in order;
      RestrictNext(order, i, leaves);
      var leaf := IsLeafBelow(c, active, a, n);
      if leaf { rec := rec + [a]; }
    }
    assert order[..|order|] == order;
    RestrictTwice(c.heap, active, leaves);
  }

  ghost predicate KeysAre(c: Chart, hs: set<int>, hist: HistoryMap, hist': HistoryMap) {
    forall k :: k in hist' <==> k in hist || exists h :: h in hs && Id(c, h) == k
  }

  ghost predicate Recorded(c: Chart, active: set<int>, hs: set<int>, hist': HistoryMap) {
    forall h :: h in hs ==> Id(c, h) in hist' && hist'[Id(c, h)] == Record(c, active, h)
  }

  ghost predicate OthersStay(c: Chart, hs: set<int>, hist: HistoryMap, hist': HistoryMap)
    requires KeysAre(c, hs, hist, hist')
  {
    forall k :: k in hist && (forall h :: h in hs ==> Id(c, h) != k) ==> hist'[k] == hist[k]
  }

  /** `hist'` is `hist` with what the history nodes in `hs` record. */
  ghost predicate Updated(c: Chart, active: set<int>, hs: set<int>, hist: HistoryMap, hist': HistoryMap) {
    KeysAre(c, hs, hist, hist') && Recorded(c, active, hs, hist') && OthersStay(c, hs, hist, hist')
  }

  /** The history children of `nodes`. */
  ghost function HistoryChildren(c: Chart, nodes: set<int>): set<int> {
    set h | h in c.heap && 0 < h && Kind(c, h) == History && Parent(c, h) in nodes
  }

  lemma {:induction false} KeysMore(c: Chart, hs: set<int>, hist: HistoryMap, hist': HistoryMap, h: int, rec: seq<int>)
    requires KeysAre(c, hs, hist, hist')
    ensures KeysAre(c, hs + {h}, hist, hist'[Id(c, h) := rec])
  {
    var hs' := hs + {h};
    forall k ensures k in hist'[Id(c, h) := rec] <==> k in hist || exists g :: g in hs' && Id(c, g) == k {
      if k == Id(c, h) { assert h in hs'; }
      if g :| g in hs && Id(c, g) == k { assert g in hs'; }
    }
  }

  lemma {:induction false} RecordedMore(c: Chart, active: set<int>, hs: set<int>, hist': HistoryMap, h: int)
    requires Recorded(c, active, hs, hist') && 0 <= h < Size(c) && forall g :: g in hs ==> 0 <= g < Size(c)
    ensures Recorded(c, active, hs + {h}, hist'[Id(c, h) := Record(c, active, h)])
  {
    forall g | g in hs && g != h ensures Id(c, g) != Id(c, h) {
      assert g < h || h < g;
    }
  }

  lemma {:induction false} OthersStayMore(c: Chart, hs: set<int>, hist: HistoryMap, hist': HistoryMap, h: int,
                                          rec: seq<int>)
    requires KeysAre(c, hs, hist, hist') && OthersStay(c, hs, hist, hist')
    requires KeysAre(c, hs + {h}, hist, hist'[Id(c, h) := rec])
    ensures OthersStay(c, hs + {h}, hist, hist'[Id(c, h) := rec])
  {
    var hs', hist'' := hs + {h}, hist'[Id(c, h) := rec];
    forall k | k in hist && (forall g :: g in hs' ==> Id(c, g) != k) ensures hist''[k] == hist[k] {
      assert h in hs';
      forall g | g in hs ensures Id(c, g) != k { assert g in hs'; }
    }
  }

  lemma {:induction false} UpdatedMore(c: Chart, active: set<int>, hs: set<int>, hist: HistoryMap, hist': HistoryMap,
                                       h: int)
    requires Updated(c, active, hs, hist, hist') && 0 <= h < Size(c) && forall g :: g in hs ==> 0 <= g < Size(c)
    ensures Updated(c, active, hs + {h}, hist, hist'[Id(c, h) := Record(c, active, h)])
  {
    KeysMore(c, hs, hist, hist', h, Record(c, active, h));
    RecordedMore(c, active, hs, hist', h);
    OthersStayMore(c, hs, hist, hist', h, Record(c, active, h));
  }

  lemma {:induction false} HistoryChildrenNext(c: Chart, nodes: seq<int>, i: nat)
    requires i < |nodes|
    ensures HistoryChildren(c, Elems(nodes[..i + 1]))
         == HistoryChildren(c, Elems(nodes[..i])) + HistoryChildren(c, {nodes[i]})
    ensures forall h :: h in HistoryChildren(c, Elems(nodes[..i])) ==> 0 <= h < Size(c)
  {
    TakeNext(nodes, i);
    ElemsConcat(nodes[..i], [nodes[i]]);
    assert HistoryChildren(c, Elems(nodes[..i]) + {nodes[i]})
        == HistoryChildren(c, Elems(nodes[..i])) + HistoryChildren(c, {nodes[i]});
  }

  method RecordHistory(c: Chart, active: set<int>, exitOrdered: seq<int>, hist: HistoryMap) returns (hist': HistoryMap)
    requires forall a :: a in active ==> 0 <= a < Size(c)
    requires forall n :: n in exitOrdered ==> 0 <= n < Size(c)
    ensures Updated(c, active, HistoryChildren(c, Elems(exitOrdered)), hist, hist')
  {
    hist' := hist;
    for i := 0 to |exitOrdered|
      invariant Updated(c, active, HistoryChildren(c, Elems(exitOrdered[..i])), hist, hist')
    {
      var n := exitOrdered[i];
      assert n in exitOrdered;
      HistoryChildrenNext(c, exitOrdered, i);
      hist' := RecordNode(c, active, n, hist, hist', HistoryChildren(c, Elems(exitOrdered[..i])));
    }
    assert exitOrdered[..|exitOrdered|] == exitOrdered;
  }

  /** The loop over the children of one exited node; `hs` are the history nodes recorded before. */
  method RecordNode(c: Chart, active: set<int>, n: int, ghost hist: HistoryMap, current: HistoryMap, ghost hs: set<int>)
    returns (hist': HistoryMap)
    requires forall a :: a in active ==> 0 <= a < Size(c)
    requires 0 <= n < Size(c) && Updated(c, active, hs, hist, current) && forall h :: h in hs ==> 0 <= h < Size(c)
    ensures Updated(c, active, hs + HistoryChildren(c, {n}), hist, hist')
  {
    hist' := current;
    var children := Children(c, n);
    assert hs + HistoryAmong(c, children[..0]) == hs;
    for j := 0 to |children|
      invariant Updated(c, active, hs + HistoryAmong(c, children[..j]), hist, hist')
    {
      hist' := RecordChild(c, active, n, j, hist, hist', hs);
    }
    assert children[..|children|] == children;
    HistoryAmongAll(c, n);
  }

  /** One child of an exited node. */
  method RecordChild(c: Chart, active: set<int>, n: int, j: nat, ghost hist: HistoryMap, current: HistoryMap,
                     ghost hs: set<int>)
    returns (hist': HistoryMap)
    requires forall a :: a in active ==> 0 <= a < Size(c)
    requires 0 <= n < Size(c) && j < |Children(c, n)| && forall h :: h in hs ==> 0 <= h < Size(c)
    requires Updated(c, active, hs + HistoryAmong(c, Children(c, n)[..j]), hist, current)
    ensures Updated(c, active, hs + HistoryAmong(c, Children(c, n)[..j + 1]), hist, hist')
  {
    hist' := current;
    var h := Children(c, n)[j];
    ghost var done := hs + HistoryAmong(c, Children(c, n)[..j]);
    assert h in Children(c, n);
    TakeNext(Children(c, n), j);
    HistoryAmongNext(c, Children(c, n)[..j], h);
    if Kind(c, h) == History {
      var rec := RecordFor(c, active, n, h);
      HistoryAmongInRange(c, n, j);
      UpdatedMore(c, active, done, hist, current, h);
      hist' := current[Id(c, h) := rec];
      assert hs + HistoryAmong(c, Children(c, n)[..j + 1]) == done + {h};
    } else {
      assert hs + HistoryAmong(c, Children(c, n)[..j + 1]) == done;
    }
  }

  lemma {:induction false} HistoryAmongInRange(c: Chart, n: int, j: nat)
    requires j <= |Children(c, n)|
    ensures forall h :: h in HistoryAmong(c, Children(c, n)[..j]) ==> 0 <= h < Size(c)
  {
    forall h | h in HistoryAmong(c, Children(c, n)[..j]) ensures 0 <= h < Size(c) {
      assert h in Children(c, n);
    }
  }

  lemma {:induction false} HistoryAmongAll(c: Chart, n: int)
    ensures HistoryAmong(c, Children(c, n)) == HistoryChildren(c, {n})
  {
    forall h ensures h in HistoryAmong(c, Children(c, n)) <==> h in HistoryChildren(c, {n}) {
      assert h in Children(c, n) <==> 0 < h < Size(c) && Parent(c, h) == n;
    }
  }

  ghost function HistoryAmong(c: Chart, nodes: seq<int>): set<int> {
    set h | h in nodes && Kind(c, h) == History
  }

  lemma {:induction false} HistoryAmongNext(c: Chart, nodes: seq<int>, h: int)
    ensures HistoryAmong(c, nodes + [h]) == HistoryAmong(c, nodes) + (if Kind(c, h) == History then {h} else {})
  {}

  /** Recording in a legal configuration keeps every stored value a record of some legal configuration. */
  lemma {:induction false} RecordingKeepsValid(c: WFChart, active: set<int>, exits: set<int>, hist: HistoryMap,
                                               hist': HistoryMap)
    requires Legal(c, active) && exits <= active && HistoryValid(c, hist)
    requires Updated(c, active, HistoryChildren(c, exits), hist, hist')
    ensures HistoryValid(c, hist')
  {
    forall h | 0 < h < Size(c) && Kind(c, h) == History && Id(c, h) in hist'
      ensures exists w :: Legal(c, w) && Parent(c, h) in w && hist'[Id(c, h)] == Record(c, w, h)
    {
      var hs := HistoryChildren(c, exits);
      if h in hs {
        assert Legal(c, active) && Parent(c, h) in active && hist'[Id(c, h)] == Record(c, active, h);
      } else {
        OtherIds(c, hs, h);
        assert Id(c, h) in hist && hist'[Id(c, h)] == hist[Id(c, h)];
      }
    }
  }

  lemma {:induction false} OtherIds(c: Chart, hs: set<int>, h: int)
    requires 0 <= h < Size(c) && h !in hs && forall g :: g in hs ==> 0 <= g < Size(c)
    ensures forall g :: g in hs ==> Id(c, g) != Id(c, h)
  {
    forall g | g in hs ensures Id(c, g) != Id(c, h) {
      assert g < h || h < g;
    }
  }

  /** What one update does to one history node's value. */
  lemma {:induction false} UpdatedAt(c: Chart, active: set<int>, hs: set<int>, hist: HistoryMap, hist': HistoryMap,
                                     h: int)
    requires Updated(c, active, hs, hist, hist') && 0 <= h < Size(c) && forall g :: g in hs ==> 0 <= g < Size(c)
    ensures h in hs ==> Id(c, h) in hist' && hist'[Id(c, h)] == Record(c, active, h)
    ensures h !in hs ==> (Id(c, h) in hist' <==> Id(c, h) in hist)
    ensures h !in hs && Id(c, h) in hist ==> hist'[Id(c, h)] == hist[Id(c, h)]
  {
    if h !in hs { OtherIds(c, hs, h); }
  }

  lemma {:induction false} UpdatedUnique(c: Chart, active: set<int>, hs: set<int>, hist: HistoryMap, hist': HistoryMap,
                                         hist'': HistoryMap)
    requires Updated(c, active, hs, hist, hist') && Updated(c, active, hs, hist, hist'')
    ensures hist' == hist''
  {
    forall k | k in hist' ensures k in hist'' && hist'[k] == hist''[k] {
      if h :| h in hs && Id(c, h) == k {
        assert hist'[Id(c, h)] == hist''[Id(c, h)];
      }
    }
    forall k | k in hist'' ensures k in hist' {}
  }
}
