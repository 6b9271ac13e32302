/**
 Configurations: which sets of nodes are legal, what it means to complete a
 partial one, and the loops that descend through initial states.
 */
module Configurations {
  import opened StateNodes

  /** The child a compound node is entered through: history nodes are resolved to their default. */
  function EntryChild(c: Chart, p: int): int {
    var i := Initial(c, p);
    if Kind(c, i) == History then Default(c, i) else i
  }

  /** Where a target takes the machine: a history node stands for its parent. */
  function Anchor(c: Chart, t: int): int {
    if Kind(c, t) == History then Parent(c, t) else t
  }

  ghost predicate Siblings(c: Chart, a: int, b: int) {
    0 < a < Size(c) && 0 < b < Size(c) && a != b && Parent(c, a) == Parent(c, b)
  }

  /** Neither node lies below the other, and the paths to them part at a parallel node. */
  ghost predicate Apart(c: Chart, x: int, y: int) {
    && !Desc(c, x, y) && !Desc(c, y, x)
    && (forall a, b {:trigger Desc(c, x, a), Desc(c, y, b)} ::
          Siblings(c, a, b) && Desc(c, x, a) && Desc(c, y, b) ==> Kind(c, Parent(c, a)) == Parallel)
  }

  ghost predicate TargetsApart(c: Chart, targets: seq<int>) {
    && (forall t :: t in targets ==> 0 <= t < Size(c))
    && (forall i, j :: 0 <= i < |targets| && 0 <= j < |targets| && i != j ==>
          Apart(c, Anchor(c, targets[i]), Anchor(c, targets[j])))
  }

  /** What the interpreter needs of a chart beyond what building it checks. */
  ghost predicate WellFormed(c: Chart) {
    && (forall n {:trigger Children(c, n)} :: Kind(c, n) == History ==> Children(c, n) == [])
       // a history default is a non-history sibling
    && (forall n {:trigger Default(c, n)} :: Default(c, n) != NULL ==>
          0 < Default(c, n) < Size(c) && Parent(c, Default(c, n)) == Parent(c, n) && Kind(c, Default(c, n)) != History)
       // an initial history child has such a default
    && (forall n {:trigger Initial(c, n)} ::
              Initial(c, n) != NULL && Kind(c, Initial(c, n)) == History ==> Default(c, Initial(c, n)) != NULL)
       // a parallel node has a region, and its history children no default
    && (forall p {:trigger Children(c, p)} :: Kind(c, p) == Parallel ==> exists r ::
              r in Children(c, p) && Kind(c, r) != History)
    && (forall h {:trigger Default(c, h)} ::
              0 < h < Size(c) && Kind(c, h) == History && Kind(c, Parent(c, h)) == Parallel ==> Default(c, h) == NULL)
  }

  /** The targets of every transition are nodes of the chart. */
  ghost predicate TargetsExist(c: Chart) {
    forall t, x {:trigger x in Targets(c, t)} :: x in Targets(c, t) ==> 0 <= x < Size(c)
  }

  lemma OrthogonalTargetsExist(c: Chart)
    requires Orthogonal(c)
    ensures TargetsExist(c)
  {
    forall t, x | x in Targets(c, t) ensures 0 <= x < Size(c) { assert TargetsApart(c, Targets(c, t)); }
  }

  /** The targets of every transition exist and can be active together. */
  ghost predicate Orthogonal(c: Chart) {
    forall t {:trigger Targets(c, t)} :: TargetsApart(c, Targets(c, t))
  }

  lemma SolitaryIsWellFormed()
    ensures Tree(SOLITARY) && WellFormed(SOLITARY)
  {
    SolitaryIsTree();
  }

  /** A chart the interpreter is meant for. */
  type WFChart = c: Chart | WellFormed(c) ghost witness (SolitaryIsWellFormed(); SOLITARY)

  /** Nodes of the chart, none of them history, the root among them, closed under parents. */
  ghost predicate Closed(c: Chart, s: set<int>) {
    && 0 in s
    && (forall n :: n in s ==> 0 <= n < Size(c) && Kind(c, n) != History)
    && (forall n {:trigger Parent(c, n) in s} :: n in s && n != 0 ==> Parent(c, n) in s)
  }

  ghost predicate AtMostOne(c: Chart, s: set<int>) {
    forall a, b :: a in s && b in s && Siblings(c, a, b) ==> Kind(c, Parent(c, a)) == Parallel
  }

  ghost predicate Partial(c: Chart, s: set<int>) {
    Closed(c, s) && AtMostOne(c, s)
  }

  /** `n` needs nothing below it, or has it. */
  ghost predicate Settled(c: Chart, s: set<int>, n: int) {
    && (Kind(c, n) == Parallel ==> forall r :: r in Children(c, n) && Kind(c, r) != History ==> r in s)
    && (Kind(c, n) == Compound && Children(c, n) != [] ==> exists b :: b in Children(c, n) && b in s)
  }

  /** A legal configuration. */
  ghost predicate Legal(c: Chart, s: set<int>) {
    Partial(c, s) && forall n {:trigger Settled(c, s, n)} :: n in s ==> Settled(c, s, n)
  }

  /** `n` is where its parent starts by default. */
  ghost predicate ByDefault(c: Chart, n: int) {
    0 < n && (Kind(c, Parent(c, n)) == Parallel || n == EntryChild(c, Parent(c, n)))
  }

  /** `t` is a legal configuration that adds to `s` only states entered by default. */
  ghost predicate Completes(c: Chart, s: set<int>, t: set<int>) {
    && s <= t
    && Legal(c, t)
    && (forall n :: n in t && n !in s ==> ByDefault(c, n))
  }

  /** `n` is entered by default, and below a compound node only if `s` has none of its children. */
  ghost predicate Missing(c: Chart, s: set<int>, n: int) {
    && ByDefault(c, n)
    && (Kind(c, Parent(c, n)) == Parallel || forall b :: b in Children(c, Parent(c, n)) ==> b !in s)
  }

  /** `t` is `s` with all that is missing in it, whether `s` is partial or not. */
  ghost predicate Fills(c: Chart, s: set<int>, t: set<int>) {
    && s <= t
    && Closed(c, t)
    && (forall n {:trigger Settled(c, t, n)} :: n in t ==> Settled(c, t, n))
    && (forall n :: n in t && n !in s ==> Missing(c, s, n))
  }

  /** Filling never mends two active children of a compound node, and never makes any. */
  lemma {:induction false} FillsLegal(c: Chart, s: set<int>, t: set<int>)
    requires Closed(c, s) && Fills(c, s, t)
    ensures Legal(c, t) <==> Partial(c, s)
    ensures Legal(c, t) ==> Completes(c, s, t)
  {
    if Partial(c, s) {
      forall a, b | a in t && b in t && Siblings(c, a, b) ensures Kind(c, Parent(c, a)) == Parallel {
        assert a in Children(c, Parent(c, a)) && b in Children(c, Parent(c, a));
        assert a !in s ==> Missing(c, s, a);
        assert b !in s ==> Missing(c, s, b);
      }
    }
  }

  lemma {:induction false} CompletesFills(c: Chart, s: set<int>, t: set<int>)
    requires Completes(c, s, t)
    ensures Fills(c, s, t)
  {
    forall n | n in t && n !in s ensures Missing(c, s, n) {
      forall b | b in Children(c, Parent(c, n)) && b in s ensures Kind(c, Parent(c, n)) == Parallel {
        assert b in t && Siblings(c, b, n);
      }
    }
  }

  lemma {:induction false} EntryChildIsChild(c: WFChart, p: int)
    requires Initial(c, p) != NULL
    ensures EntryChild(c, p) in Children(c, p) && 0 < EntryChild(c, p) < Size(c) && Parent(c, EntryChild(c, p)) == p
    ensures Kind(c, EntryChild(c, p)) != History && ByDefault(c, EntryChild(c, p))
  {
    assert Initial(c, p) in Children(c, p);
    assert Default(c, Initial(c, p)) != NULL ==> 0 < EntryChild(c, p);
    assert EntryChild(c, p) in Children(c, p);
  }

  lemma {:induction false} ClosedUp(c: Chart, s: set<int>, n: int, a: int)
    requires Closed(c, s) && n in s && Desc(c, n, a)
    ensures a in s
    decreases n
  {
    if n != a { ClosedUp(c, s, Parent(c, n), a); }
  }

  lemma {:induction false} FillsContained(c: Chart, s: set<int>, t: set<int>, u: set<int>, n: int)
    requires Fills(c, s, t) && Fills(c, s, u) && n in t
    ensures n in u
    decreases n
  {
    if n !in s {
      var p := Parent(c, n);
      FillsContained(c, s, t, u, p);
      assert Settled(c, u, p) && Missing(c, s, n);
      assert n in Children(c, p);
      if Kind(c, p) != Parallel {
        var b :| b in Children(c, p) && b in u;
        assert Missing(c, s, b);
      }
    }
  }

  /** There is one way to fill a set. */
  lemma {:induction false} FillingUnique(c: Chart, s: set<int>, t: set<int>, u: set<int>)
    requires Fills(c, s, t) && Fills(c, s, u)
    ensures t == u
  {
    forall n | n in t ensures n in u { FillsContained(c, s, t, u, n); }
    forall n | n in u ensures n in t { FillsContained(c, s, u, t, n); }
  }

  /** A partial configuration has at most one completion. */
  lemma {:induction false} CompletionUnique(c: Chart, s: set<int>, t: set<int>, u: set<int>)
    requires Completes(c, s, t) && Completes(c, s, u)
    ensures t == u
  {
    CompletesFills(c, s, t);
    CompletesFills(c, s, u);
    FillingUnique(c, s, t, u);
  }

  /** Legal configurations do not contain one another. */
  lemma {:induction false} LegalMinimal(c: WFChart, s: set<int>, t: set<int>)
    requires Legal(c, s) && Legal(c, t) && s <= t
    ensures s == t
  {
    forall n | n in t ensures n in s { LegalContained(c, s, t, n); }
  }

  lemma {:induction false} LegalContained(c: WFChart, s: set<int>, t: set<int>, n: int)
    requires Legal(c, s) && Legal(c, t) && s <= t && n in t
    ensures n in s
    decreases n
  {
    if n != 0 {
      var p := Parent(c, n);
      LegalContained(c, s, t, p);
      assert Settled(c, s, p);
      assert n in Children(c, p);
      if Kind(c, p) != Parallel {
        var b :| b in Children(c, p) && b in s;
        assert b != n ==> Siblings(c, b, n);
      }
    }
  }
}
