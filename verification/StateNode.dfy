/**
 The parsed statechart: an arena of nodes indexed by document order, with the
 actions, guards and transitions that hang off each node. `-1` is the null
 pointer; reading the arena outside its bounds gives a detached node.
 */
module StateNodes {
  import opened Basics

  /** The machine's extended state, opaque here. */
  type Context(!new)

  /** Event payloads, outputs and errors (`std::any`), opaque here. */
  type Payload(!new, ==, 0)

  datatype Event = Event(name: string, data: Option<Payload>)

  datatype StateType = Atomic | Compound | Parallel | Final | History

  datatype HistoryType = Shallow | Deep

  datatype Action =
    | Update(fn: (Context, Event) -> Context)     // named and inline actions
    | Assign(fn: (Context, Event) -> Context)
    | Raise(event: Event, delayMs: int, sendId: string)
    | SendTo(target: string, event: Event, delayMs: int, sendId: string)
    | SendParent(event: Event)
    | Log(message: string)
    | Cancel(id: string)
    | StopChildAction(id: string)
    | SpawnChildAction(id: string, src: string)
    | Emit(event: Event)

  datatype Guard =
    | Holds(fn: (Context, Event) -> bool)         // named and inline guards
    | And(operands: seq<Guard>)
    | Or(operands: seq<Guard>)
    | Not(operand: Guard)
    | StateIn(path: string)

  datatype TransitionDef = TransitionDef(
    eventType: string, targets: seq<int>, guard: Option<Guard>, actions: seq<Action>,
    reenter: bool, forbidden: bool)

  /** A delayed transition; a fixed delay is a constant function. */
  datatype DelayDef = DelayDef(eventType: string, ms: (Context, Event) -> int)

  datatype Invoke = Invoke(id: string, src: string)

  datatype StateNode = StateNode(
    key: string, id: string, kind: StateType, history: HistoryType,
    parent: int, children: seq<int>, initial: int, historyDefault: int,
    entry: seq<Action>, exit: seq<Action>, initialActions: seq<Action>,
    transitions: seq<TransitionDef>, delays: seq<DelayDef>, invokes: seq<Invoke>,
    tags: seq<string>, output: Option<(Context, Event) -> Option<Payload>>)

  const NULL := -1

  const DETACHED := StateNode("", "", Atomic, Shallow, NULL, [], NULL, NULL, [], [], [], [], [], [], [], None)

  /**
   `heap` lists the nodes in the (arbitrary) order of their addresses, which is the order a `std::set` of them has.
   */
  datatype Arena = Arena(nodes: seq<StateNode>, heap: seq<int>)

  /** A transition is known by its source node and its position there. */
  datatype TransitionRef = TransitionRef(source: int, index: nat)

  function Size(c: Arena): nat { |c.nodes| }

  function At(c: Arena, n: int): StateNode {
    if 0 <= n < |c.nodes| then c.nodes[n] else DETACHED
  }

  function Kind(c: Arena, n: int): StateType { At(c, n).kind }

  function Parent(c: Arena, n: int): int { At(c, n).parent }

  function Children(c: Arena, n: int): seq<int> { At(c, n).children }

  function Initial(c: Arena, n: int): int { At(c, n).initial }

  function Default(c: Arena, n: int): int { At(c, n).historyDefault }

  function Id(c: Arena, n: int): string { At(c, n).id }

  const NO_TRANSITION := TransitionDef("", [], None, [], false, true)

  function Def(c: Arena, t: TransitionRef): TransitionDef {
    if t.index < |At(c, t.source).transitions| then At(c, t.source).transitions[t.index] else NO_TRANSITION
  }

  function Targets(c: Arena, t: TransitionRef): seq<int> { Def(c, t).targets }

  /** `n` is `a` or lies below it. */
  predicate Desc(c: Arena, n: int, a: int)
    decreases n
  {
    n == a || (0 <= Parent(c, n) < n && Desc(c, Parent(c, n), a))
  }

  ghost predicate Below(c: Arena, n: int, a: int) {
    n != a && Desc(c, n, a)
  }

  /** What building the tree establishes, whatever the configuration. */
  ghost predicate Tree(c: Arena) {
    && 0 < Size(c)
    && Parent(c, 0) == NULL
    && Kind(c, 0) in {Atomic, Compound, Parallel}
    && (forall n :: 0 < n < Size(c) ==> 0 <= Parent(c, n) < n)
       // pre-order: a node's parent is its predecessor or an ancestor of it
    && (forall m, n {:trigger Desc(c, m, Parent(c, n))} :: 0 < n == m + 1 < Size(c) ==> Desc(c, m, Parent(c, n)))
    && (forall p, n {:trigger n in Children(c, p)} :: n in Children(c, p) <==> 0 < n < Size(c) && Parent(c, n) == p)
    && (forall p {:trigger Ascending(Children(c, p))} :: Ascending(Children(c, p)))
    && (forall n {:trigger Children(c, n)} :: Kind(c, n) in {Atomic, Final} ==> Children(c, n) == [])
    && (forall n {:trigger Initial(c, n)} :: Initial(c, n) != NULL <==> Kind(c, n) == Compound && Children(c, n) != [])
    && (forall n {:trigger Initial(c, n)} :: Initial(c, n) != NULL ==> Initial(c, n) in Children(c, n))
    && (forall n {:trigger Default(c, n)} :: Default(c, n) != NULL ==> Kind(c, n) == History)
    && (forall m, n :: 0 <= m < n < Size(c) ==> Id(c, m) != Id(c, n))
    && (forall n :: n in c.heap <==> 0 <= n < Size(c))
    && NoDup(c.heap)
  }

  /** No two children of one node have the same key. */
  ghost predicate SiblingKeysDistinct(c: Arena) {
    forall m, n {:trigger Parent(c, m), Parent(c, n)} ::
      0 < m < n < Size(c) && Parent(c, m) == Parent(c, n) ==> At(c, m).key != At(c, n).key
  }

  const SOLITARY := Arena([DETACHED], [0])

  lemma SolitaryIsTree()
    ensures Tree(SOLITARY)
  {
    assert SOLITARY.heap[0] == 0;
  }

  /** A built chart. */
  type Chart = c: Arena | Tree(c) ghost witness (SolitaryIsTree(); SOLITARY)

  // ---- ancestry ----

  lemma {:induction false} DescBounds(c: Chart, n: int, a: int)
    requires 0 <= n < Size(c) && Desc(c, n, a)
    ensures 0 <= a <= n
    decreases n
  {
    if n != a { DescBounds(c, Parent(c, n), a); }
  }

  lemma {:induction false} DescTrans(c: Arena, n: int, b: int, a: int)
    requires Desc(c, n, b) && Desc(c, b, a)
    ensures Desc(c, n, a)
    decreases n
  {
    if n != b { DescTrans(c, Parent(c, n), b, a); }
  }

  lemma {:induction false} DescRoot(c: Chart, n: int)
    requires 0 <= n < Size(c)
    ensures Desc(c, n, 0)
    decreases n
  {
    if n != 0 { DescRoot(c, Parent(c, n)); }
  }

  /** The ancestors of a node form a chain. */
  lemma {:induction false} AncestorsComparable(c: Arena, n: int, a: int, b: int)
    requires Desc(c, n, a) && Desc(c, n, b)
    ensures Desc(c, a, b) || Desc(c, b, a)
    decreases n
  {
    if n != a && n != b { AncestorsComparable(c, Parent(c, n), a, b); }
  }

  lemma {:induction false} BelowParent(c: Chart, n: int, a: int)
    requires 0 <= n < Size(c) && Below(c, n, a)
    ensures 0 < n && 0 <= Parent(c, n) < n && Desc(c, Parent(c, n), a)
  {}

  /** Two ancestors of one node that share a parent are the same node. */
  lemma {:induction false} SiblingAncestors(c: Chart, n: int, a: int, b: int)
    requires 0 <= n < Size(c) && 0 < a && 0 < b
    requires Desc(c, n, a) && Desc(c, n, b) && Parent(c, a) == Parent(c, b)
    ensures a == b
  {
    DescBounds(c, n, a);
    DescBounds(c, n, b);
    AncestorsComparable(c, n, a, b);
    if a != b {
      var lo, hi := if Desc(c, a, b) then a else b, if Desc(c, a, b) then b else a;
      assert Below(c, lo, hi);
      BelowParent(c, lo, hi);
      DescBounds(c, Parent(c, lo), hi);
      assert false;
    }
  }

  /** Pre-order numbering makes every subtree an interval of document order. */
  lemma {:induction false} SubtreeInterval(c: Chart, a: int, m: int, n: int)
    requires 0 <= a <= m <= n < Size(c) && Desc(c, n, a)
    ensures Desc(c, m, a)
    decreases n - m
  {
    if m < n {
      BelowParent(c, n, a);
      var k := n - 1;
      assert Desc(c, k, Parent(c, n));
      DescTrans(c, k, Parent(c, n), a);
      SubtreeInterval(c, a, m, n - 1);
    }
  }

  /** The child of `a` that leads to its proper descendant `n`. */
  ghost function Toward(c: Chart, n: int, a: int): (b: int)
    requires 0 <= n < Size(c) && Below(c, n, a)
    ensures 0 < b < Size(c) && Parent(c, b) == a && Desc(c, n, b)
    decreases n
  {
    if Parent(c, n) == a then n else Toward(c, Parent(c, n), a)
  }

  /** The cursor loop of `isDescendantOf`. */
  method IsDescendantOf(c: Chart, node: int, a: int) returns (r: bool)
    requires 0 <= node < Size(c) && 0 <= a
    ensures r == Desc(c, node, a)
  {
    var n := node;
    while n != NULL
      invariant -1 <= n < Size(c)
      invariant Desc(c, node, a) == (n != NULL && Desc(c, n, a))
    {
      if n == a { return true; }
      n := Parent(c, n);
    }
    return false;
  }

  /** The `i`-th of `cs` is the first with key `k`. */
  ghost predicate FirstAt(c: Arena, cs: seq<int>, k: string, i: int) {
    0 <= i < |cs| && At(c, cs[i]).key == k && forall j :: 0 <= j < i ==> At(c, cs[j]).key != k
  }

  /** `r` is the first of `cs` with key `k`, or none if none has it. */
  ghost predicate IsFirstNamed(c: Arena, cs: seq<int>, k: string, r: int) {
    if forall i :: 0 <= i < |cs| ==> At(c, cs[i]).key != k then r == NULL
    else exists i :: FirstAt(c, cs, k, i) && cs[i] == r
  }

  lemma {:induction false} FirstNamedExact(c: Arena, cs: seq<int>, k: string)
    ensures IsFirstNamed(c, cs, k, FirstNamed(c, cs, k))
  {
    if cs != [] {
      var rest := cs[1..];
      if At(c, cs[0]).key == k {
        assert FirstAt(c, cs, k, 0);
      } else {
        FirstNamedExact(c, rest, k);
        assert forall i :: 0 <= i < |rest| ==> rest[i] == cs[i + 1];
        if i :| FirstAt(c, rest, k, i) && rest[i] == FirstNamed(c, rest, k) {
          forall j | 0 <= j < i + 1 ensures At(c, cs[j]).key != k { assert j > 0 ==> cs[j] == rest[j - 1]; }
          assert FirstAt(c, cs, k, i + 1);
        }
      }
    }
  }

  /** The scan of `childByKey`. */
  method ChildByKey(c: Chart, n: int, k: string) returns (r: int)
    ensures r == ChildNamed(c, n, k) && IsFirstNamed(c, Children(c, n), k, r)
  {
    var cs := Children(c, n);
    FirstNamedExact(c, cs, k);
    var i := 0;
    while i < |cs|
      invariant 0 <= i <= |cs|
      invariant FirstNamed(c, cs, k) == FirstNamed(c, cs[i..], k)
    {
      if At(c, cs[i]).key == k { return cs[i]; }
      i := i + 1;
    }
    return NULL;
  }

  function FirstNamed(c: Arena, cs: seq<int>, k: string): int {
    if cs == [] then NULL else if At(c, cs[0]).key == k then cs[0] else FirstNamed(c, cs[1..], k)
  }

  function ChildNamed(c: Arena, n: int, k: string): int {
    FirstNamed(c, Children(c, n), k)
  }
}
