/** Building the node tree from a configuration: numbering in document order, and what it establishes. */
module Parsing {
  import opened Basics
  import opened StateNodes

  /**
   A state's configuration. `body` holds what is copied to the node as it is,
   transitions with targets already resolved included; so is `historyTarget`.
   */
  datatype StateConfig = StateConfig(
    key: string, id: string, body: StateNode, states: seq<StateConfig>, initialKey: string, historyTarget: int)

  /** How many nodes a configuration makes. */
  function Count(sc: StateConfig): (n: nat)
    ensures n > 0
    decreases sc
  {
    1 + CountAll(sc.states)
  }

  function CountAll(scs: seq<StateConfig>): nat
    decreases scs
  {
    if scs == [] then 0 else Count(scs[0]) + CountAll(scs[1..])
  }

  function PathOf(sc: StateConfig, parentPath: string): string {
    if parentPath == "" then sc.key else parentPath + "." + sc.key
  }

  function IdOf(sc: StateConfig, path: string, machineId: string): string {
    if sc.id == "" then machineId + "." + path else sc.id
  }

  function KindOf(sc: StateConfig): StateType {
    if sc.body.kind == Atomic && sc.states != [] then Compound else sc.body.kind
  }

  /** The node itself; `initial` and the history default are wired later. */
  function NodeOf(sc: StateConfig, parent: int, path: string, machineId: string, children: seq<int>): StateNode {
    sc.body.(key := sc.key, id := IdOf(sc, path, machineId), kind := KindOf(sc), parent := parent, children := children,
             initial := NULL, historyDefault := NULL)
  }

  /** Where the subtrees of consecutive children start. */
  function StartsAt(scs: seq<StateConfig>, base: nat): seq<int> {
    if scs == [] then [] else [base] + StartsAt(scs[1..], base + Count(scs[0]))
  }

  /** The nodes of a configuration numbered from `base` on, in document order. */
  function Flat(sc: StateConfig, parent: int, parentPath: string, machineId: string, base: nat): (nodes: seq<StateNode>)
    ensures |nodes| == Count(sc)
    decreases sc
  {
    [NodeOf(sc, parent, PathOf(sc, parentPath), machineId, StartsAt(sc.states, base + 1))]
    + FlatAll(sc.states, base, PathOf(sc, parentPath), machineId, base + 1)
  }

  function FlatAll(scs: seq<StateConfig>, parent: int, parentPath: string, machineId: string,
                   base: nat): (nodes: seq<StateNode>)
    ensures |nodes| == CountAll(scs)
    decreases scs
  {
    if scs == [] then []
    else Flat(scs[0], parent, parentPath, machineId, base)
         + FlatAll(scs[1..], parent, parentPath, machineId, base + Count(scs[0]))
  }

  // ---- the numbering is a pre-order ----

  /** The nodes from `base` to `end` are those of subtrees hanging off `parent`, which starts at `starts`. */
  ghost predicate Hangs(c: Arena, parent: int, base: nat, end: nat, starts: seq<int>) {
    && base <= end <= Size(c) && Ascending(starts)
    && (forall n :: n in starts <==> base <= n < end && Parent(c, n) == parent)
    && (forall n {:trigger Parent(c, n)} :: base <= n < end ==> Parent(c, n) == parent || base <= Parent(c, n) < n)
    && (forall n {:trigger Desc(c, n, parent)} :: base <= n < end ==> Desc(c, n, parent))
    && (forall m, n {:trigger Desc(c, m, Parent(c, n))} :: base <= m && n == m + 1 < end ==> Desc(c, m, Parent(c, n)))
    && (base < end ==> Parent(c, base) == parent)
  }

  /** In the nodes from `base` to `end`, children lists are exact. */
  ghost predicate ListsChildren(c: Arena, base: nat, end: nat) {
    forall p {:trigger Children(c, p)} :: base <= p < end ==>
      Ascending(Children(c, p)) && ChildrenExact(c, p, base, end)
  }

  ghost predicate ChildrenExact(c: Arena, p: int, base: nat, end: nat) {
    forall n :: n in Children(c, p) <==> base <= n < end && Parent(c, n) == p
  }

  /** The nodes from `base` on have the parents, children and keys of `nodes`. */
  ghost predicate Embeds(c: Arena, base: nat, nodes: seq<StateNode>) {
    base + |nodes| <= Size(c) && forall i :: 0 <= i < |nodes| ==> SameLinks(c.nodes[base + i], nodes[i])
  }

  predicate SameLinks(x: StateNode, y: StateNode) {
    x.parent == y.parent && x.children == y.children && x.key == y.key
  }

  lemma {:induction false} EmbedsParts(c: Arena, base: nat, s: seq<StateNode>, t: seq<StateNode>)
    requires Embeds(c, base, s + t)
    ensures Embeds(c, base, s) && Embeds(c, base + |s|, t)
  {
    forall i | 0 <= i < |s| ensures SameLinks(c.nodes[base + i], s[i]) { assert (s + t)[i] == s[i]; }
    forall i | 0 <= i < |t| ensures SameLinks(c.nodes[base + |s| + i], t[i]) { assert (s + t)[|s| + i] == t[i]; }
  }

  /** The first node of an embedded subtree, and the subtrees below it. */
  lemma {:induction false} FlatRoot(c: Arena, sc: StateConfig, parent: int, parentPath: string, machineId: string,
                                    base: nat)
    requires Embeds(c, base, Flat(sc, parent, parentPath, machineId, base))
    ensures Parent(c, base) == parent && Children(c, base) == StartsAt(sc.states, base + 1)
    ensures At(c, base).key == sc.key
    ensures Embeds(c, base + 1, FlatAll(sc.states, base, PathOf(sc, parentPath), machineId, base + 1))
  {
    var path := PathOf(sc, parentPath);
    var node := NodeOf(sc, parent, path, machineId, StartsAt(sc.states, base + 1));
    EmbedsParts(c, base, [node], FlatAll(sc.states, base, path, machineId, base + 1));
    assert SameLinks(c.nodes[base + 0], [node][0]);
  }

  lemma {:induction false} FlatHangs(c: Arena, sc: StateConfig, parent: int, parentPath: string, machineId: string,
                                     base: nat, end: nat)
    requires Embeds(c, base, Flat(sc, parent, parentPath, machineId, base)) && 0 <= parent < base
    requires end == base + Count(sc)
    ensures Hangs(c, parent, base, end, [base]) && ListsChildren(c, base, end)
    decreases sc, 1
  {
    FlatRoot(c, sc, parent, parentPath, machineId, base);
    FlatAllHangs(c, sc.states, base, PathOf(sc, parentPath), machineId, base + 1, end, StartsAt(sc.states, base + 1));
    UnderNode(c, parent, base, end);
  }

  /** A node with its subtrees hangs off its parent. */
  lemma {:induction false} UnderNode(c: Arena, parent: int, base: nat, end: nat)
    requires base < end <= Size(c) && 0 <= parent < base && Parent(c, base) == parent
    requires Hangs(c, base, base + 1, end, Children(c, base)) && ListsChildren(c, base + 1, end)
    ensures Hangs(c, parent, base, end, [base]) && ListsChildren(c, base, end)
  {
    forall n | base <= n < end ensures Desc(c, n, parent) {
      assert Desc(c, base, parent);
      if n > base {
        assert Desc(c, n, base);
        DescTrans(c, n, base, parent);
      }
    }
    forall m, n | base <= m && n == m + 1 < end ensures Desc(c, m, Parent(c, n)) {
      if m == base { assert Parent(c, base + 1) == base; }
    }
    forall p | base <= p < end ensures Ascending(Children(c, p)) && ChildrenExact(c, p, base, end) {
      if p > base {
        assert ChildrenExact(c, p, base + 1, end);
      }
    }
  }

  lemma {:induction false} FlatAllHangs(c: Arena, scs: seq<StateConfig>, parent: int, parentPath: string,
                                        machineId: string, base: nat, end: nat, starts: seq<int>)
    requires Embeds(c, base, FlatAll(scs, parent, parentPath, machineId, base)) && 0 <= parent < base
    requires end == base + CountAll(scs) && starts == StartsAt(scs, base)
    ensures Hangs(c, parent, base, end, starts) && ListsChildren(c, base, end)
    decreases scs, 0
  {
    if scs != [] {
      var mid, rest := base + Count(scs[0]), starts[1..];
      assert starts == [base] + rest;
      EmbedsParts(c, base, Flat(scs[0], parent, parentPath, machineId, base),
                  FlatAll(scs[1..], parent, parentPath, machineId, mid));
      FlatHangs(c, scs[0], parent, parentPath, machineId, base, mid);
      FlatAllHangs(c, scs[1..], parent, parentPath, machineId, mid, end, rest);
      SideBySide(c, parent, base, mid, end, rest);
    }
  }

  /** Subtrees hanging off one node side by side. */
  lemma {:induction false} SideBySide(c: Arena, parent: int, base: nat, mid: nat, end: nat, starts: seq<int>)
    requires 0 <= parent < base < mid
    requires Hangs(c, parent, base, mid, [base]) && ListsChildren(c, base, mid)
    requires Hangs(c, parent, mid, end, starts) && ListsChildren(c, mid, end)
    ensures Hangs(c, parent, base, end, [base] + starts) && ListsChildren(c, base, end)
  {
    assert forall i :: 0 <= i < |starts| ==> starts[i] in starts;
    assert forall n :: n in [base] + starts <==> n == base || n in starts;
    forall n | base < n < mid ensures Parent(c, n) != parent {
      assert n !in [base];
    }
    forall m, n | base <= m && n == m + 1 < end ensures Desc(c, m, Parent(c, n)) {
      if n == mid { assert Desc(c, m, parent) && Parent(c, mid) == parent; }
    }
    forall p | base <= p < end ensures Ascending(Children(c, p)) && ChildrenExact(c, p, base, end) {
      if p < mid { assert ChildrenExact(c, p, base, mid); } else { assert ChildrenExact(c, p, mid, end); }
    }
  }

  // ---- siblings' keys ----

  /**
   Among the configurations of one node's states no key repeats, and so below each of them: states are kept by key.
   */
  predicate KeysDistinct(sc: StateConfig)
    decreases sc, 1
  {
    KeysDistinctAll(sc.states)
  }

  predicate KeysDistinctAll(scs: seq<StateConfig>)
    decreases scs, 0
  {
    scs == []
    || (KeysDistinct(scs[0]) && KeysDistinctAll(scs[1..]) && forall i :: 0 < i < |scs| ==> scs[i].key != scs[0].key)
  }

  /** Nodes from `base` to `end` with the same parent have different keys. */
  ghost predicate KeysApart(c: Arena, base: nat, end: nat) {
    forall m, n {:trigger Parent(c, m), Parent(c, n)} ::
        base <= m < n < end && Parent(c, m) == Parent(c, n) ==> At(c, m).key != At(c, n).key
  }

  /** Each subtree starts with a node that has its configuration's key. */
  lemma {:induction false} StartHasKey(c: Arena, scs: seq<StateConfig>, parent: int, parentPath: string,
                                       machineId: string, base: nat, n: int)
    returns (i: nat)
    requires Embeds(c, base, FlatAll(scs, parent, parentPath, machineId, base)) && n in StartsAt(scs, base)
    ensures i < |scs| && At(c, n).key == scs[i].key
    decreases scs
  {
    var mid := base + Count(scs[0]);
    EmbedsParts(c, base, Flat(scs[0], parent, parentPath, machineId, base),
                FlatAll(scs[1..], parent, parentPath, machineId, mid));
    FlatRoot(c, scs[0], parent, parentPath, machineId, base);
    if n == base {
      i := 0;
    } else {
      i := StartHasKey(c, scs[1..], parent, parentPath, machineId, mid, n);
      i := i + 1;
    }
  }

  lemma {:induction false} FlatKeysApart(c: Arena, sc: StateConfig, parent: int, parentPath: string, machineId: string,
                                         base: nat, end: nat)
    requires Embeds(c, base, Flat(sc, parent, parentPath, machineId, base)) && 0 <= parent < base
    requires end == base + Count(sc)
    requires KeysDistinct(sc)
    ensures KeysApart(c, base, end)
    decreases sc, 1
  {
    FlatRoot(c, sc, parent, parentPath, machineId, base);
    FlatAllKeysApart(c, sc.states, base, PathOf(sc, parentPath), machineId, base + 1, end);
    FlatHangs(c, sc, parent, parentPath, machineId, base, end);
    forall n | base < n < end ensures Parent(c, n) != parent {
      assert n !in [base];
    }
  }

  lemma {:induction false} FlatAllKeysApart(c: Arena, scs: seq<StateConfig>, parent: int, parentPath: string,
                                            machineId: string, base: nat, end: nat)
    requires Embeds(c, base, FlatAll(scs, parent, parentPath, machineId, base)) && 0 <= parent < base
    requires end == base + CountAll(scs) && KeysDistinctAll(scs)
    ensures KeysApart(c, base, end)
    decreases scs, 0
  {
    if scs != [] {
      var mid := base + Count(scs[0]);
      EmbedsParts(c, base, Flat(scs[0], parent, parentPath, machineId, base),
                  FlatAll(scs[1..], parent, parentPath, machineId, mid));
      FlatKeysApart(c, scs[0], parent, parentPath, machineId, base, mid);
      FlatAllKeysApart(c, scs[1..], parent, parentPath, machineId, mid, end);
      FlatHangs(c, scs[0], parent, parentPath, machineId, base, mid);
      FlatAllHangs(c, scs[1..], parent, parentPath, machineId, mid, end, StartsAt(scs[1..], mid));
      forall m, n | base <= m < mid <= n < end && Parent(c, m) == Parent(c, n) ensures At(c, m).key != At(c, n).key {
        FirstKeyApart(c, scs, parent, parentPath, machineId, base, mid, end, m, n);
      }
    }
  }

  /** A sibling of a later subtree's root in the first subtree is its root. */
  lemma {:induction false} FirstKeyApart(c: Arena, scs: seq<StateConfig>, parent: int, parentPath: string,
                                         machineId: string, base: nat, mid: nat, end: nat, m: int, n: int)
    requires scs != [] && KeysDistinctAll(scs) && 0 <= parent < base && mid == base + Count(scs[0])
    requires Embeds(c, base, Flat(scs[0], parent, parentPath, machineId, base))
    requires Embeds(c, mid, FlatAll(scs[1..], parent, parentPath, machineId, mid))
    requires Hangs(c, parent, base, mid, [base]) && Hangs(c, parent, mid, end, StartsAt(scs[1..], mid))
    requires base <= m < mid <= n < end && Parent(c, m) == Parent(c, n)
    ensures At(c, m).key != At(c, n).key
  {
    assert m in [base] && n in StartsAt(scs[1..], mid);
    var i := StartHasKey(c, scs[1..], parent, parentPath, machineId, mid, n);
    FlatRoot(c, scs[0], parent, parentPath, machineId, base);
    assert scs[1..][i] == scs[i + 1];
  }

  // ---- ids and kinds ----

  /** The ids of a configuration's nodes, in document order. */
  function IdsOf(sc: StateConfig, parentPath: string, machineId: string): seq<string>
    decreases sc
  {
    [IdOf(sc, PathOf(sc, parentPath), machineId)] + IdsOfAll(sc.states, PathOf(sc, parentPath), machineId)
  }

  function IdsOfAll(scs: seq<StateConfig>, parentPath: string, machineId: string): seq<string>
    decreases scs
  {
    if scs == [] then [] else IdsOf(scs[0], parentPath, machineId) + IdsOfAll(scs[1..], parentPath, machineId)
  }

  /** No final state has states. */
  predicate FinalsLeaf(sc: StateConfig)
    decreases sc
  {
    (sc.body.kind == Final ==> sc.states == []) && FinalsLeafAll(sc.states)
  }

  predicate FinalsLeafAll(scs: seq<StateConfig>)
    decreases scs
  {
    scs == [] || (FinalsLeaf(scs[0]) && FinalsLeafAll(scs[1..]))
  }

  ghost predicate HasIds(nodes: seq<StateNode>, ids: seq<string>) {
    |nodes| == |ids| && forall i :: 0 <= i < |ids| ==> nodes[i].id == ids[i]
  }

  ghost predicate LeavesLeaf(nodes: seq<StateNode>) {
    forall i :: 0 <= i < |nodes| && nodes[i].kind in {Atomic, Final} ==> nodes[i].children == []
  }

  lemma {:induction false} FlatFacts(sc: StateConfig, parent: int, parentPath: string, machineId: string, base: nat)
    ensures var nodes := Flat(sc, parent, parentPath, machineId, base);
            HasIds(nodes, IdsOf(sc, parentPath, machineId)) && (FinalsLeaf(sc) ==> LeavesLeaf(nodes))
    decreases sc, 1
  {
    FlatAllFacts(sc.states, base, PathOf(sc, parentPath), machineId, base + 1);
  }

  lemma {:induction false} FlatAllFacts(scs: seq<StateConfig>, parent: int, parentPath: string, machineId: string,
                                        base: nat)
    ensures var nodes := FlatAll(scs, parent, parentPath, machineId, base);
            HasIds(nodes, IdsOfAll(scs, parentPath, machineId)) && (FinalsLeafAll(scs) ==> LeavesLeaf(nodes))
    decreases scs, 0
  {
    if scs != [] {
      FlatFacts(scs[0], parent, parentPath, machineId, base);
      FlatAllFacts(scs[1..], parent, parentPath, machineId, base + Count(scs[0]));
    }
  }

  // ---- building ----

  class Builder {
    const machineId: string
    var nodes: seq<StateNode>
    var byId: map<string, int>
    ghost var ids: seq<string>

    ghost predicate Valid()
      reads this
    {
      NoDup(ids) && |ids| == |nodes| && forall k :: k in byId <==> k in ids
    }

    constructor (machineId: string)
      ensures Valid() && nodes == [] && ids == [] && this.machineId == machineId
    {
      this.machineId := machineId;
      nodes, byId, ids := [], map[], [];
    }

    /** The next number in document order, unless the id is taken. */
    method AddNode(node: StateNode) returns (r: Result<int, string>)
      requires Valid()
      modifies this
      ensures r.Ok? <==> node.id !in old(ids)
      ensures r.Ok? ==> Valid() && r.value == |old(nodes)|
      ensures r.Ok? ==> nodes == old(nodes) + [node] && ids == old(ids) + [node.id]
    {
      if node.id in byId { return Err("duplicate state id '" + node.id + "'"); }
      r := Ok(|nodes|);
      byId := byId[node.id := |nodes|];
      nodes := nodes + [node];
      ids := ids + [node.id];
    }

    method BuildNode(sc: StateConfig, parent: int, parentPath: string) returns (r: Result<int, string>)
      requires Valid()
      modifies this
      ensures r.Ok? <==> FinalsLeaf(sc) && NoDup(old(ids) + IdsOf(sc, parentPath, machineId))
      ensures r.Ok? ==> Valid() && r.value == |old(nodes)| && ids == old(ids) + IdsOf(sc, parentPath, machineId)
      ensures r.Ok? ==> nodes == old(nodes) + Flat(sc, parent, parentPath, machineId, |old(nodes)|)
      decreases sc, 1
    {
      var path := PathOf(sc, parentPath);
      if sc.body.kind == Final && sc.states != [] { return Err("final state cannot have child states"); }
      var node := NodeOf(sc, parent, path, machineId, []);
      var more: seq<string> := IdsOfAll(sc.states, path, machineId);
      r := AddNode(node);
      AppendAfter(old(ids), [node.id], more);
      if r.Err? {
        Clash(old(ids), node.id, more);
        return;
      }
      var children := BuildAll(sc.states, r.value, path);
      if children.Err? { return Err(children.error); }
      nodes := nodes[r.value := node.(children := children.value)];
    }

    method BuildAll(scs: seq<StateConfig>, parent: int, parentPath: string) returns (r: Result<seq<int>, string>)
      requires Valid()
      modifies this
      ensures r.Ok? <==> FinalsLeafAll(scs) && NoDup(old(ids) + IdsOfAll(scs, parentPath, machineId))
      ensures r.Ok? ==> Valid() && r.value == StartsAt(scs, |old(nodes)|)
      ensures r.Ok? ==> ids == old(ids) + IdsOfAll(scs, parentPath, machineId)
      ensures r.Ok? ==> nodes == old(nodes) + FlatAll(scs, parent, parentPath, machineId, |old(nodes)|)
      decreases scs, 0
    {
      var children: seq<int> := [];
      assert [] + StartsAt(scs, |nodes|) == StartsAt(scs, |nodes|) && scs[0..] == scs;
      for i := 0 to |scs|
        invariant Valid() && (FinalsLeafAll(scs) <==> FinalsLeafAll(scs[i..]))
        invariant IdsUpto(scs, i, parentPath, machineId, old(ids), ids)
        invariant NodesUpto(scs, i, parent, parentPath, machineId, old(nodes), nodes)
        invariant StartsUpto(scs, i, |old(nodes)|, children, |nodes|)
      {
        ghost var ids1, nodes1 := ids, nodes;
        NextIds(scs, i, parentPath, machineId, old(ids), ids);
        var child := BuildNode(scs[i], parent, parentPath);
        if child.Err? { return Err(child.error); }
        NextNodes(scs, i, parent, parentPath, machineId, old(nodes), nodes1, nodes);
        NextStart(scs, i, |old(nodes)|, children, |nodes1|);
        assert child.value == |nodes1| && |nodes| == |nodes1| + Count(scs[i]);
        children := children + [child.value];
      }
      assert scs[|scs|..] == [] && ids + [] == ids && nodes + [] == nodes && children + [] == children;
      return Ok(children);
    }
  }

  /** The ids of the first `i` configurations have been added to `before`. */
  ghost predicate IdsUpto(scs: seq<StateConfig>, i: nat, parentPath: string, machineId: string, before: seq<string>,
                          ids: seq<string>)
    requires i <= |scs|
  {
    ids + IdsOfAll(scs[i..], parentPath, machineId) == before + IdsOfAll(scs, parentPath, machineId)
  }

  ghost predicate NodesUpto(scs: seq<StateConfig>, i: nat, parent: int, parentPath: string, machineId: string,
                            before: seq<StateNode>, nodes: seq<StateNode>)
    requires i <= |scs|
  {
    nodes + FlatAll(scs[i..], parent, parentPath, machineId, |nodes|)
    == before + FlatAll(scs, parent, parentPath, machineId, |before|)
  }

  lemma SuffixAt(scs: seq<StateConfig>, i: nat)
    requires i < |scs|
    ensures scs[i..][0] == scs[i] && scs[i..][1..] == scs[i + 1..]
  {}

  lemma {:induction false} NextIds(scs: seq<StateConfig>, i: nat, parentPath: string, machineId: string,
                                   before: seq<string>, ids: seq<string>)
    requires i < |scs| && IdsUpto(scs, i, parentPath, machineId, before, ids)
    ensures FinalsLeafAll(scs[i..]) <==> FinalsLeaf(scs[i]) && FinalsLeafAll(scs[i + 1..])
    ensures IdsUpto(scs, i + 1, parentPath, machineId, before, ids + IdsOf(scs[i], parentPath, machineId))
    ensures NoDup(before + IdsOfAll(scs, parentPath, machineId)) ==> NoDup(ids + IdsOf(scs[i], parentPath, machineId))
  {
    var mine, more := IdsOf(scs[i], parentPath, machineId), IdsOfAll(scs[i + 1..], parentPath, machineId);
    SuffixAt(scs, i);
    AppendAfter(ids, mine, more);
    if NoDup(ids + mine + more) { NoDupPrefix(ids + mine, more); }
  }

  lemma {:induction false} NextNodes(scs: seq<StateConfig>, i: nat, parent: int, parentPath: string, machineId: string,
                                     before: seq<StateNode>, nodes: seq<StateNode>, nodes': seq<StateNode>)
    requires i < |scs| && NodesUpto(scs, i, parent, parentPath, machineId, before, nodes)
    requires nodes' == nodes + Flat(scs[i], parent, parentPath, machineId, |nodes|)
    ensures NodesUpto(scs, i + 1, parent, parentPath, machineId, before, nodes')
  {
    SuffixAt(scs, i);
    AppendAfter(nodes, Flat(scs[i], parent, parentPath, machineId, |nodes|),
                FlatAll(scs[i + 1..], parent, parentPath, machineId, |nodes'|));
  }

  /** The first `i` subtrees start at `children`, and the next one at `next`. */
  ghost predicate StartsUpto(scs: seq<StateConfig>, i: nat, base: nat, children: seq<int>, next: nat)
    requires i <= |scs|
  {
    children + StartsAt(scs[i..], next) == StartsAt(scs, base)
  }

  lemma {:induction false} NextStart(scs: seq<StateConfig>, i: nat, base: nat, children: seq<int>, next: nat)
    requires i < |scs| && StartsUpto(scs, i, base, children, next)
    ensures StartsUpto(scs, i + 1, base, children + [next], next + Count(scs[i]))
  {
    SuffixAt(scs, i);
    AppendAfter(children, [next], StartsAt(scs[i + 1..], next + Count(scs[i])));
  }

  lemma Clash(ids: seq<string>, id: string, more: seq<string>)
    requires id in ids
    ensures !NoDup(ids + [id] + more)
  {
    var i :| 0 <= i < |ids| && ids[i] == id;
    var all := ids + [id] + more;
    assert all[i] == all[|ids|];
  }

  lemma NoDupPrefix(s: seq<string>, t: seq<string>)
    requires NoDup(s + t)
    ensures NoDup(s)
  {
    forall i, j | 0 <= i < j < |s| ensures s[i] != s[j] {
      assert (s + t)[i] == s[i] && (s + t)[j] == s[j];
    }
  }

  // ---- wiring ----

  /** What wiring needs of each node's configuration, in document order. */
  datatype Wiring = Wiring(initialKey: string, historyTarget: int)

  function WiringsOf(sc: StateConfig): (w: seq<Wiring>)
    ensures |w| == Count(sc)
    decreases sc
  {
    [Wiring(sc.initialKey, sc.historyTarget)] + WiringsOfAll(sc.states)
  }

  function WiringsOfAll(scs: seq<StateConfig>): (w: seq<Wiring>)
    ensures |w| == CountAll(scs)
    decreases scs
  {
    if scs == [] then [] else WiringsOf(scs[0]) + WiringsOfAll(scs[1..])
  }

  predicate NeedsInitial(node: StateNode) { node.kind == Compound && node.children != [] }

  /** `wired` is `node` with its initial child and its history default found. */
  ghost predicate Wired(c: Arena, node: StateNode, w: Wiring, wired: StateNode) {
    var initial := if NeedsInitial(node) then FirstNamed(c, node.children, w.initialKey) else NULL;
    && wired == node.(initial := initial, historyDefault := if node.kind == History then w.historyTarget else NULL)
    && Wirable(c, node, w)
  }

  /** The initial state is there if one is needed, and needed if there are initial actions. */
  predicate Wirable(c: Arena, node: StateNode, w: Wiring) {
    && (NeedsInitial(node) ==> w.initialKey != "" && FirstNamed(c, node.children, w.initialKey) != NULL)
    && (node.initialActions != [] ==> NeedsInitial(node))
  }

  /**
   The second pass, in document order; it fails on a missing or unknown initial state, and on initial actions without
   one.
   */
  method Wire(c: Arena, wirings: seq<Wiring>) returns (r: Result<seq<StateNode>, string>)
    requires |wirings| == Size(c)
    ensures r.Ok? <==> forall n :: 0 <= n < Size(c) ==> Wirable(c, c.nodes[n], wirings[n])
    ensures r.Ok? ==> |r.value| == Size(c) && forall n ::
        0 <= n < Size(c) ==> Wired(c, c.nodes[n], wirings[n], r.value[n])
  {
    var nodes := c.nodes;
    for n := 0 to |nodes|
      invariant |nodes| == Size(c)
      invariant forall m :: 0 <= m < n ==> Wired(c, c.nodes[m], wirings[m], nodes[m])
      invariant forall m :: n <= m < Size(c) ==> nodes[m] == c.nodes[m]
    {
      var node := nodes[n];
      var initial := NULL;
      if NeedsInitial(node) {
        if wirings[n].initialKey == "" { return Err("missing initial state"); }
        initial := FirstNamed(c, node.children, wirings[n].initialKey);
        if initial == NULL { return Err("unknown initial state '" + wirings[n].initialKey + "'"); }
      }
      if node.initialActions != [] && initial == NULL { return Err("initial actions require an initial state"); }
      var target := if node.kind == History then wirings[n].historyTarget else NULL;
      nodes := nodes[n := node.(initial := initial, historyDefault := target)];
    }
    return Ok(nodes);
  }

  // ---- the machine ----

  /** The root has no key, and its kind follows from whether it has states. */
  function RootKind(sc: StateConfig): StateType {
    if sc.body.kind == Parallel then Parallel else if sc.states == [] then Atomic else Compound
  }

  function RootOf(sc: StateConfig, machineId: string, children: seq<int>): StateNode {
    sc.body.(key := "", id := machineId, kind := RootKind(sc), parent := NULL, children := children, initial := NULL,
             historyDefault := NULL)
  }

  /** The tree before wiring; `heap` is where the nodes come to lie. */
  function Built(sc: StateConfig, machineId: string, heap: seq<int>): (c: Arena)
    ensures Size(c) == Count(sc)
  {
    Arena([RootOf(sc, machineId, StartsAt(sc.states, 1))] + FlatAll(sc.states, 0, "", machineId, 1), heap)
  }

  /** What makes a configuration acceptable. */
  ghost predicate Acceptable(sc: StateConfig, machineId: string, heap: seq<int>) {
    && !(sc.body.kind == Parallel && sc.states == [])
    && FinalsLeafAll(sc.states) && NoDup([machineId] + IdsOfAll(sc.states, "", machineId))
    && forall n :: 0 <= n < Count(sc) ==>
        Wirable(Built(sc, machineId, heap), Built(sc, machineId, heap).nodes[n], WiringsOf(sc)[n])
  }

  /** `c` holds the nodes of the configuration in document order, wired. */
  ghost predicate IsParsed(sc: StateConfig, machineId: string, c: Arena) {
    && Size(c) == Count(sc)
    && forall n :: 0 <= n < Count(sc) ==>
         Wired(Built(sc, machineId, c.heap), Built(sc, machineId, c.heap).nodes[n], WiringsOf(sc)[n], c.nodes[n])
  }

  /** Building and wiring the whole tree. */
  method Parse(sc: StateConfig, machineId: string, heap: seq<int>) returns (r: Result<Arena, string>)
    requires NoDup(heap) && forall n :: n in heap <==> 0 <= n < Count(sc)
    ensures r.Ok? <==> Acceptable(sc, machineId, heap)
    ensures r.Ok? ==> r.value.heap == heap && IsParsed(sc, machineId, r.value) && Tree(r.value)
    ensures r.Ok? && KeysDistinct(sc) ==> SiblingKeysDistinct(r.value)
  {
    if sc.body.kind == Parallel && sc.states == [] { return Err("parallel machine needs states"); }
    var builder := new Builder(machineId);
    var root := RootOf(sc, machineId, []);
    var added := builder.AddNode(root);
    assert added.Ok? && [] + [root.id] == [machineId] && [] + [root] == [root];
    var children := builder.BuildAll(sc.states, 0, "");
    if children.Err? { return Err(children.error); }
    root := RootOf(sc, machineId, children.value);
    var nodes := builder.nodes[0 := root];
    assert nodes == [root] + FlatAll(sc.states, 0, "", machineId, 1);
    var built := Arena(nodes, heap);
    var wired := Wire(built, WiringsOf(sc));
    if wired.Err? { return Err(wired.error); }
    r := Ok(Arena(wired.value, heap));
    ParsedTree(sc, machineId, built, WiringsOf(sc), r.value);
    if KeysDistinct(sc) { ParsedKeys(sc, machineId, built, WiringsOf(sc), r.value); }
  }

  lemma {:induction false} NamedAmong(c: Arena, cs: seq<int>, k: string)
    requires FirstNamed(c, cs, k) != NULL
    ensures FirstNamed(c, cs, k) in cs
  {
    if At(c, cs[0]).key != k { NamedAmong(c, cs[1..], k); }
  }

  /**
   Building a tree establishes everything the interpreter relies on: pre-order numbering, exact children, and unique
   ids among it.
   */
  lemma {:induction false} ParsedTree(sc: StateConfig, machineId: string, built: Arena, wirings: seq<Wiring>, c: Arena)
    requires FinalsLeafAll(sc.states) && NoDup([machineId] + IdsOfAll(sc.states, "", machineId))
    requires built.nodes == [RootOf(sc, machineId, StartsAt(sc.states, 1))] + FlatAll(sc.states, 0, "", machineId, 1)
    requires |wirings| == Size(built) == Size(c) && c.heap == built.heap
    requires forall n :: 0 <= n < Size(c) ==> Wired(built, built.nodes[n], wirings[n], c.nodes[n])
    requires NoDup(c.heap) && forall n :: n in c.heap <==> 0 <= n < Size(c)
    ensures Tree(c)
  {
    LinksParsed(sc, machineId, built, wirings, c);
    FieldsParsed(sc, machineId, built, wirings, c);
  }

  /** Parents, children and their order. */
  ghost predicate LinksOk(c: Arena) {
    && 0 < Size(c) && Parent(c, 0) == NULL
    && (forall n :: 0 < n < Size(c) ==> 0 <= Parent(c, n) < n)
    && (forall m, n {:trigger Desc(c, m, Parent(c, n))} :: 0 < n == m + 1 < Size(c) ==> Desc(c, m, Parent(c, n)))
    && (forall p, n {:trigger n in Children(c, p)} :: n in Children(c, p) <==> 0 < n < Size(c) && Parent(c, n) == p)
    && (forall p {:trigger Ascending(Children(c, p))} :: Ascending(Children(c, p)))
  }

  lemma {:induction false} LinksParsed(sc: StateConfig, machineId: string, built: Arena, wirings: seq<Wiring>, c: Arena)
    requires built.nodes == [RootOf(sc, machineId, StartsAt(sc.states, 1))] + FlatAll(sc.states, 0, "", machineId, 1)
    requires |wirings| == Size(built) == Size(c)
    requires forall n :: 0 <= n < Size(c) ==> Wired(built, built.nodes[n], wirings[n], c.nodes[n])
    ensures LinksOk(c)
  {
    Embedded(sc, machineId, built, wirings, c);
    assert Wired(built, built.nodes[0], wirings[0], c.nodes[0]);
    FlatAllHangs(c, sc.states, 0, "", machineId, 1, Size(c), StartsAt(sc.states, 1));
    LinksFromHanging(c, StartsAt(sc.states, 1));
  }

  lemma {:induction false} LinksFromHanging(c: Arena, starts: seq<int>)
    requires 0 < Size(c) && Parent(c, 0) == NULL && Children(c, 0) == starts
    requires Hangs(c, 0, 1, Size(c), starts) && ListsChildren(c, 1, Size(c))
    ensures LinksOk(c)
  {
    forall p ensures Ascending(Children(c, p)) {
      if 1 <= p < Size(c) { assert ChildrenExact(c, p, 1, Size(c)); }
    }
    forall p, n ensures n in Children(c, p) <==> 0 < n < Size(c) && Parent(c, n) == p {
      if 1 <= p < Size(c) { assert ChildrenExact(c, p, 1, Size(c)); }
    }
    forall m, n | 0 < n == m + 1 < Size(c) ensures Desc(c, m, Parent(c, n)) {
      if m == 0 { assert Parent(c, 1) == 0; }
    }
  }

  lemma {:induction false} Embedded(sc: StateConfig, machineId: string, built: Arena, wirings: seq<Wiring>, c: Arena)
    requires built.nodes == [RootOf(sc, machineId, StartsAt(sc.states, 1))] + FlatAll(sc.states, 0, "", machineId, 1)
    requires |wirings| == Size(built) == Size(c)
    requires forall n :: 0 <= n < Size(c) ==> Wired(built, built.nodes[n], wirings[n], c.nodes[n])
    ensures Embeds(c, 1, FlatAll(sc.states, 0, "", machineId, 1))
  {
    var flat := FlatAll(sc.states, 0, "", machineId, 1);
    forall i | 0 <= i < |flat| ensures SameLinks(c.nodes[1 + i], flat[i]) {
      assert built.nodes[1 + i] == flat[i];
      assert Wired(built, built.nodes[1 + i], wirings[1 + i], c.nodes[1 + i]);
    }
  }

  /** Siblings have distinct keys because their configurations have. */
  lemma {:induction false} ParsedKeys(sc: StateConfig, machineId: string, built: Arena, wirings: seq<Wiring>, c: Arena)
    requires built.nodes == [RootOf(sc, machineId, StartsAt(sc.states, 1))] + FlatAll(sc.states, 0, "", machineId, 1)
    requires |wirings| == Size(built) == Size(c) && KeysDistinct(sc)
    requires forall n :: 0 <= n < Size(c) ==> Wired(built, built.nodes[n], wirings[n], c.nodes[n])
    ensures SiblingKeysDistinct(c)
  {
    Embedded(sc, machineId, built, wirings, c);
    FlatAllKeysApart(c, sc.states, 0, "", machineId, 1, Size(c));
  }

  /** Ids, kinds, initial states and history defaults. */
  ghost predicate FieldsOk(c: Arena) {
    && Kind(c, 0) in {Atomic, Compound, Parallel}
    && (forall n {:trigger Children(c, n)} :: Kind(c, n) in {Atomic, Final} ==> Children(c, n) == [])
    && (forall n {:trigger Initial(c, n)} :: Initial(c, n) != NULL <==> Kind(c, n) == Compound && Children(c, n) != [])
    && (forall n {:trigger Initial(c, n)} :: Initial(c, n) != NULL ==> Initial(c, n) in Children(c, n))
    && (forall n {:trigger Default(c, n)} :: Default(c, n) != NULL ==> Kind(c, n) == History)
    && (forall m, n :: 0 <= m < n < Size(c) ==> Id(c, m) != Id(c, n))
  }

  ghost predicate NodeFieldsOk(c: Arena, n: int, id: string) {
    && Id(c, n) == id && (Kind(c, n) in {Atomic, Final} ==> Children(c, n) == [])
    && (Initial(c, n) != NULL <==> Kind(c, n) == Compound && Children(c, n) != [])
    && (Initial(c, n) != NULL ==> Initial(c, n) in Children(c, n))
    && (Default(c, n) != NULL ==> Kind(c, n) == History)
  }

  lemma {:induction false} NodeParsed(built: Arena, w: Wiring, c: Arena, n: int)
    requires 0 <= n < Size(c) == Size(built) && Wired(built, built.nodes[n], w, c.nodes[n])
    requires built.nodes[n].kind in {Atomic, Final} ==> built.nodes[n].children == []
    ensures NodeFieldsOk(c, n, built.nodes[n].id)
  {
    if NeedsInitial(built.nodes[n]) { NamedAmong(built, built.nodes[n].children, w.initialKey); }
  }

  lemma {:induction false} FieldsCollected(c: Arena, ids: seq<string>)
    requires |ids| == Size(c) && NoDup(ids) && Kind(c, 0) in {Atomic, Compound, Parallel}
    requires forall n :: 0 <= n < Size(c) ==> NodeFieldsOk(c, n, ids[n])
    ensures FieldsOk(c)
  {
    forall m, n | 0 <= m < n < Size(c) ensures Id(c, m) != Id(c, n) {
      assert NodeFieldsOk(c, m, ids[m]) && NodeFieldsOk(c, n, ids[n]);
    }
    forall n ensures Initial(c, n) != NULL <==> Kind(c, n) == Compound && Children(c, n) != [] {
      if 0 <= n < Size(c) { assert NodeFieldsOk(c, n, ids[n]); }
    }
    forall n ensures (Initial(c, n) != NULL ==> Initial(c, n) in Children(c, n))
                  && (Default(c, n) != NULL ==> Kind(c, n) == History)
                  && (Kind(c, n) in {Atomic, Final} ==> Children(c, n) == []) {
      if 0 <= n < Size(c) { assert NodeFieldsOk(c, n, ids[n]); }
    }
  }

  lemma {:induction false} FieldsParsed(sc: StateConfig, machineId: string, built: Arena, wirings: seq<Wiring>,
                                        c: Arena)
    requires FinalsLeafAll(sc.states) && NoDup([machineId] + IdsOfAll(sc.states, "", machineId))
    requires built.nodes == [RootOf(sc, machineId, StartsAt(sc.states, 1))] + FlatAll(sc.states, 0, "", machineId, 1)
    requires |wirings| == Size(built) == Size(c)
    requires forall n :: 0 <= n < Size(c) ==> Wired(built, built.nodes[n], wirings[n], c.nodes[n])
    ensures FieldsOk(c)
  {
    FlatAllFacts(sc.states, 0, "", machineId, 1);
    var ids := [machineId] + IdsOfAll(sc.states, "", machineId);
    forall n | 0 <= n < Size(c) ensures NodeFieldsOk(c, n, ids[n]) {
      assert built.nodes[n].id == ids[n];
      NodeParsed(built, wirings[n], c, n);
    }
    assert Wired(built, built.nodes[0], wirings[0], c.nodes[0]);
    FieldsCollected(c, ids);
  }

  // ---- each node comes from its configuration ----

  /** The configurations of a tree's nodes, in document order. */
  function ConfigsOf(sc: StateConfig): (l: seq<StateConfig>)
    ensures |l| == Count(sc)
    decreases sc
  {
    [sc] + ConfigsOfAll(sc.states)
  }

  function ConfigsOfAll(scs: seq<StateConfig>): (l: seq<StateConfig>)
    ensures |l| == CountAll(scs)
    decreases scs
  {
    if scs == [] then [] else ConfigsOf(scs[0]) + ConfigsOfAll(scs[1..])
  }

  /** The keys on the way from the root to a node, with dots between them. */
  function DottedPath(c: Arena, n: int): string
    decreases n
  {
    if !(0 <= Parent(c, n) < n) then ""
    else
      var above := DottedPath(c, Parent(c, n));
      if above == "" then At(c, n).key else above + "." + At(c, n).key
  }

  /**
   Node `n` was made from `sc`: its id is the one given or else the machine's,
   a dot and its path; it is compound if it was to be atomic but has children;
   and what else it has was copied.
   */
  ghost predicate MadeFrom(c: Arena, machineId: string, n: int, sc: StateConfig) {
    var node := At(c, n);
    && node.key == sc.key
    && node.id == (if sc.id != "" then sc.id else machineId + "." + DottedPath(c, n))
    && node.kind == (if sc.body.kind == Atomic && node.children != [] then Compound else sc.body.kind)
    && node.history == sc.body.history && node.output == sc.body.output && node.tags == sc.body.tags
    && node.entry == sc.body.entry && node.exit == sc.body.exit && node.initialActions == sc.body.initialActions
    && node.transitions == sc.body.transitions && node.delays == sc.body.delays && node.invokes == sc.body.invokes
  }

  /** From `base` on there are these nodes, but for what wiring finds. */
  ghost predicate Carries(c: Arena, base: nat, nodes: seq<StateNode>) {
    base + |nodes| <= Size(c) && forall i :: 0 <= i < |nodes| ==>
      c.nodes[base + i].(initial := NULL, historyDefault := NULL) == nodes[i]
  }

  lemma {:induction false} CarriesParts(c: Arena, base: nat, s: seq<StateNode>, t: seq<StateNode>)
    requires Carries(c, base, s + t)
    ensures Carries(c, base, s) && Carries(c, base + |s|, t)
  {
    forall i | 0 <= i < |s| ensures c.nodes[base + i].(initial := NULL, historyDefault := NULL) == s[i] {
      assert (s + t)[i] == s[i];
    }
    forall i | 0 <= i < |t| ensures c.nodes[base + |s| + i].(initial := NULL, historyDefault := NULL) == t[i] {
      assert (s + t)[|s| + i] == t[i];
    }
  }

  /** From `base` on, each node was made from its configuration. */
  ghost predicate AllMadeFrom(c: Arena, machineId: string, base: nat, l: seq<StateConfig>) {
    forall i :: 0 <= i < |l| ==> MadeFrom(c, machineId, base + i, l[i])
  }

  lemma AllMadeConcat(c: Arena, machineId: string, base: nat, l: seq<StateConfig>, m: seq<StateConfig>)
    requires AllMadeFrom(c, machineId, base, l) && AllMadeFrom(c, machineId, base + |l|, m)
    ensures AllMadeFrom(c, machineId, base, l + m)
  {
    forall i | 0 <= i < |l + m| ensures MadeFrom(c, machineId, base + i, (l + m)[i]) {
      if i >= |l| { assert MadeFrom(c, machineId, base + |l| + (i - |l|), m[i - |l|]); }
    }
  }

  lemma {:induction false} FlatMade(c: Arena, sc: StateConfig, parent: int, parentPath: string, machineId: string,
                                    base: nat)
    requires Carries(c, base, Flat(sc, parent, parentPath, machineId, base)) && 0 <= parent < base
    requires DottedPath(c, parent) == parentPath
    ensures AllMadeFrom(c, machineId, base, ConfigsOf(sc))
    decreases sc, 1
  {
    var path := PathOf(sc, parentPath);
    var node := NodeOf(sc, parent, path, machineId, StartsAt(sc.states, base + 1));
    CarriesParts(c, base, [node], FlatAll(sc.states, base, path, machineId, base + 1));
    assert c.nodes[base + 0].(initial := NULL, historyDefault := NULL) == [node][0];
    assert DottedPath(c, base) == path && MadeFrom(c, machineId, base, sc);
    FlatAllMade(c, sc.states, base, path, machineId, base + 1);
    assert AllMadeFrom(c, machineId, base, [sc]);
    AllMadeConcat(c, machineId, base, [sc], ConfigsOfAll(sc.states));
  }

  lemma {:induction false} FlatAllMade(c: Arena, scs: seq<StateConfig>, parent: int, parentPath: string,
                                       machineId: string, base: nat)
    requires Carries(c, base, FlatAll(scs, parent, parentPath, machineId, base)) && 0 <= parent < base
    requires DottedPath(c, parent) == parentPath
    ensures AllMadeFrom(c, machineId, base, ConfigsOfAll(scs))
    decreases scs, 0
  {
    if scs != [] {
      var mid := base + Count(scs[0]);
      CarriesParts(c, base, Flat(scs[0], parent, parentPath, machineId, base),
                   FlatAll(scs[1..], parent, parentPath, machineId, mid));
      FlatMade(c, scs[0], parent, parentPath, machineId, base);
      FlatAllMade(c, scs[1..], parent, parentPath, machineId, mid);
      AllMadeConcat(c, machineId, base, ConfigsOf(scs[0]), ConfigsOfAll(scs[1..]));
    }
  }

  /** Every node of a parsed machine but the root was made from its configuration; the root has the machine's id. */
  lemma {:induction false} ParsedFrom(sc: StateConfig, machineId: string, c: Arena)
    requires IsParsed(sc, machineId, c)
    ensures Size(c) == 1 + |ConfigsOfAll(sc.states)| && AllMadeFrom(c, machineId, 1, ConfigsOfAll(sc.states))
    ensures At(c, 0).key == "" && Id(c, 0) == machineId && Parent(c, 0) == NULL
    ensures Kind(c, 0) == if sc.body.kind == Parallel then Parallel else if Children(c, 0) == [] then Atomic
                          else Compound
  {
    assert Wired(Built(sc, machineId, c.heap), Built(sc, machineId, c.heap).nodes[0], WiringsOf(sc)[0], c.nodes[0]);
    ParsedCarries(sc, machineId, c);
    FlatAllMade(c, sc.states, 0, "", machineId, 1);
  }

  lemma {:induction false} ParsedCarries(sc: StateConfig, machineId: string, c: Arena)
    requires IsParsed(sc, machineId, c)
    ensures Carries(c, 1, FlatAll(sc.states, 0, "", machineId, 1))
  {
    var built, w, flat := Built(sc, machineId, c.heap), WiringsOf(sc), FlatAll(sc.states, 0, "", machineId, 1);
    forall i | 0 <= i < |flat| ensures c.nodes[1 + i].(initial := NULL, historyDefault := NULL) == flat[i] {
      assert Wired(built, built.nodes[1 + i], w[1 + i], c.nodes[1 + i]);
      FlatUnwired(sc.states, 0, "", machineId, 1, i);
    }
  }

  /** Before wiring, nodes have no initial child and no history default. */
  lemma {:induction false} FlatUnwired(scs: seq<StateConfig>, parent: int, parentPath: string, machineId: string,
                                       base: nat, i: nat)
    requires i < CountAll(scs)
    ensures var node := FlatAll(scs, parent, parentPath, machineId, base)[i];
            node.initial == NULL && node.historyDefault == NULL
    decreases scs
  {
    var n := Count(scs[0]);
    if i >= n {
      FlatUnwired(scs[1..], parent, parentPath, machineId, base + n, i - n);
    } else if i > 0 {
      FlatUnwired(scs[0].states, base, PathOf(scs[0], parentPath), machineId, base + 1, i - 1);
    }
  }
}
