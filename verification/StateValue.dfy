/** State values: the compact form of a configuration. */
module StateValues {
  import opened StateNodes

  /** A leaf name, or a map from child keys to their values. */
  datatype StateValue = StateValue(leaf: string, branches: map<string, StateValue>) {

    predicate Empty() { leaf == "" && branches == map[] }

    predicate IsLeaf() { branches == map[] && leaf != "" }

    /** `other` is a possibly partial value that this one covers. */
    predicate Contains(other: StateValue)
      decreases other
    {
      if other.Empty() then true
      else if IsLeaf() then other.IsLeaf() && other.leaf == leaf
      else if other.IsLeaf() then other.leaf in branches
      else forall k :: k in other.branches ==> k in branches && branches[k].Contains(other.branches[k])
    }
  }

  const EMPTY_VALUE := StateValue("", map[])

  function Leaf(name: string): StateValue { StateValue(name, map[]) }

  function BranchesOf(branches: map<string, StateValue>): StateValue { StateValue("", branches) }

  /** The position of the first dot of `s`, or its length. */
  function FindDot(s: string): (i: nat)
    ensures i <= |s| && (i < |s| ==> s[i] == '.') && '.' !in s[..i]
  {
    if s == "" || s[0] == '.' then 0
    else
      var i := FindDot(s[1..]) + 1;
      assert s[..i] == [s[0]] + s[1..][..i - 1];
      i
  }

  function FromPath(dotted: string): StateValue
    decreases |dotted|
  {
    var dot := FindDot(dotted);
    if dot == |dotted| then Leaf(dotted)
    else BranchesOf(map[dotted[..dot] := FromPath(dotted[dot + 1..])])
  }

  /** The value describing the active descendants of `n`; empty when there are none. */
  function ValueOf(c: Chart, n: int, active: set<int>): StateValue
    decreases Size(c) - n, 1, 0
  {
    if Kind(c, n) == Parallel then BranchesOf(RegionValues(c, n, |Children(c, n)|, active))
    else ActiveChildValue(c, n, 0, active)
  }

  /** The values of the first `k` children of `n`; a key seen before keeps its value. */
  function RegionValues(c: Chart, n: int, k: nat, active: set<int>): map<string, StateValue>
    requires k <= |Children(c, n)|
    decreases Size(c) - n, 0, k
  {
    if k == 0 then map[]
    else
      var m := RegionValues(c, n, k - 1, active);
      var ch := Children(c, n)[k - 1];
      assert ch in Children(c, n);
      if At(c, ch).key in m then m else m[At(c, ch).key := ValueOf(c, ch, active)]
  }

  /** The value of the first active child of `n` from the `k`-th on. */
  function ActiveChildValue(c: Chart, n: int, k: nat, active: set<int>): StateValue
    requires k <= |Children(c, n)|
    decreases Size(c) - n, 0, |Children(c, n)| - k
  {
    if k == |Children(c, n)| then EMPTY_VALUE
    else
      var ch := Children(c, n)[k];
      assert ch in Children(c, n);
      if ch !in active then ActiveChildValue(c, n, k + 1, active)
      else
        var sub := ValueOf(c, ch, active);
        if sub.Empty() then Leaf(At(c, ch).key) else BranchesOf(map[At(c, ch).key := sub])
  }
}
