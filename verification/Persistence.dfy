/** The state value as a compressed configuration: rebuilding it gives the configuration back. */
module Persistence {
  import opened Basics
  import opened Keys
  import opened StateNodes
  import opened Configurations
  import opened StateValues
  import opened Microsteps
  import opened Stepping

  /**
   Siblings have distinct keys, as building establishes; no key is empty, and history nodes do not sit directly under
   parallel nodes.
   */
  ghost predicate Named(c: Chart) {
    && (forall n :: 0 < n < Size(c) ==> At(c, n).key != "")
    && SiblingKeysDistinct(c)
    && (forall h :: 0 < h < Size(c) && Kind(c, h) == History ==> Kind(c, Parent(c, h)) != Parallel)
  }

  // ---- rebuilding a configuration ----

  function Unknown(key: string): string { "machine restore: unknown state '" + key + "'" }

  /** The nodes `v` describes at and below `n`. */
  function Rebuilt(c: Chart, n: int, v: StateValue): Result<seq<int>, string>
    decreases v, 1, 0
  {
    if v.Empty() then Ok([n])
    else if v.IsLeaf() then
      var ch := ChildNamed(c, n, v.leaf);
      if ch == NULL then Err(Unknown(v.leaf)) else Ok([n, ch])
    else RebuiltBranches(c, n, v, Sorted(v.branches.Keys), [n])
  }

  function RebuiltBranches(c: Chart, n: int, v: StateValue, keys: seq<string>, out: seq<int>): Result<seq<int>, string>
    requires forall k :: k in keys ==> k in v.branches
    decreases v, 0, |keys|
  {
    if keys == [] then Ok(out)
    else
      var ch := ChildNamed(c, n, keys[0]);
      if ch == NULL then Err(Unknown(keys[0]))
      else
        match Rebuilt(c, ch, v.branches[keys[0]])
        case Err(e) => Err(e)
        case Ok(l) => RebuiltBranches(c, n, v, keys[1..], out + l)
  }

  lemma RebuiltNext(c: Chart, n: int, v: StateValue, keys: seq<string>, own: seq<int>)
    requires keys != [] && forall k :: k in keys ==> k in v.branches
    ensures var ch := ChildNamed(c, n, keys[0]);
            RebuiltBranches(c, n, v, keys, own) ==
              if ch == NULL then Err(Unknown(keys[0]))
              else if Rebuilt(c, ch, v.branches[keys[0]]).Err? then Err(Rebuilt(c, ch, v.branches[keys[0]]).error)
              else RebuiltBranches(c, n, v, keys[1..], own + Rebuilt(c, ch, v.branches[keys[0]]).value)
  {}

  method RestoreConfig(c: Chart, n: int, v: StateValue, out: seq<int>) returns (r: Result<seq<int>, string>)
    ensures Rebuilt(c, n, v).Ok? ==> r == Ok(out + Rebuilt(c, n, v).value)
    ensures Rebuilt(c, n, v).Err? ==> r == Err(Rebuilt(c, n, v).error)
    decreases v
  {
    if v.Empty() { return Ok(out + [n]); }
    if v.IsLeaf() {
      var ch := ChildByKey(c, n, v.leaf);
      if ch == NULL { return Err(Unknown(v.leaf)); }
      assert out + [n] + [ch] == out + [n, ch];
      return Ok(out + [n] + [ch]);
    }
    var keys := Sorted(v.branches.Keys);
    var all := out + [n];
    ghost var own := [n];
    for i := 0 to |keys|
      invariant all == out + own
      invariant RebuiltBranches(c, n, v, keys[i..], own) == Rebuilt(c, n, v)
    {
      var key := keys[i];
      RebuiltNext(c, n, v, keys[i..], own);
      assert keys[i..][1..] == keys[i + 1..];
      var ch := ChildByKey(c, n, key);
      if ch == NULL { return Err(Unknown(key)); }
      var sub := RestoreConfig(c, ch, v.branches[key], all);
      if sub.Err? { return Err(sub.error); }
      all := sub.value;
      ghost var l := Rebuilt(c, ch, v.branches[key]).value;
      AppendAfter(out, own, l);
      own := own + l;
    }
    return Ok(all);
  }

  /** Every key in `v` names a child where it stands, from `n` on. */
  predicate Known(c: Chart, n: int, v: StateValue)
    decreases v
  {
    if v.Empty() then true
    else if v.IsLeaf() then ChildNamed(c, n, v.leaf) != NULL
    else forall k :: k in v.branches ==>
      ChildNamed(c, n, k) != NULL && Known(c, ChildNamed(c, n, k), v.branches[k])
  }

  /** `v`, read from `n` on, names `m`. */
  ghost predicate Describes(c: Chart, n: int, v: StateValue, m: int)
    decreases v
  {
    || m == n
    || (v.IsLeaf() && m == ChildNamed(c, n, v.leaf))
    || (!v.IsLeaf() && exists k :: k in v.branches && Describes(c, ChildNamed(c, n, k), v.branches[k], m))
  }

  /** Rebuilding fails exactly on an unknown key, and gives the states the value names. */
  lemma {:induction false} RebuiltExact(c: Chart, n: int, v: StateValue, m: int)
    ensures Rebuilt(c, n, v).Ok? <==> Known(c, n, v)
    ensures Rebuilt(c, n, v).Ok? ==> (m in Rebuilt(c, n, v).value <==> Describes(c, n, v, m))
    decreases v, 1, 0
  {
    if !v.Empty() && !v.IsLeaf() {
      RebuiltEach(c, n, v, Sorted(v.branches.Keys), [n], m);
    }
  }

  lemma {:induction false} RebuiltEach(c: Chart, n: int, v: StateValue, keys: seq<string>, out: seq<int>, m: int)
    requires forall k :: k in keys ==> k in v.branches
    ensures RebuiltBranches(c, n, v, keys, out).Ok? <==> forall k :: k in keys ==>
      ChildNamed(c, n, k) != NULL && Known(c, ChildNamed(c, n, k), v.branches[k])
    ensures RebuiltBranches(c, n, v, keys, out).Ok? ==>
      (m in RebuiltBranches(c, n, v, keys, out).value <==>
       m in out || exists k :: k in keys && Describes(c, ChildNamed(c, n, k), v.branches[k], m))
    decreases v, 0, |keys|
  {
    if keys != [] {
      var ch, sub := ChildNamed(c, n, keys[0]), v.branches[keys[0]];
      assert forall k :: k in keys <==> k == keys[0] || k in keys[1..];
      RebuiltExact(c, ch, sub, m);
      if ch != NULL && Rebuilt(c, ch, sub).Ok? {
        var l := Rebuilt(c, ch, sub).value;
        assert m in out + l <==> m in out || m in l;
        RebuiltEach(c, n, v, keys[1..], out + l, m);
      }
    }
  }

  // ---- the value of a legal configuration ----

  lemma {:induction false} FirstNamedIs(c: Chart, cs: seq<int>, b: int)
    requires b in cs && forall m :: m in cs && m != b ==> At(c, m).key != At(c, b).key
    ensures FirstNamed(c, cs, At(c, b).key) == b
  {
    assert cs[0] in cs;
    if cs[0] != b {
      assert b in cs[1..];
      FirstNamedIs(c, cs[1..], b);
    }
  }

  lemma {:induction false} ChildFound(c: Chart, n: int, b: int)
    requires Named(c) && b in Children(c, n)
    ensures ChildNamed(c, n, At(c, b).key) == b
  {
    forall m | m in Children(c, n) && m != b ensures At(c, m).key != At(c, b).key {
      assert Siblings(c, m, b);
    }
    FirstNamedIs(c, Children(c, n), b);
  }

  /** Only keys of children occur. */
  lemma {:induction false} RegionKey(c: Chart, n: int, k: nat, active: set<int>, key: string) returns (j: nat)
    requires k <= |Children(c, n)| && key in RegionValues(c, n, k, active)
    ensures j < k && At(c, Children(c, n)[j]).key == key
  {
    j := k - 1;
    if At(c, Children(c, n)[j]).key != key { j := RegionKey(c, n, k - 1, active, key); }
  }

  lemma {:induction false} SiblingKeys(c: Chart, n: int, i: nat, j: nat)
    requires Named(c) && i < |Children(c, n)| && j < |Children(c, n)|
    requires At(c, Children(c, n)[i]).key == At(c, Children(c, n)[j]).key
    ensures i == j
  {
    var a, b := Children(c, n)[i], Children(c, n)[j];
    assert a in Children(c, n) && b in Children(c, n) && Ascending(Children(c, n));
    assert a != b ==> Siblings(c, a, b);
  }

  /** Each child's value is found under its key. */
  lemma {:induction false} RegionValueOf(c: Chart, n: int, k: nat, active: set<int>, j: nat)
    requires Named(c) && j < k <= |Children(c, n)|
    ensures var m, b := RegionValues(c, n, k, active), Children(c, n)[j];
            At(c, b).key in m && m[At(c, b).key] == ValueOf(c, b, active)
  {
    var key := At(c, Children(c, n)[k - 1]).key;
    assert Children(c, n)[k - 1] in Children(c, n);
    if j < k - 1 {
      RegionValueOf(c, n, k - 1, active, j);
      if At(c, Children(c, n)[j]).key == key { SiblingKeys(c, n, j, k - 1); }
    } else if key in RegionValues(c, n, k - 1, active) {
      var i := RegionKey(c, n, k - 1, active, key);
      SiblingKeys(c, n, i, k - 1);
    }
  }

  lemma {:induction false} ActiveChildIs(c: Chart, n: int, k: nat, active: set<int>, b: int)
    requires k <= |Children(c, n)| && b in Children(c, n)[k..] && b in active
    requires forall m :: m in Children(c, n) && m in active ==> m == b
    ensures var sub := ValueOf(c, b, active);
            ActiveChildValue(c, n, k, active) == if sub.Empty() then Leaf(At(c, b).key)
                                                 else BranchesOf(map[At(c, b).key := sub])
    decreases |Children(c, n)| - k
  {
    var ch := Children(c, n)[k];
    assert ch in Children(c, n);
    if ch !in active { ActiveChildIs(c, n, k + 1, active, b); }
  }

  lemma {:induction false} NoActiveChild(c: Chart, n: int, k: nat, active: set<int>)
    requires k <= |Children(c, n)| && forall m :: m in Children(c, n) ==> m !in active
    ensures ActiveChildValue(c, n, k, active) == EMPTY_VALUE
    decreases |Children(c, n)| - k
  {
    if k < |Children(c, n)| {
      assert Children(c, n)[k] in Children(c, n);
      NoActiveChild(c, n, k + 1, active);
    }
  }

  // ---- rebuilding gives back what was active ----

  /** The active states at or below `n`. */
  ghost function Under(c: Chart, active: set<int>, n: int): set<int> {
    set m | m in active && Desc(c, m, n)
  }

  ghost function UnderAll(c: Chart, active: set<int>, roots: set<int>): set<int> {
    set m | m in active && exists b :: b in roots && Desc(c, m, b)
  }

  /** The children of `n` whose keys are listed. */
  ghost function Kids(c: Chart, n: int, keys: seq<string>): set<int> {
    set b | b in Children(c, n) && At(c, b).key in keys
  }

  ghost predicate Lists(l: seq<int>, s: set<int>) {
    NoDup(l) && Elems(l) == s
  }

  /** `v` is rebuilt at `n` to exactly the active states there. */
  ghost predicate Rebuilds(c: Chart, active: set<int>, n: int) {
    Rebuilt(c, n, ValueOf(c, n, active)).Ok? && Lists(Rebuilt(c, n, ValueOf(c, n, active)).value, Under(c, active, n))
  }

  lemma {:induction false} ChildActive(c: WFChart, active: set<int>, n: int)
    requires Legal(c, active) && n in active && Children(c, n) != []
    ensures exists b :: b in Children(c, n) && b in active
  {
    assert Settled(c, active, n);
    if Kind(c, n) == Parallel {
      var r :| r in Children(c, n) && Kind(c, r) != History;
    }
  }

  lemma {:induction false} RegionActive(c: WFChart, active: set<int>, n: int, b: int)
    requires Named(c) && Legal(c, active) && n in active && Kind(c, n) == Parallel && b in Children(c, n)
    ensures b in active
  {
    assert Settled(c, active, n);
  }

  lemma {:induction false} OnlyChild(c: WFChart, active: set<int>, n: int) returns (b: int)
    requires Legal(c, active) && n in active && Kind(c, n) != Parallel && Children(c, n) != []
    ensures b in Children(c, n) && b in active && n < b < Size(c)
    ensures forall m :: m in Children(c, n) && m in active ==> m == b
  {
    ChildActive(c, active, n);
    b :| b in Children(c, n) && b in active;
    forall m | m in Children(c, n) && m in active ensures m == b {
      assert m != b ==> Siblings(c, m, b);
    }
  }

  /** The value of an active state is empty exactly if the state has no children. */
  lemma {:induction false} ValueEmpty(c: WFChart, active: set<int>, n: int)
    requires Named(c) && Legal(c, active) && n in active
    ensures ValueOf(c, n, active).Empty() <==> Children(c, n) == []
    ensures ValueOf(c, n, active).IsLeaf() ==> Kind(c, n) != Parallel
  {
    if Kind(c, n) == Parallel {
      var r :| r in Children(c, n) && Kind(c, r) != History;
      var j :| 0 <= j < |Children(c, n)| && Children(c, n)[j] == r;
      RegionValueOf(c, n, |Children(c, n)|, active, j);
    } else if Children(c, n) == [] {
      NoActiveChild(c, n, 0, active);
    } else {
      var b := OnlyChild(c, active, n);
      ActiveChildIs(c, n, 0, active, b);
      var branches := map[At(c, b).key := ValueOf(c, b, active)];
      assert At(c, b).key in branches;
    }
  }

  lemma {:induction false} UnderOne(c: Chart, active: set<int>, n: int, b: int)
    requires Closed(c, active) && n in active && b in Children(c, n) && b in active
    requires forall m :: m in Children(c, n) && m in active ==> m == b
    ensures Under(c, active, n) == {n} + Under(c, active, b)
  {
    forall m | m in active && Desc(c, m, n) && m != n ensures Desc(c, m, b) {
      var t := Toward(c, m, n);
      assert t in Children(c, n);
      ClosedUp(c, active, m, t);
    }
    forall m | m in Under(c, active, b) ensures m in Under(c, active, n) {
      assert Desc(c, b, n);
      DescTrans(c, m, b, n);
    }
  }

  lemma {:induction false} UnderNone(c: Chart, active: set<int>, n: int)
    requires Closed(c, active) && n in active && Children(c, n) == []
    ensures Under(c, active, n) == {n}
  {
    forall m | m in active && Desc(c, m, n) ensures m == n {
      ChildlessHasNothingBelow(c, m, n);
    }
  }

  lemma {:induction false} RebuildsCompound(c: WFChart, active: set<int>, n: int, b: int)
    requires Named(c) && Legal(c, active) && n in active && Kind(c, n) != Parallel
    requires b in Children(c, n) && b in active && forall m :: m in Children(c, n) && m in active ==> m == b
    requires Rebuilds(c, active, b)
    ensures Rebuilds(c, active, n)
  {
    var sub, key := ValueOf(c, b, active), At(c, b).key;
    ActiveChildIs(c, n, 0, active, b);
    ChildFound(c, n, b);
    UnderOne(c, active, n, b);
    ValueEmpty(c, active, b);
    NotBelowOwnChild(c, n, b);
    if sub.Empty() {
      UnderNone(c, active, b);
      assert Rebuilt(c, n, ValueOf(c, n, active)) == Ok([n, b]);
    } else {
      OneBranch(c, n, key, sub);
      Prepended(n, Rebuilt(c, b, sub).value, Under(c, active, b));
    }
  }

  lemma {:induction false} OneBranch(c: Chart, n: int, key: string, sub: StateValue)
    requires !sub.Empty() && ChildNamed(c, n, key) != NULL && Rebuilt(c, ChildNamed(c, n, key), sub).Ok?
    ensures Rebuilt(c, n, BranchesOf(map[key := sub])) == Ok([n] + Rebuilt(c, ChildNamed(c, n, key), sub).value)
  {
    var v := BranchesOf(map[key := sub]);
    assert key in v.branches;
    AscendingKeysUnique(Sorted(v.branches.Keys), [key]);
    RebuiltNext(c, n, v, [key], [n]);
  }

  lemma {:induction false} NotBelowOwnChild(c: Chart, n: int, b: int)
    requires b in Children(c, n)
    ensures !Desc(c, n, b) && n != b
  {
    if Desc(c, n, b) { DescBounds(c, n, b); }
  }

  lemma {:induction false} Prepended(n: int, l: seq<int>, s: set<int>)
    requires Lists(l, s) && n !in s
    ensures Lists([n] + l, {n} + s)
  {
    Appended([n], {n}, l, s);
  }

  lemma {:induction false} Appended(out: seq<int>, done: set<int>, l: seq<int>, s: set<int>)
    requires Lists(out, done) && Lists(l, s) && done !! s
    ensures Lists(out + l, done + s)
  {
    var all := out + l;
    ElemsConcat(out, l);
    forall i, j | 0 <= i < j < |all| ensures all[i] != all[j] {
      if i < |out| <= j { assert all[i] in Elems(out) && all[j] in Elems(l); }
    }
  }

  /** The regions in `done` have been rebuilt to `out`, and those with the listed keys remain. */
  ghost predicate Partway(c: Chart, active: set<int>, n: int, keys: seq<string>, out: seq<int>, done: set<int>) {
    && AscendingKeys(keys) && done !! Kids(c, n, keys) && (forall b :: b in done ==> b in Children(c, n))
    && Lists(out, {n} + UnderAll(c, active, done))
  }

  /** The region with the first listed key. */
  lemma {:induction false} RegionNext(c: WFChart, active: set<int>, n: int, v: StateValue, keys: seq<string>,
                                      out: seq<int>) returns (b: int, l: seq<int>)
    requires Named(c) && Kind(c, n) == Parallel && v == ValueOf(c, n, active)
    requires keys != [] && forall k :: k in keys ==> k in v.branches
    requires forall b :: b in Children(c, n) ==> Rebuilds(c, active, b)
    ensures b in Children(c, n) && At(c, b).key == keys[0] && Lists(l, Under(c, active, b))
    ensures RebuiltBranches(c, n, v, keys, out) == RebuiltBranches(c, n, v, keys[1..], out + l)
  {
    var j := RegionKey(c, n, |Children(c, n)|, active, keys[0]);
    b := Children(c, n)[j];
    RegionValueOf(c, n, |Children(c, n)|, active, j);
    ChildFound(c, n, b);
    assert Rebuilds(c, active, b);
    l := Rebuilt(c, b, v.branches[keys[0]]).value;
    RebuiltNext(c, n, v, keys, out);
  }

  lemma {:induction false} PartwayNext(c: Chart, active: set<int>, n: int, keys: seq<string>, out: seq<int>,
                                       done: set<int>, b: int, l: seq<int>)
    requires Named(c) && Closed(c, active) && keys != [] && Partway(c, active, n, keys, out, done)
    requires b in Children(c, n) && At(c, b).key == keys[0] && Lists(l, Under(c, active, b))
    ensures Partway(c, active, n, keys[1..], out + l, done + {b})
    ensures (done + {b}) + Kids(c, n, keys[1..]) == done + Kids(c, n, keys)
  {
    KidsRest(c, n, keys, b);
    assert b in Kids(c, n, keys);
    OtherRegions(c, active, n, b, done);
    Appended(out, {n} + UnderAll(c, active, done), l, Under(c, active, b));
  }

  /** Rebuilding the regions with the listed keys, after those in `done`. */
  lemma {:induction false} BranchesRebuilt(c: WFChart, active: set<int>, n: int, v: StateValue, keys: seq<string>,
                                           out: seq<int>, done: set<int>)
    requires Named(c) && Legal(c, active) && n in active && Kind(c, n) == Parallel && v == ValueOf(c, n, active)
    requires forall k :: k in keys ==> k in v.branches
    requires forall b :: b in Children(c, n) ==> Rebuilds(c, active, b)
    requires Partway(c, active, n, keys, out, done)
    ensures RebuiltBranches(c, n, v, keys, out).Ok?
    ensures Lists(RebuiltBranches(c, n, v, keys, out).value, {n} + UnderAll(c, active, done + Kids(c, n, keys)))
    decreases |keys|
  {
    if keys == [] {
      assert done + Kids(c, n, keys) == done;
    } else {
      var b, l := RegionNext(c, active, n, v, keys, out);
      PartwayNext(c, active, n, keys, out, done, b, l);
      BranchesRebuilt(c, active, n, v, keys[1..], out + l, done + {b});
    }
  }

  lemma {:induction false} OtherRegions(c: Chart, active: set<int>, n: int, b: int, done: set<int>)
    requires Closed(c, active) && b in Children(c, n) && b !in done && forall a :: a in done ==> a in Children(c, n)
    ensures {n} + UnderAll(c, active, done) !! Under(c, active, b)
    ensures {n} + UnderAll(c, active, done) + Under(c, active, b) == {n} + UnderAll(c, active, done + {b})
  {
    NotBelowOwnChild(c, n, b);
    forall m | m in UnderAll(c, active, done) ensures m !in Under(c, active, b) {
      var a :| a in done && Desc(c, m, a);
      if Desc(c, m, b) { SiblingAncestors(c, m, a, b); }
    }
  }

  lemma {:induction false} KidsRest(c: Chart, n: int, keys: seq<string>, b: int)
    requires Named(c) && keys != [] && AscendingKeys(keys) && b in Children(c, n) && At(c, b).key == keys[0]
    ensures Kids(c, n, keys) == {b} + Kids(c, n, keys[1..]) && b !in Kids(c, n, keys[1..])
    ensures AscendingKeys(keys[1..])
  {
    assert forall k :: k in keys <==> k == keys[0] || k in keys[1..];
    assert keys[0] !in keys[1..];
    forall m | m in Children(c, n) && At(c, m).key == keys[0] ensures m == b {
      assert m != b ==> Siblings(c, m, b);
    }
  }

  lemma {:induction false} RebuildsParallel(c: WFChart, active: set<int>, n: int)
    requires Named(c) && Legal(c, active) && n in active && Kind(c, n) == Parallel
    requires forall b :: b in Children(c, n) ==> Rebuilds(c, active, b)
    ensures Rebuilds(c, active, n)
  {
    var v := ValueOf(c, n, active);
    var keys := Sorted(v.branches.Keys);
    ValueEmpty(c, active, n);
    FromItself(c, active, n, keys);
    BranchesRebuilt(c, active, n, v, keys, [n], {});
    AllRegions(c, active, n, keys);
    UnderRegions(c, active, n, {} + Kids(c, n, keys));
  }

  lemma {:induction false} FromItself(c: Chart, active: set<int>, n: int, keys: seq<string>)
    requires AscendingKeys(keys)
    ensures Partway(c, active, n, keys, [n], {})
  {
    assert UnderAll(c, active, {}) == {};
    assert {n} + UnderAll(c, active, {}) == {n};
  }

  lemma {:induction false} AllRegions(c: Chart, active: set<int>, n: int, keys: seq<string>)
    requires Named(c) && Kind(c, n) == Parallel && keys == Sorted(ValueOf(c, n, active).branches.Keys)
    ensures forall b :: b in Kids(c, n, keys) <==> b in Children(c, n)
  {
    forall b | b in Children(c, n) ensures b in Kids(c, n, keys) {
      var j :| 0 <= j < |Children(c, n)| && Children(c, n)[j] == b;
      RegionValueOf(c, n, |Children(c, n)|, active, j);
    }
  }

  lemma {:induction false} UnderRegions(c: Chart, active: set<int>, n: int, kids: set<int>)
    requires Closed(c, active) && n in active && forall b :: b in kids <==> b in Children(c, n)
    ensures Under(c, active, n) == {n} + UnderAll(c, active, kids)
  {
    forall m | m in Under(c, active, n) && m != n ensures m in UnderAll(c, active, kids) {
      var b := Toward(c, m, n);
      assert b in Children(c, n);
    }
    forall m | m in UnderAll(c, active, kids) ensures m in Under(c, active, n) {
      var b :| b in kids && Desc(c, m, b);
      assert Desc(c, b, n);
      DescTrans(c, m, b, n);
    }
  }

  /** The value of an active state is rebuilt to exactly the active states at and below it. */
  lemma {:induction false} RebuildsAll(c: WFChart, active: set<int>, n: int)
    requires Named(c) && Legal(c, active) && n in active
    ensures Rebuilds(c, active, n)
    decreases Size(c) - n
  {
    if Children(c, n) == [] {
      ValueEmpty(c, active, n);
      UnderNone(c, active, n);
    } else if Kind(c, n) == Parallel {
      forall b | b in Children(c, n) ensures Rebuilds(c, active, b) {
        RegionActive(c, active, n, b);
        RebuildsAll(c, active, b);
      }
      RebuildsParallel(c, active, n);
    } else {
      var b := OnlyChild(c, active, n);
      RebuildsAll(c, active, b);
      RebuildsCompound(c, active, n, b);
    }
  }

  /** The round trip: the value of a legal configuration, rebuilt from the root and sorted, is that configuration. */
  lemma {:induction false} ValueRoundTrip(c: WFChart, active: set<int>)
    requires Named(c) && Legal(c, active)
    ensures var r := Rebuilt(c, 0, ValueOf(c, 0, active));
            && r.Ok? && NoDup(r.value) && (forall n :: n in r.value ==> 0 <= n < Size(c))
            && SortAscending(c, r.value) == Ordered(Size(c), active)
  {
    RebuildsAll(c, active, 0);
    var l := Rebuilt(c, 0, ValueOf(c, 0, active)).value;
    forall n | n in active ensures n in Under(c, active, 0) { DescRoot(c, n); }
    assert Elems(l) == active;
    forall n | n in l ensures 0 <= n < Size(c) { assert n in Elems(l); }
  }
}
