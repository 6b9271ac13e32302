/** Persisting a snapshot in structured form, and restoring it. */
module Restoring {
  import opened Basics
  import opened Keys
  import opened StateNodes
  import opened Configurations
  import opened Targeting
  import opened StateValues
  import opened Actions
  import opened Microsteps
  import opened Conflicts
  import opened Macrosteps
  import opened Persistence
  import opened Paths
  import F = Finals

  // ---- persisted snapshots ----

  /** The structured persisted form; node ids stand for nodes. A context of another type is none to this machine. */
  datatype PersistedSnapshot = PersistedSnapshot(
    status: F.Status, output: Option<Payload>, error: Option<Payload>, value: StateValue, context: Option<Context>,
    historyValue: map<string, seq<string>>, children: map<string, PersistedChild>)

  /** What a child is respawned from: the source of its logic, its input and, if it has started, its own snapshot. */
  datatype PersistedChild = PersistedChild(src: string, input: Option<Payload>, snapshot: Option<PersistedSnapshot>)

  function Ids(c: Chart, nodes: seq<int>): seq<string> {
    seq(|nodes|, i requires 0 <= i < |nodes| => Id(c, nodes[i]))
  }

  /** `ps` is the persisted form of `snap`, with whatever children the actor has attached. */
  ghost predicate Persists(c: Chart, snap: Snapshot, ps: PersistedSnapshot) {
    && ps.status == snap.status && ps.output == snap.output && ps.error == snap.error
    && ps.value == snap.value && ps.context == Some(snap.context)
    && ps.historyValue.Keys == snap.historyValue.Keys
    && forall k :: k in snap.historyValue ==> ps.historyValue[k] == Ids(c, snap.historyValue[k])
  }

  method GetPersistedSnapshot(c: Chart, snap: Snapshot) returns (ps: PersistedSnapshot)
    ensures Persists(c, snap, ps) && ps.children == map[]
  {
    var hist: map<string, seq<string>> := map[];
    var keys := Sorted(snap.historyValue.Keys);
    for i := 0 to |keys|
      invariant forall k :: k in hist <==> k in keys[..i]
      invariant forall k :: k in hist ==> k in snap.historyValue && hist[k] == Ids(c, snap.historyValue[k])
    {
      TakeNext(keys, i);
      assert keys[i] in keys;
      hist := hist[keys[i] := Ids(c, snap.historyValue[keys[i]])];
    }
    assert keys[..|keys|] == keys;
    ps := PersistedSnapshot(snap.status, snap.output, snap.error, snap.value, Some(snap.context), hist, map[]);
  }

  /** The node with id `id` among those from `n` on. */
  function FirstWithId(c: Chart, id: string, n: nat): int
    decreases Size(c) - n
  {
    if n >= Size(c) then NULL else if Id(c, n) == id then n else FirstWithId(c, id, n + 1)
  }

  function NodeById(c: Chart, id: string): int { FirstWithId(c, id, 0) }

  lemma {:induction false} FoundById(c: Chart, k: nat, n: int)
    requires k <= n < Size(c)
    ensures FirstWithId(c, Id(c, n), k) == n
    decreases n - k
  {
    if k < n {
      assert Id(c, k) != Id(c, n);
      FoundById(c, k + 1, n);
    }
  }

  ghost predicate AllKnown(c: Chart, ids: seq<string>) {
    forall i :: 0 <= i < |ids| ==> NodeById(c, ids[i]) != NULL
  }

  /** `nodes` are the nodes with these ids. */
  ghost predicate NodesOf(c: Chart, ids: seq<string>, nodes: seq<int>) {
    |nodes| == |ids| && forall i :: 0 <= i < |ids| ==> nodes[i] == NodeById(c, ids[i]) != NULL
  }

  method RestoreNodes(c: Chart, ids: seq<string>) returns (r: Result<seq<int>, string>)
    ensures r.Ok? <==> AllKnown(c, ids)
    ensures r.Ok? ==> NodesOf(c, ids, r.value)
  {
    var nodes := [];
    for i := 0 to |ids|
      invariant |nodes| == i && forall j :: 0 <= j < i ==> nodes[j] == NodeById(c, ids[j]) != NULL
    {
      var n := NodeById(c, ids[i]);
      if n == NULL { return Err("machine restore: unknown history node id '" + ids[i] + "'"); }
      nodes := nodes + [n];
    }
    return Ok(nodes);
  }

  method RestoreHistory(c: Chart, h: map<string, seq<string>>) returns (r: Result<HistoryMap, string>)
    ensures r.Ok? <==> forall k :: k in h ==> AllKnown(c, h[k])
    ensures r.Ok? ==> r.value.Keys == h.Keys && forall k :: k in h ==> NodesOf(c, h[k], r.value[k])
  {
    var hist: HistoryMap := map[];
    var keys := Sorted(h.Keys);
    for i := 0 to |keys|
      invariant Found(c, h, hist, keys[..i])
    {
      TakeNext(keys, i);
      assert keys[i] in keys;
      var nodes := RestoreNodes(c, h[keys[i]]);
      if nodes.Err? { return Err(nodes.error); }
      FoundOneMore(c, h, hist, keys[..i], keys[i], nodes.value);
      hist := hist[keys[i] := nodes.value];
    }
    assert keys[..|keys|] == keys;
    return Ok(hist);
  }

  /** `hist` has the nodes of the histories with these keys. */
  ghost predicate Found(c: Chart, h: map<string, seq<string>>, hist: HistoryMap, keys: seq<string>) {
    && (forall k :: k in hist <==> k in keys)
    && (forall k :: k in hist ==> k in h && AllKnown(c, h[k]) && NodesOf(c, h[k], hist[k]))
  }

  lemma FoundOneMore(c: Chart, h: map<string, seq<string>>, hist: HistoryMap, keys: seq<string>, key: string,
                     nodes: seq<int>)
    requires Found(c, h, hist, keys) && key in h && AllKnown(c, h[key]) && NodesOf(c, h[key], nodes)
    ensures Found(c, h, hist[key := nodes], keys + [key])
  {}

  // ---- whatever the value, nothing is rebuilt twice ----

  ghost predicate Within(c: Chart, l: seq<int>, n: int) {
    NoDup(l) && forall m :: m in l ==> 0 <= m < Size(c) && Desc(c, m, n)
  }

  /** No member of `out` lies below a child with one of the keys. */
  ghost predicate Ahead(c: Chart, n: int, keys: seq<string>, out: seq<int>) {
    forall m, b {:trigger Desc(c, m, b)} :: m in out && b in Children(c, n) && At(c, b).key in keys ==> !Desc(c, m, b)
  }

  lemma {:induction false} RebuiltDistinct(c: Chart, n: int, v: StateValue)
    requires 0 <= n < Size(c) && Rebuilt(c, n, v).Ok?
    ensures Within(c, Rebuilt(c, n, v).value, n)
    decreases v, 1, 0
  {
    if v.Empty() {
    } else if v.IsLeaf() {
      FirstNamedMember(c, Children(c, n), v.leaf);
    } else {
      var keys := Sorted(v.branches.Keys);
      forall b | b in Children(c, n) ensures !Desc(c, n, b) { NotBelowOwnChild(c, n, b); }
      BranchesDistinct(c, n, v, keys, [n]);
    }
  }

  lemma {:induction false} BranchesDistinct(c: Chart, n: int, v: StateValue, keys: seq<string>, out: seq<int>)
    requires 0 <= n < Size(c) && (forall k :: k in keys ==> k in v.branches) && AscendingKeys(keys)
    requires Within(c, out, n) && Ahead(c, n, keys, out) && RebuiltBranches(c, n, v, keys, out).Ok?
    ensures Within(c, RebuiltBranches(c, n, v, keys, out).value, n)
    decreases v, 0, |keys|
  {
    if keys != [] {
      var ch, sub := ChildNamed(c, n, keys[0]), v.branches[keys[0]];
      FirstNamedMember(c, Children(c, n), keys[0]);
      RebuiltDistinct(c, ch, sub);
      var l := Rebuilt(c, ch, sub).value;
      WithinMore(c, n, ch, keys, out, l);
      BranchesDistinct(c, n, v, keys[1..], out + l);
    }
  }

  lemma {:induction false} WithinMore(c: Chart, n: int, ch: int, keys: seq<string>, out: seq<int>, l: seq<int>)
    requires keys != [] && AscendingKeys(keys) && ch in Children(c, n) && At(c, ch).key == keys[0]
    requires Within(c, out, n) && Ahead(c, n, keys, out) && Within(c, l, ch)
    ensures AscendingKeys(keys[1..]) && Within(c, out + l, n) && Ahead(c, n, keys[1..], out + l)
  {
    var all := out + l;
    assert keys[0] in keys && keys[0] !in keys[1..];
    assert forall k :: k in keys[1..] ==> k in keys;
    forall i, j | 0 <= i < j < |all| ensures all[i] != all[j] {
      if i < |out| <= j { assert all[i] in out && all[j] in l && Desc(c, all[j], ch); }
    }
    forall m | m in l ensures Desc(c, m, n) {
      assert Desc(c, ch, n);
      DescTrans(c, m, ch, n);
    }
    forall m, b | m in all && b in Children(c, n) && At(c, b).key in keys[1..] ensures !Desc(c, m, b) {
      if m in l && Desc(c, m, b) {
        SiblingAncestors(c, m, ch, b);
      }
    }
  }

  // ---- respawning children ----

  /** Whether an active state of `nodes` invokes `id`: such a child is stopped with the state. */
  predicate InvokedIn(c: Chart, nodes: seq<int>, id: string) {
    exists i, j :: 0 <= i < |nodes| && 0 <= j < |At(c, nodes[i]).invokes| && At(c, nodes[i]).invokes[j].id == id
  }

  /** One effect for each persisted child, in order of their ids. */
  function Respawns(c: Chart, nodes: seq<int>, children: map<string, PersistedChild>, ids: seq<string>): seq<Effect>
    requires forall k :: k in ids ==> k in children
  {
    if ids == [] then []
    else
      var n := |ids| - 1;
      assert ids[n] in ids;
      Respawns(c, nodes, children, ids[..n]) + [SpawnChild(ids[n], children[ids[n]].src, InvokedIn(c, nodes, ids[n]))]
  }

  /** A child is spawned again from its source, to be stopped with a state exactly if an active one invokes it. */
  lemma {:induction false} RespawnsExact(c: Chart, nodes: seq<int>, children: map<string, PersistedChild>,
                                         ids: seq<string>, i: nat)
    requires (forall k :: k in ids ==> k in children) && i < |ids|
    ensures |Respawns(c, nodes, children, ids)| == |ids| && ids[i] in ids
    ensures Respawns(c, nodes, children, ids)[i] ==
            SpawnChild(ids[i], children[ids[i]].src, exists j, k ::
              0 <= j < |nodes| && 0 <= k < |At(c, nodes[j]).invokes| && At(c, nodes[j]).invokes[k].id == ids[i])
  {
    var n := |ids| - 1;
    RespawnsCount(c, nodes, children, ids);
    if i < n {
      assert ids[..n][i] == ids[i];
      RespawnsCount(c, nodes, children, ids[..n]);
      RespawnsExact(c, nodes, children, ids[..n], i);
    }
  }

  lemma {:induction false} RespawnsCount(c: Chart, nodes: seq<int>, children: map<string, PersistedChild>,
                                         ids: seq<string>)
    requires forall k :: k in ids ==> k in children
    ensures |Respawns(c, nodes, children, ids)| == |ids|
  {
    if ids != [] { RespawnsCount(c, nodes, children, ids[..|ids| - 1]); }
  }

  ghost predicate SourcesKnown(children: map<string, PersistedChild>, actors: set<string>) {
    forall k :: k in children ==> children[k].src in actors
  }

  method InvokeIds(c: Chart, nodes: seq<int>) returns (ids: set<string>)
    ensures forall id :: id in ids <==> InvokedIn(c, nodes, id)
  {
    ids := {};
    for i := 0 to |nodes|
      invariant forall id :: id in ids <==> InvokedIn(c, nodes[..i], id)
    {
      var invokes := At(c, nodes[i]).invokes;
      ghost var before := ids;
      for j := 0 to |invokes|
        invariant forall id :: id in ids <==> id in before || exists k :: 0 <= k < j && invokes[k].id == id
      {
        ids := ids + {invokes[j].id};
      }
      InvokedNext(c, nodes, i);
    }
    assert nodes[..|nodes|] == nodes;
  }

  lemma {:induction false} InvokedNext(c: Chart, nodes: seq<int>, i: nat)
    requires i < |nodes|
    ensures forall id :: InvokedIn(c, nodes[..i + 1], id) <==>
              InvokedIn(c, nodes[..i], id) || exists k ::
                  0 <= k < |At(c, nodes[i]).invokes| && At(c, nodes[i]).invokes[k].id == id
  {
    var now := nodes[..i + 1];
    assert now[i] == nodes[i];
    forall id | InvokedIn(c, nodes[..i], id) ensures InvokedIn(c, now, id) {
      var h, j :| 0 <= h < i && 0 <= j < |At(c, nodes[..i][h]).invokes| && At(c, nodes[..i][h]).invokes[j].id == id;
      assert now[h] == nodes[..i][h];
    }
    forall id, k | 0 <= k < |At(c, nodes[i]).invokes| && At(c, nodes[i]).invokes[k].id == id
      ensures InvokedIn(c, now, id) {
      assert At(c, now[i]).invokes[k].id == id;
    }
    forall id | InvokedIn(c, now, id)
      ensures InvokedIn(c, nodes[..i], id) || exists k ::
          0 <= k < |At(c, nodes[i]).invokes| && At(c, nodes[i]).invokes[k].id == id
    {
      var h, j :| 0 <= h < |now| && 0 <= j < |At(c, now[h]).invokes| && At(c, now[h]).invokes[j].id == id;
      if h < i { assert nodes[..i][h] == now[h]; }
    }
  }

  lemma RespawnNext(c: Chart, nodes: seq<int>, children: map<string, PersistedChild>, ids: seq<string>, i: nat,
                    effects: seq<Effect>)
    requires (forall k :: k in ids ==> k in children) && i < |ids|
    ensures ids[i] in children && forall k :: k in ids[..i] ==> k in children
    ensures effects + Respawns(c, nodes, children, ids[..i + 1])
         == effects + Respawns(c, nodes, children, ids[..i])
            + [SpawnChild(ids[i], children[ids[i]].src, InvokedIn(c, nodes, ids[i]))]
  {
    assert ids[..i + 1][..i] == ids[..i] && ids[i] in ids;
  }

  method RespawnChildren(c: Chart, nodes: seq<int>, children: map<string, PersistedChild>, actors: set<string>,
                         effects: seq<Effect>)
    returns (r: Option<string>, effects': seq<Effect>)
    ensures r.None? <==> SourcesKnown(children, actors)
    ensures r.None? ==> effects' == effects + Respawns(c, nodes, children, Sorted(children.Keys))
    ensures effects <= effects'
  {
    r, effects' := None, effects;
    var invoked := InvokeIds(c, nodes);
    var ids := Sorted(children.Keys);
    for i := 0 to |ids|
      invariant effects' == effects + Respawns(c, nodes, children, ids[..i])
      invariant forall j :: 0 <= j < i ==> children[ids[j]].src in actors
    {
      var id := ids[i];
      RespawnNext(c, nodes, children, ids, i, effects);
      if children[id].src !in actors {
        return Some("machine restore: unknown actor src '" + children[id].src + "'"), effects';
      }
      effects' := effects' + [SpawnChild(id, children[id].src, id in invoked)];
    }
    assert ids[..|ids|] == ids;
    forall k | k in children ensures children[k].src in actors {
      var j :| 0 <= j < |ids| && ids[j] == k;
    }
  }

  // ---- restoring ----

  /**
   The context is one of this machine's, the state value describes states of the chart, and all stored ids and child
   logics are known.
   */
  ghost predicate Restorable(c: Chart, ps: PersistedSnapshot, actors: set<string>) {
    && ps.context.Some? && Rebuilt(c, 0, ps.value).Ok?
    && (forall k :: k in ps.historyValue ==> AllKnown(c, ps.historyValue[k]))
    && (ps.status == F.Active ==> SourcesKnown(ps.children, actors))
  }

  /** What restoring an active machine starts: its `after` timers, anew, and its children. */
  function RestoreEffects(c: Chart, ps: PersistedSnapshot, configuration: seq<int>, ctx: Context): seq<Effect> {
    if ps.status != F.Active then []
    else Starts(c, configuration, ctx, INIT_EVENT) + Respawns(c, configuration, ps.children, Sorted(ps.children.Keys))
  }

  /** `snap` is what `ps` restores to. */
  ghost predicate IsRestored(c: Chart, ps: PersistedSnapshot, snap: Snapshot, effects: seq<Effect>) {
    && Rebuilt(c, 0, ps.value).Ok? && Within(c, Rebuilt(c, 0, ps.value).value, 0)
    && snap.configuration == SortAscending(c, Rebuilt(c, 0, ps.value).value)
    && snap.status == ps.status && snap.output == ps.output && snap.error == ps.error
    && Some(snap.context) == ps.context
    && snap.value == ValueOf(c, 0, Elems(snap.configuration)) && snap.tags == TagsOf(c, snap.configuration)
    && snap.historyValue.Keys == ps.historyValue.Keys
    && (forall k :: k in ps.historyValue ==> NodesOf(c, ps.historyValue[k], snap.historyValue[k]))
    && effects == RestoreEffects(c, ps, snap.configuration, snap.context)
  }

  method RestoreSnapshot(c: Chart, ps: PersistedSnapshot, actors: set<string>, effects: seq<Effect>)
    returns (r: Result<Snapshot, string>, effects': seq<Effect>, ghost own: seq<Effect>)
    ensures r.Ok? <==> Restorable(c, ps, actors)
    ensures r.Ok? ==> IsRestored(c, ps, r.value, own) && effects' == effects + own
    ensures r.Ok? && ps.status == F.Active ==>
      own == Starts(c, r.value.configuration, r.value.context, Event("xstate.init", None))
             + Respawns(c, r.value.configuration, ps.children, Sorted(ps.children.Keys))
    ensures r.Ok? && ps.status != F.Active ==> own == []
    ensures effects <= effects'
  {
    effects', own := effects, [];
    if ps.context.None? { return Err("machine restore: context type mismatch"), effects', own; }
    var rebuilt := RestoreStates(c, ps.value);
    if rebuilt.Err? { return Err(rebuilt.error), effects', own; }
    var configuration := rebuilt.value;
    var hist := RestoreHistory(c, ps.historyValue);
    if hist.Err? { return Err(hist.error), effects', own; }
    var value, tags := FinalizeSnapshot(c, configuration);
    var snap := Snapshot(ps.status, ps.output, ps.error, value, ps.context.value, tags, configuration, hist.value);
    own := RestoreEffects(c, ps, configuration, snap.context);
    var failure;
    failure, effects' := Rearm(c, ps, configuration, snap.context, actors, effects);
    if failure.Some? { return Err(failure.value), effects', own; }
    r := Ok(snap);
  }

  method RestoreStates(c: Chart, value: StateValue) returns (r: Result<seq<int>, string>)
    ensures r.Ok? <==> Rebuilt(c, 0, value).Ok?
    ensures r.Ok? ==> Within(c, Rebuilt(c, 0, value).value, 0)
    ensures r.Ok? ==> r.value == SortAscending(c, Rebuilt(c, 0, value).value)
  {
    r := RestoreConfig(c, 0, value, []);
    if r.Ok? {
      RebuiltDistinct(c, 0, value);
      assert r.value == Rebuilt(c, 0, value).value;
      r := Ok(SortAscending(c, r.value));
    }
  }

  /** An active machine has its timers started and its children spawned again. */
  method Rearm(c: Chart, ps: PersistedSnapshot, configuration: seq<int>, ctx: Context, actors: set<string>,
               effects: seq<Effect>)
    returns (failure: Option<string>, effects': seq<Effect>)
    ensures failure.None? <==> (ps.status == F.Active ==> SourcesKnown(ps.children, actors))
    ensures failure.None? ==> effects' == effects + RestoreEffects(c, ps, configuration, ctx)
    ensures effects <= effects'
  {
    failure, effects' := None, effects;
    if ps.status == F.Active {
      effects' := EmitDelayEffects(c, [], configuration, ctx, INIT_EVENT, effects);
      assert effects + [] == effects;
      failure, effects' := RespawnChildren(c, configuration, ps.children, actors, effects');
      AppendAfter(effects, Starts(c, configuration, ctx, INIT_EVENT),
                  Respawns(c, configuration, ps.children, Sorted(ps.children.Keys)));
    }
  }

  /** A snapshot of this chart, whatever its status. */
  ghost predicate Faithful(c: WFChart, snap: Snapshot) {
    && LegalSnapshot(c, snap) && HistoryValid(c, snap.historyValue) && HistoryKeyed(c, snap.historyValue)
    && snap.value == ValueOf(c, 0, Elems(snap.configuration)) && snap.tags == TagsOf(c, snap.configuration)
  }

  lemma {:induction false} StoredInRange(c: WFChart, hist: HistoryMap, k: string, n: int)
    requires HistoryValid(c, hist) && HistoryKeyed(c, hist) && k in hist && n in hist[k]
    ensures 0 <= n < Size(c)
  {
    var h :| 0 < h < Size(c) && Kind(c, h) == History && Id(c, h) == k;
    var w :| Legal(c, w) && Parent(c, h) in w && hist[Id(c, h)] == Record(c, w, h);
    RecordMembers(c, w, h, n);
  }

  lemma {:induction false} IdsKnown(c: Chart, nodes: seq<int>)
    requires forall n :: n in nodes ==> 0 <= n < Size(c)
    ensures NodesOf(c, Ids(c, nodes), nodes) && AllKnown(c, Ids(c, nodes))
  {
    forall i | 0 <= i < |nodes| ensures NodeById(c, Ids(c, nodes)[i]) == nodes[i] && nodes[i] != NULL {
      assert nodes[i] in nodes;
      FoundById(c, 0, nodes[i]);
    }
  }

  /**
   Persisting and restoring gives back the very same snapshot: status, output, error, value, tags, configuration and
   history.
   */
  lemma {:induction false} PersistRestores(c: WFChart, snap: Snapshot, ps: PersistedSnapshot, actors: set<string>)
    requires Named(c) && Faithful(c, snap) && Persists(c, snap, ps)
    ensures Restorable(c, ps, actors) <==> (snap.status == F.Active ==> SourcesKnown(ps.children, actors))
    ensures forall snap', effects :: IsRestored(c, ps, snap', effects) ==>
              snap' == snap && effects == RestoreEffects(c, ps, snap.configuration, snap.context)
  {
    ValueRoundTrip(c, Elems(snap.configuration));
    forall k | k in snap.historyValue
      ensures AllKnown(c, ps.historyValue[k]) && NodesOf(c, ps.historyValue[k], snap.historyValue[k])
    {
      forall n | n in snap.historyValue[k] ensures 0 <= n < Size(c) { StoredInRange(c, snap.historyValue, k, n); }
      IdsKnown(c, snap.historyValue[k]);
    }
    forall snap', effects | IsRestored(c, ps, snap', effects) ensures snap' == snap {
      SameHistory(c, ps.historyValue, snap.historyValue, snap'.historyValue);
    }
  }

  lemma {:induction false} SameHistory(c: Chart, h: map<string, seq<string>>, hist: HistoryMap, hist': HistoryMap)
    requires hist.Keys == h.Keys == hist'.Keys
    requires forall k :: k in h ==> NodesOf(c, h[k], hist[k]) && NodesOf(c, h[k], hist'[k])
    ensures hist == hist'
  {
    forall k | k in h ensures hist[k] == hist'[k] {}
  }
}
