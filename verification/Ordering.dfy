/** The order in which a step runs actions. */
module Orderings {
  import opened Basics
  import opened StateNodes
  import opened Transitions
  import opened Stepping
  import opened StepStarts
  import opened Actions
  import opened Microsteps

  /** The exit of `n` stands at `i` only, after those of all its descendants. */
  ghost predicate ExitPlaced(c: Chart, blocks: seq<Block>, n: int, i: nat) {
    && i < |blocks| && blocks[i] == ExitOf(n)
    && (forall j :: 0 <= j < |blocks| && blocks[j] == ExitOf(n) ==> j == i)
    && (forall j, m :: 0 <= j < |blocks| && blocks[j] == ExitOf(m) && Below(c, m, n) ==> j < i)
  }

  /** The entry of `n` stands at `i` only, after those of all its ancestors. */
  ghost predicate EntryPlaced(c: Chart, blocks: seq<Block>, n: int, i: nat) {
    && i < |blocks| && blocks[i] == EntryOf(n)
    && (forall j :: 0 <= j < |blocks| && blocks[j] == EntryOf(n) ==> j == i)
    && (forall j, a :: 0 <= j < |blocks| && blocks[j] == EntryOf(a) && Below(c, n, a) ==> j < i)
  }

  // ---- exits ----

  lemma {:induction false} ExitBlockAt(nodes: seq<int>, i: nat)
    requires i < |nodes|
    ensures |ExitBlocks(nodes)| == |nodes| && ExitBlocks(nodes)[i] == ExitOf(nodes[i])
  {
    if |nodes| > 1 { ExitBlockAt(nodes[1..], if i > 0 then i - 1 else 0); }
  }

  lemma {:induction false} ExitBlockCount(nodes: seq<int>)
    ensures |ExitBlocks(nodes)| == |nodes|
  {
    if nodes != [] { ExitBlockCount(nodes[1..]); }
  }

  /** The `j`-th exit block is that of the `j`-th exited state from the back. */
  lemma {:induction false} ExitFromBack(c: Chart, exits: set<int>, j: nat)
    requires j < |ExitBlocks(ExitOrder(c, exits))|
    ensures var up := Ordered(Size(c), exits);
            j < |up| && ExitBlocks(ExitOrder(c, exits))[j] == ExitOf(up[|up| - 1 - j])
  {
    ExitBlockCount(ExitOrder(c, exits));
    ExitBlockAt(ExitOrder(c, exits), j);
  }

  /** Each exited state's exit actions run exactly once, in the place after all its exited descendants'. */
  lemma {:induction false} ExitsDeepestFirst(c: Chart, exits: set<int>, n: int) returns (i: nat)
    requires n in exits && forall m :: m in exits ==> 0 <= m < Size(c)
    ensures ExitPlaced(c, ExitBlocks(ExitOrder(c, exits)), n, i)
  {
    var blocks, up := ExitBlocks(ExitOrder(c, exits)), Ordered(Size(c), exits);
    assert n in up;
    var k :| 0 <= k < |up| && up[k] == n;
    i := |up| - 1 - k;
    ExitBlockCount(ExitOrder(c, exits));
    ExitFromBack(c, exits, i);
    forall j, m | 0 <= j < |blocks| && blocks[j] == ExitOf(m)
      ensures m == n ==> j == i
      ensures Below(c, m, n) ==> j < i
    {
      ExitFromBack(c, exits, j);
      var at := |up| - 1 - j;
      assert up[at] == m && m in up;
      if Below(c, m, n) { DescBounds(c, m, n); }
    }
  }

  // ---- entries ----

  /**
   Entry actions take the odd places of document order, a parent's initial actions the even place just before its
   initial child.
   */
  function Place(c: Chart, b: Block): int {
    match b
    case EntryOf(n) => 2 * n + 1
    case InitialOf(p) => 2 * Initial(c, p)
    case _ => 0
  }

  ghost predicate InPlace(c: Chart, blocks: seq<Block>) {
    && (forall i, j :: 0 <= i < j < |blocks| ==> Place(c, blocks[i]) < Place(c, blocks[j]))
    && (forall b :: b in blocks ==> b.EntryOf? || (b.InitialOf? && Initial(c, b.parent) != NULL))
  }

  lemma {:induction false} EntryBlockMembers(c: Chart, nodes: seq<int>, via: set<int>, b: Block)
    requires forall n :: n in nodes ==> 0 <= n < Size(c)
    ensures b in EntryBlocks(c, nodes, via) <==>
            (b.EntryOf? && b.node in nodes)
            || (b.InitialOf? && Initial(c, b.parent) != NULL && Initial(c, b.parent) in nodes
                && Initial(c, b.parent) in via)
  {
    if nodes != [] {
      var n := nodes[0];
      assert forall m :: m in nodes <==> m == n || m in nodes[1..];
      assert n in nodes;
      EntryBlockMembers(c, nodes[1..], via, b);
      assert Initial(c, Parent(c, n)) == n ==> n in Children(c, Parent(c, n));
      if b.InitialOf? && Initial(c, b.parent) == n && n != NULL {
        assert n in Children(c, b.parent);
      }
    }
  }

  lemma {:induction false} EntryBlocksInPlace(c: Chart, nodes: seq<int>, via: set<int>)
    requires Ascending(nodes) && forall n :: n in nodes ==> 0 <= n < Size(c)
    ensures InPlace(c, EntryBlocks(c, nodes, via))
  {
    if nodes != [] {
      var n, rest := nodes[0], nodes[1..];
      assert n in nodes;
      forall m | m in rest ensures m in nodes && n < m {
        var k :| 0 <= k < |rest| && rest[k] == m;
        assert nodes[k + 1] == m;
      }
      EntryBlocksInPlace(c, rest, via);
      var first, more := EntryBlock(c, via, n), EntryBlocks(c, rest, via);
      forall b | b in more ensures Place(c, b) > 2 * n + 1 {
        EntryBlockMembers(c, rest, via, b);
      }
      InPlaceConcat(c, first, more, 2 * n + 1);
    }
  }

  lemma {:induction false} InPlaceConcat(c: Chart, s: seq<Block>, t: seq<Block>, k: int)
    requires InPlace(c, s) && InPlace(c, t)
    requires (forall b :: b in s ==> Place(c, b) <= k) && (forall b :: b in t ==> Place(c, b) > k)
    ensures InPlace(c, s + t)
  {
    var u := s + t;
    forall i, j | 0 <= i < j < |u| ensures Place(c, u[i]) < Place(c, u[j]) {
      if i < |s| <= j { assert u[i] in s && u[j] in t; }
    }
  }

  /** Each entered state's entry actions run exactly once, in the place after all its entered ancestors'. */
  lemma {:induction false} EntriesOutermostFirst(c: Chart, entered: set<int>, via: set<int>, n: int) returns (i: nat)
    requires n in entered && forall m :: m in entered ==> 0 <= m < Size(c)
    ensures EntryPlaced(c, EntryBlocks(c, Ordered(Size(c), entered), via), n, i)
  {
    var nodes := Ordered(Size(c), entered);
    var blocks := EntryBlocks(c, nodes, via);
    EntryBlockMembers(c, nodes, via, EntryOf(n));
    EntryBlocksInPlace(c, nodes, via);
    i :| 0 <= i < |blocks| && blocks[i] == EntryOf(n);
    forall j, a | 0 <= j < |blocks| && blocks[j] == EntryOf(a)
      ensures a == n ==> j == i
      ensures Below(c, n, a) ==> j < i
    {
      PlacesTell(c, blocks, i, j);
      if Below(c, n, a) { DescBounds(c, n, a); }
    }
  }

  lemma PlacesTell(c: Chart, blocks: seq<Block>, i: nat, j: nat)
    requires InPlace(c, blocks) && i < |blocks| && j < |blocks|
    ensures Place(c, blocks[i]) < Place(c, blocks[j]) <==> i < j
    ensures Place(c, blocks[i]) == Place(c, blocks[j]) <==> i == j
  {}

  /**
   The initial actions of `p` run if `runs`, and then once: right before the entry of its initial child `n`, and after
   its own.
   */
  ghost predicate InitialsInBetween(blocks: seq<Block>, p: int, n: int, runs: bool) {
    && (InitialOf(p) in blocks <==> runs)
    && (forall i, j :: 0 <= i < |blocks| && 0 <= j < |blocks| && blocks[i] == blocks[j] == InitialOf(p) ==> i == j)
    && (forall i :: 0 <= i < |blocks| && blocks[i] == InitialOf(p) ==> i + 1 < |blocks| && blocks[i + 1] == EntryOf(n))
    && (forall i, j ::
          0 <= i < |blocks| && 0 <= j < |blocks| && blocks[i] == InitialOf(p) && blocks[j] == EntryOf(p) ==> j < i)
  }

  /** A parent's initial actions run exactly if its initial child is entered through its initial transition. */
  lemma {:induction false} InitialActionsInBetween(c: Chart, entered: set<int>, via: set<int>, p: int)
    requires Initial(c, p) != NULL && forall m :: m in entered ==> 0 <= m < Size(c)
    ensures InitialsInBetween(EntryBlocks(c, Ordered(Size(c), entered), via), p, Initial(c, p), Initial(c, p) in entered
                              && Initial(c, p) in via)
  {
    var nodes := Ordered(Size(c), entered);
    var blocks, n := EntryBlocks(c, nodes, via), Initial(c, p);
    assert n in Children(c, p);
    EntryBlockMembers(c, nodes, via, InitialOf(p));
    EntryBlockMembers(c, nodes, via, EntryOf(n));
    EntryBlocksInPlace(c, nodes, via);
    InitialsPlaced(c, blocks, p, n);
  }

  lemma {:induction false} InitialsPlaced(c: Chart, blocks: seq<Block>, p: int, n: int)
    requires InPlace(c, blocks) && n == Initial(c, p) && 0 <= p < n && (InitialOf(p) in blocks ==> EntryOf(n) in blocks)
    ensures InitialsInBetween(blocks, p, n, InitialOf(p) in blocks)
  {
    forall i | 0 <= i < |blocks| && blocks[i] == InitialOf(p)
      ensures i + 1 < |blocks| && blocks[i + 1] == EntryOf(n)
    {
      var k :| 0 <= k < |blocks| && blocks[k] == EntryOf(n);
      NextPlace(c, blocks, i, k);
    }
    forall i, j | 0 <= i < |blocks| && 0 <= j < |blocks| && blocks[i] == InitialOf(p) && blocks[j] == EntryOf(p)
      ensures j < i {
      assert Place(c, blocks[j]) < Place(c, blocks[i]);
    }
  }

  lemma {:induction false} NextPlace(c: Chart, blocks: seq<Block>, i: nat, k: nat)
    requires InPlace(c, blocks) && i < |blocks| && k < |blocks| && Place(c, blocks[k]) == Place(c, blocks[i]) + 1
    ensures k == i + 1
  {
    forall j | i < j < |blocks| ensures Place(c, blocks[j]) == Place(c, blocks[i]) + 1 ==> j == i + 1 {
      if j > i + 1 { assert Place(c, blocks[i]) < Place(c, blocks[i + 1]) < Place(c, blocks[j]); }
    }
  }

  // ---- whole microsteps ----

  /** All action blocks of a microstep: exits, transitions in the order selected, entries. */
  ghost function StepBlocks(c: Chart, sel: seq<TransitionRef>, cur: Snapshot, next: Snapshot): seq<Block> {
    ExitBlocks(ExitOrder(c, ExitedIn(c, sel, cur))) + TransitionBlocks(sel)
    + EntryBlocks(c, Ordered(Size(c), EnteredIn(c, sel, cur, next)), InitiallyIn(c, sel, cur, next))
  }

  ghost function ExitedIn(c: Chart, sel: seq<TransitionRef>, cur: Snapshot): set<int> {
    Exits(c, Elems(cur.configuration), sel)
  }

  ghost function EnteredIn(c: Chart, sel: seq<TransitionRef>, cur: Snapshot, next: Snapshot): set<int> {
    EnteredBy(c, Elems(cur.configuration), sel, Elems(next.configuration))
  }

  /** Those entered through their parent's initial transition, where there is one. */
  ghost function InitiallyIn(c: Chart, sel: seq<TransitionRef>, cur: Snapshot, next: Snapshot): set<int> {
    EnteredIn(c, sel, cur, next) - Given(c, Elems(cur.configuration), next.historyValue, sel)
  }

  /** Equal but for the effects. */
  ghost predicate SameButEffects(mc: MicroCtx, mc': MicroCtx) {
    mc' == mc.(effects := mc'.effects)
  }

  lemma {:induction false} BlocksIgnoreEffects(c: Chart, blocks: seq<Block>, mc: MicroCtx, mc': MicroCtx, event: Event)
    requires SameButEffects(mc, mc')
    ensures SameButEffects(RunBlocks(c, blocks, mc, event), RunBlocks(c, blocks, mc', event))
  {
    var bare := mc.(effects := []);
    assert mc.effects + [] == mc.effects && mc'.effects + [] == mc'.effects && [] + mc.queue == mc.queue;
    assert mc == After(mc.effects, [], bare) && mc' == After(mc'.effects, [], bare);
    RunBlocksAfter(c, blocks, mc.effects, [], bare, event);
    RunBlocksAfter(c, blocks, mc'.effects, [], bare, event);
  }

  /** A microstep's draft and raised events are those of running its blocks one after the other. */
  lemma {:induction false} StepRunsBlocks(c: Chart, sel: seq<TransitionRef>, cur: Snapshot, event: Event,
                                          env: Surroundings, next: Snapshot, env': Surroundings, progress: bool)
    requires IsMicrostep(c, sel, cur, event, env, next, env', progress)
    ensures var mc := RunBlocks(c, StepBlocks(c, sel, cur, next), MicroCtx(cur.context, [], env.queue, 0, false),
                                event);
            next.context == mc.draft && mc.queue <= env'.queue
  {
    var exited := ExitOrder(c, ExitedIn(c, sel, cur));
    var toEnter, via := Ordered(Size(c), EnteredIn(c, sel, cur, next)), InitiallyIn(c, sel, cur, next);
    var entries := EntryBlocks(c, toEnter, via);
    var start := MicroCtx(cur.context, [], env.queue, 0, false);
    RunBlocksConcat(c, ExitBlocks(exited) + TransitionBlocks(sel), entries, start, event);
    RunBlocksConcat(c, ExitBlocks(exited), TransitionBlocks(sel), start, event);
    var left := LeaveActions(c, exited, sel, start.(effects := env.effects), event);
    LeaveRunsBlocks(c, exited, sel, start, start.(effects := env.effects), event);
    var r := RunBlocks(c, TransitionBlocks(sel), RunBlocks(c, ExitBlocks(exited), start, event), event);
    BlocksIgnoreEffects(c, entries, r, left.(effects := left.effects + Spawns(c, toEnter)), event);
  }

  lemma {:induction false} LeaveRunsBlocks(c: Chart, exited: seq<int>, sel: seq<TransitionRef>, mc: MicroCtx,
                                           mc': MicroCtx, event: Event)
    requires SameButEffects(mc, mc')
    ensures SameButEffects(RunBlocks(c, TransitionBlocks(sel), RunBlocks(c, ExitBlocks(exited), mc, event), event),
                           LeaveActions(c, exited, sel, mc', event))
  {
    BlocksIgnoreEffects(c, ExitBlocks(exited), mc, mc', event);
    var m, m' := RunBlocks(c, ExitBlocks(exited), mc, event), RunBlocks(c, ExitBlocks(exited), mc', event);
    BlocksIgnoreEffects(c, TransitionBlocks(sel), m, m'.(effects := m'.effects + Cancels(c, exited) + Stops(c, exited)),
                        event);
  }

  // ---- where each block stands in its step ----

  lemma {:induction false} ExitBlockKinds(nodes: seq<int>, b: Block)
    ensures b in ExitBlocks(nodes) ==> b.ExitOf?
  {
    if nodes != [] { ExitBlockKinds(nodes[1..], b); }
  }

  lemma {:induction false} TransitionBlockKinds(sel: seq<TransitionRef>, b: Block)
    ensures b in TransitionBlocks(sel) ==> b.ActionsOf?
  {
    if sel != [] { TransitionBlockKinds(sel[1..], b); }
  }

  lemma {:induction false} EntryBlockKinds(c: Chart, nodes: seq<int>, via: set<int>, b: Block)
    ensures b in EntryBlocks(c, nodes, via) ==> b.EntryOf? || b.InitialOf?
  {
    if nodes != [] { EntryBlockKinds(c, nodes[1..], via, b); }
  }

  /** Three parts of a step, told apart by the kinds of their blocks. */
  ghost predicate Parts(blocks: seq<Block>, exits: seq<Block>, taken: seq<Block>, entries: seq<Block>) {
    && blocks == exits + taken + entries
    && (forall b :: b in exits ==> b.ExitOf?)
    && (forall b :: b in taken ==> b.ActionsOf?)
    && (forall b :: b in entries ==> b.EntryOf? || b.InitialOf?)
  }

  lemma {:induction false} StepParts(c: Chart, sel: seq<TransitionRef>, cur: Snapshot, next: Snapshot)
    returns (exits: seq<Block>, entries: seq<Block>)
    ensures exits == ExitBlocks(ExitOrder(c, ExitedIn(c, sel, cur)))
    ensures entries == EntryBlocks(c, Ordered(Size(c), EnteredIn(c, sel, cur, next)), InitiallyIn(c, sel, cur, next))
    ensures Parts(StepBlocks(c, sel, cur, next), exits, TransitionBlocks(sel), entries)
  {
    exits := ExitBlocks(ExitOrder(c, ExitedIn(c, sel, cur)));
    entries := EntryBlocks(c, Ordered(Size(c), EnteredIn(c, sel, cur, next)), InitiallyIn(c, sel, cur, next));
    forall b | b in exits ensures b.ExitOf? { ExitBlockKinds(ExitOrder(c, ExitedIn(c, sel, cur)), b); }
    forall b | b in TransitionBlocks(sel) ensures b.ActionsOf? { TransitionBlockKinds(sel, b); }
    forall b | b in entries ensures b.EntryOf? || b.InitialOf? {
      EntryBlockKinds(c, Ordered(Size(c), EnteredIn(c, sel, cur, next)), InitiallyIn(c, sel, cur, next), b);
    }
  }

  /** Exit blocks stand where they do in the first part, entry and initial blocks where they do in the last. */
  lemma PartsAt(blocks: seq<Block>, exits: seq<Block>, taken: seq<Block>, entries: seq<Block>, j: nat)
    requires Parts(blocks, exits, taken, entries) && j < |blocks|
    ensures blocks[j].ExitOf? <==> j < |exits|
    ensures j < |exits| ==> blocks[j] == exits[j]
    ensures blocks[j].EntryOf? || blocks[j].InitialOf? <==> |exits| + |taken| <= j
    ensures |exits| + |taken| <= j ==> blocks[j] == entries[j - |exits| - |taken|]
  {
    if j < |exits| { assert blocks[j] == exits[j] && exits[j] in exits; }
    else if j < |exits| + |taken| { assert blocks[j] == taken[j - |exits|] && taken[j - |exits|] in taken; }
    else { assert entries[j - |exits| - |taken|] in entries; }
  }

  lemma {:induction false} PartsExit(c: Chart, blocks: seq<Block>, exits: seq<Block>, taken: seq<Block>,
                                     entries: seq<Block>, n: int, i: nat)
    requires Parts(blocks, exits, taken, entries) && ExitPlaced(c, exits, n, i)
    ensures ExitPlaced(c, blocks, n, i) && forall j :: 0 <= j < |blocks| && !blocks[j].ExitOf? ==> i < j
  {
    PartsAt(blocks, exits, taken, entries, i);
    forall j | 0 <= j < |blocks| ensures if blocks[j].ExitOf? then j < |exits| && blocks[j] == exits[j] else i < j {
      PartsAt(blocks, exits, taken, entries, j);
    }
  }

  lemma {:induction false} PartsEntry(c: Chart, blocks: seq<Block>, exits: seq<Block>, taken: seq<Block>,
                                      entries: seq<Block>, n: int, k: nat)
    requires Parts(blocks, exits, taken, entries) && EntryPlaced(c, entries, n, k)
    ensures var i := |exits| + |taken| + k;
            && EntryPlaced(c, blocks, n, i)
            && forall j :: 0 <= j < |blocks| && (blocks[j].ExitOf? || blocks[j].ActionsOf?) ==> j < i
  {
    var i := |exits| + |taken| + k;
    PartsAt(blocks, exits, taken, entries, i);
    forall j | 0 <= j < |blocks|
      ensures blocks[j].EntryOf? ==> j >= |exits| + |taken| && blocks[j] == entries[j - |exits| - |taken|]
      ensures blocks[j].ExitOf? || blocks[j].ActionsOf? ==> j < i
    {
      PartsAt(blocks, exits, taken, entries, j);
    }
  }

  /**
   In every microstep each exited state's exit actions run exactly once, after those of all its exited descendants and
   before any entry.
   */
  lemma {:induction false} StepExitsOnce(c: Chart, sel: seq<TransitionRef>, cur: Snapshot, next: Snapshot, n: int)
    returns (i: nat)
    requires n in ExitedIn(c, sel, cur) && forall m :: m in cur.configuration ==> 0 <= m < Size(c)
    ensures var blocks := StepBlocks(c, sel, cur, next);
            ExitPlaced(c, blocks, n, i) && forall j :: 0 <= j < |blocks| && !blocks[j].ExitOf? ==> i < j
  {
    var exits, entries := StepParts(c, sel, cur, next);
    i := ExitsDeepestFirst(c, ExitedIn(c, sel, cur), n);
    PartsExit(c, StepBlocks(c, sel, cur, next), exits, TransitionBlocks(sel), entries, n, i);
  }

  /**
   In every microstep each entered state's entry actions run exactly once, after those of all its entered ancestors
   and after all exits and transitions.
   */
  lemma {:induction false} StepEntriesOnce(c: Chart, sel: seq<TransitionRef>, cur: Snapshot, next: Snapshot, n: int)
    returns (i: nat)
    requires n in EnteredIn(c, sel, cur, next) && forall m :: m in next.configuration ==> 0 <= m < Size(c)
    ensures var blocks := StepBlocks(c, sel, cur, next);
            && EntryPlaced(c, blocks, n, i)
            && forall j :: 0 <= j < |blocks| && (blocks[j].ExitOf? || blocks[j].ActionsOf?) ==> j < i
  {
    var taken := TransitionBlocks(sel);
    var exits, entries := StepParts(c, sel, cur, next);
    var k := EntriesOutermostFirst(c, EnteredIn(c, sel, cur, next), InitiallyIn(c, sel, cur, next), n);
    i := |exits| + |taken| + k;
    PartsEntry(c, StepBlocks(c, sel, cur, next), exits, taken, entries, n, k);
  }

  lemma {:induction false} PartsInitials(blocks: seq<Block>, exits: seq<Block>, taken: seq<Block>, entries: seq<Block>,
                                         p: int, n: int, runs: bool)
    requires Parts(blocks, exits, taken, entries) && InitialsInBetween(entries, p, n, runs)
    ensures InitialsInBetween(blocks, p, n, runs)
  {
    var k := |exits| + |taken|;
    forall i | 0 <= i < |blocks| && (blocks[i] == InitialOf(p) || blocks[i] == EntryOf(p))
      ensures k <= i && blocks[i] == entries[i - k] {
      PartsAt(blocks, exits, taken, entries, i);
    }
    if InitialOf(p) in entries {
      var i :| 0 <= i < |entries| && entries[i] == InitialOf(p);
      assert blocks[k + i] == InitialOf(p);
    }
    forall i | 0 <= i < |blocks| && blocks[i] == InitialOf(p) ensures i + 1 < |blocks| && blocks[i + 1] == EntryOf(n) {
      assert entries[i - k] == InitialOf(p);
      assert blocks[i + 1] == entries[i + 1 - k];
    }
  }

  /**
   In every microstep a parent's initial actions run at most once: exactly if
   its initial child is entered, and not because a transition asked for it;
   then right before that child's entry actions and after the parent's.
   */
  lemma {:induction false} StepInitialsOnce(c: Chart, sel: seq<TransitionRef>, cur: Snapshot, next: Snapshot, p: int)
    requires Initial(c, p) != NULL && forall m :: m in next.configuration ==> 0 <= m < Size(c)
    ensures InitialsInBetween(StepBlocks(c, sel, cur, next), p, Initial(c, p),
                              Initial(c, p) in InitiallyIn(c, sel, cur, next))
  {
    var exits, entries := StepParts(c, sel, cur, next);
    InitialActionsInBetween(c, EnteredIn(c, sel, cur, next), InitiallyIn(c, sel, cur, next), p);
    PartsInitials(StepBlocks(c, sel, cur, next), exits, TransitionBlocks(sel), entries, p, Initial(c, p),
                  Initial(c, p) in InitiallyIn(c, sel, cur, next));
  }

  /**
   A step whose only transition has its source and its targets properly inside
   a state that is not parallel neither exits that state nor enters it: its
   actions do not run, and its timers and children are left alone.
   */
  lemma {:induction false} StaysActive(c: Chart, t: TransitionRef, cur: Snapshot, event: Event, env: Surroundings,
                                       next: Snapshot, env': Surroundings, progress: bool, a: int)
    requires 0 <= t.source < Size(c) && a in cur.configuration && Below(c, t.source, a) && Covers(c, a, Targets(c, t))
    requires IsMicrostep(c, [t], cur, event, env, next, env', progress)
    ensures a !in ExitedIn(c, [t], cur) && a !in EnteredIn(c, [t], cur, next) && a in next.configuration
  {
    var active := Elems(cur.configuration);
    InsideNotExited(c, active, t, a);
    assert a in active - Exits(c, active, [t]);
    assert a in Start(c, active, next.historyValue, [t]);
  }
}
