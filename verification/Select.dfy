/** Selecting transitions: guards, bubbling from the active leaves, and the resolution of conflicts. */
module Selection {
  import opened Basics
  import opened StateNodes
  import opened Configurations
  import opened Transitions
  import opened Targeting
  import opened StateValues
  import opened Microsteps

  // ---- what is enabled ----

  predicate EvaluateGuard(g: Guard, snap: Snapshot, event: Event) {
    match g
    case Holds(fn) => fn(snap.context, event)
    case And(operands) => forall i :: 0 <= i < |operands| ==> EvaluateGuard(operands[i], snap, event)
    case Or(operands) => exists i :: 0 <= i < |operands| && EvaluateGuard(operands[i], snap, event)
    case Not(operand) => !EvaluateGuard(operand, snap, event)
    case StateIn(path) => snap.value.Contains(FromPath(path))
  }

  /** What a guard without operands, or with one, means. */
  lemma GuardLaws(snap: Snapshot, event: Event, fn: (Context, Event) -> bool, g: Guard, path: string)
    ensures EvaluateGuard(Holds(fn), snap, event) <==> fn(snap.context, event)
    ensures EvaluateGuard(Not(g), snap, event) <==> !EvaluateGuard(g, snap, event)
    ensures EvaluateGuard(StateIn(path), snap, event) <==> snap.value.Contains(FromPath(path))
  {}

  /** A conjunction holds when all its operands do, and so without any. */
  lemma {:induction false} AndLaws(snap: Snapshot, event: Event, g: Guard, gs: seq<Guard>)
    ensures EvaluateGuard(And([]), snap, event)
    ensures EvaluateGuard(And([g] + gs), snap, event) <==>
            EvaluateGuard(g, snap, event) && EvaluateGuard(And(gs), snap, event)
  {
    var all := [g] + gs;
    assert all[0] == g && forall i :: 0 <= i < |gs| ==> all[i + 1] == gs[i];
  }

  /** A disjunction holds when one of its operands does, and so not without any. */
  lemma {:induction false} OrLaws(snap: Snapshot, event: Event, g: Guard, gs: seq<Guard>)
    ensures !EvaluateGuard(Or([]), snap, event)
    ensures EvaluateGuard(Or([g] + gs), snap, event) <==>
            EvaluateGuard(g, snap, event) || EvaluateGuard(Or(gs), snap, event)
  {
    var all := [g] + gs;
    assert all[0] == g && forall i :: 0 <= i < |gs| ==> all[i + 1] == gs[i];
    if EvaluateGuard(Or(gs), snap, event) {
      var i :| 0 <= i < |gs| && EvaluateGuard(gs[i], snap, event);
      assert EvaluateGuard(all[i + 1], snap, event);
    }
  }

  predicate GuardHolds(def: TransitionDef, snap: Snapshot, event: Event) {
    def.guard.Some? ==> EvaluateGuard(def.guard.value, snap, event)
  }

  /**
   The first transition of `n`, from the `k`-th on, for event type `want` whose guard holds; `None` if there is none.
   */
  function FirstEnabled(c: Chart, n: int, k: nat, want: string, snap: Snapshot, event: Event): Option<TransitionRef>
    requires k <= |At(c, n).transitions|
    decreases |At(c, n).transitions| - k
  {
    if k == |At(c, n).transitions| then None
    else
      var def := At(c, n).transitions[k];
      if def.eventType == want && GuardHolds(def, snap, event) then Some(TransitionRef(n, k))
      else FirstEnabled(c, n, k + 1, want, snap, event)
  }

  const WILDCARD := "*"

  /** Exact matches come before wildcards, and wildcards never match the eventless event. */
  function EnabledAt(c: Chart, n: int, snap: Snapshot, event: Event): Option<TransitionRef> {
    var exact := FirstEnabled(c, n, 0, event.name, snap, event);
    if exact.Some? || event.name == "" then exact else FirstEnabled(c, n, 0, WILDCARD, snap, event)
  }

  /** The `k`-th transition of `n` is for event type `want` and has no guard or one that holds. */
  ghost predicate Open(c: Chart, n: int, k: int, want: string, snap: Snapshot, event: Event) {
    var ts := At(c, n).transitions;
    && 0 <= k < |ts| && ts[k].eventType == want
    && (ts[k].guard.None? || EvaluateGuard(ts[k].guard.value, snap, event))
  }

  /** `t` is the first open transition of `n` for `want`. */
  ghost predicate FirstOpen(c: Chart, n: int, want: string, snap: Snapshot, event: Event, t: TransitionRef) {
    && t.source == n && Open(c, n, t.index, want, snap, event)
    && forall k {:trigger Open(c, n, k, want, snap, event)} :: k < t.index ==> !Open(c, n, k, want, snap, event)
  }

  ghost predicate NoneOpen(c: Chart, n: int, want: string, snap: Snapshot, event: Event) {
    forall k {:trigger Open(c, n, k, want, snap, event)} :: !Open(c, n, k, want, snap, event)
  }

  /**
   The first open transition of exactly the event's type; failing that, for an
   event that has a type, the first open wildcard; failing that, none.
   */
  ghost predicate Chosen(c: Chart, n: int, snap: Snapshot, event: Event, r: Option<TransitionRef>) {
    match r
    case Some(t) =>
      || FirstOpen(c, n, event.name, snap, event, t)
      || (event.name != "" && NoneOpen(c, n, event.name, snap, event) && FirstOpen(c, n, "*", snap, event, t))
    case None =>
      NoneOpen(c, n, event.name, snap, event) && (event.name != "" ==> NoneOpen(c, n, "*", snap, event))
  }

  lemma {:induction false} FirstEnabledExact(c: Chart, n: int, i: nat, want: string, snap: Snapshot, event: Event)
    requires i <= |At(c, n).transitions|
    requires forall k {:trigger Open(c, n, k, want, snap, event)} :: k < i ==> !Open(c, n, k, want, snap, event)
    ensures match FirstEnabled(c, n, i, want, snap, event)
            case Some(t) => FirstOpen(c, n, want, snap, event, t)
            case None => NoneOpen(c, n, want, snap, event)
    decreases |At(c, n).transitions| - i
  {
    if i < |At(c, n).transitions| {
      if FirstEnabled(c, n, i, want, snap, event) == Some(TransitionRef(n, i))
        && Open(c, n, i, want, snap, event) {
      } else {
        FirstEnabledExact(c, n, i + 1, want, snap, event);
      }
    }
  }

  lemma {:induction false} EnabledIsChosen(c: Chart, n: int, snap: Snapshot, event: Event)
    ensures Chosen(c, n, snap, event, EnabledAt(c, n, snap, event))
  {
    FirstEnabledExact(c, n, 0, event.name, snap, event);
    FirstEnabledExact(c, n, 0, WILDCARD, snap, event);
  }

  method SelectForNode(c: Chart, n: int, snap: Snapshot, event: Event) returns (r: Option<TransitionRef>)
    ensures r == EnabledAt(c, n, snap, event) && Chosen(c, n, snap, event, r)
  {
    EnabledIsChosen(c, n, snap, event);
    r := ScanTransitions(c, n, event.name, snap, event);
    if r.None? && event.name != "" { r := ScanTransitions(c, n, WILDCARD, snap, event); }
  }

  method ScanTransitions(c: Chart, n: int, want: string, snap: Snapshot, event: Event)
    returns (r: Option<TransitionRef>)
    ensures r == FirstEnabled(c, n, 0, want, snap, event)
  {
    var transitions := At(c, n).transitions;
    for k := 0 to |transitions|
      invariant FirstEnabled(c, n, 0, want, snap, event) == FirstEnabled(c, n, k, want, snap, event)
    {
      var def := transitions[k];
      if def.eventType != want { continue; }
      if !GuardHolds(def, snap, event) { continue; }
      return Some(TransitionRef(n, k));
    }
    return None;
  }

  /** The transition that handles the event for `n`: its own, or the nearest ancestor's. */
  function Handler(c: Chart, n: int, snap: Snapshot, event: Event): Option<TransitionRef>
    decreases n
  {
    var own := EnabledAt(c, n, snap, event);
    if own.Some? then own
    else if 0 <= Parent(c, n) < n then Handler(c, Parent(c, n), snap, event)
    else None
  }

  lemma {:induction false} FirstEnabledAt(c: Chart, n: int, k: nat, want: string, snap: Snapshot, event: Event)
    requires k <= |At(c, n).transitions|
    ensures FirstEnabled(c, n, k, want, snap, event).Some? ==>
        FirstEnabled(c, n, k, want, snap, event).value.source == n
    decreases |At(c, n).transitions| - k
  {
    if k < |At(c, n).transitions| { FirstEnabledAt(c, n, k + 1, want, snap, event); }
  }

  /** The handler of `n` sits at or above `n`, and nothing between them is enabled. */
  lemma {:induction false} HandlerNearest(c: Chart, n: int, snap: Snapshot, event: Event, s: int)
    requires 0 <= n < Size(c) && Handler(c, n, snap, event).Some?
    ensures var t := Handler(c, n, snap, event).value;
            && Desc(c, n, t.source) && EnabledAt(c, t.source, snap, event) == Some(t)
            && (Desc(c, n, s) && Below(c, s, t.source) ==> EnabledAt(c, s, snap, event).None?)
    decreases n
  {
    var own := EnabledAt(c, n, snap, event);
    if own.Some? {
      FirstEnabledAt(c, n, 0, event.name, snap, event);
      FirstEnabledAt(c, n, 0, WILDCARD, snap, event);
      if Desc(c, n, s) && Below(c, s, n) {
        DescBounds(c, n, s);
        DescBounds(c, s, n);
      }
    } else {
      HandlerNearest(c, Parent(c, n), snap, event, s);
      DescTrans(c, n, Parent(c, n), Handler(c, n, snap, event).value.source);
    }
  }

  // ---- candidates ----

  /**
   One candidate per active leaf among `nodes`, each once; a forbidden one blocks its event without being a candidate.
   */
  function Candidates(c: Chart, active: set<int>, nodes: seq<int>, snap: Snapshot, event: Event): seq<TransitionRef> {
    if nodes == [] then []
    else
      var k := |nodes| - 1;
      var before := Candidates(c, active, nodes[..k], snap, event);
      if !AtomicIn(c, active, nodes[k]) then before
      else
        match Handler(c, nodes[k], snap, event)
        case None => before
        case Some(t) => if Def(c, t).forbidden || t in before then before else before + [t]
  }

  /** `u` sits between `t` and the leaf `t` handles. */
  ghost predicate Shadows(c: Chart, l: int, t: TransitionRef, u: TransitionRef) {
    Desc(c, l, u.source) && Below(c, u.source, t.source)
  }

  /** Candidates with the leaf each was first found from, in document order of these leaves. */
  ghost predicate Handled(c: Chart, active: set<int>, ts: seq<TransitionRef>, leaf: map<TransitionRef, int>) {
    && (forall i :: 0 <= i < |ts| ==> ts[i] in leaf)
    && (forall i, j :: 0 <= i < j < |ts| ==> leaf[ts[i]] < leaf[ts[j]])
    && (forall t :: t in ts ==> leaf[t] in active && AtomicIn(c, active, leaf[t]) && Desc(c, leaf[t], t.source))
    && (forall t, u :: t in ts && u in ts && t != u ==> t.source != u.source)
    && (forall t, u {:trigger Shadows(c, leaf[t], t, u)} :: t in ts && u in ts && t != u ==> !Shadows(c, leaf[t], t, u))
  }

  /** What is known of one candidate. */
  ghost predicate HandledBy(c: Chart, active: set<int>, t: TransitionRef, l: int, snap: Snapshot, event: Event) {
    l in active && AtomicIn(c, active, l) && Handler(c, l, snap, event) == Some(t)
  }

  lemma {:induction false} CandidatesFound(c: Chart, active: set<int>, nodes: seq<int>, snap: Snapshot, event: Event)
    returns (leaf: map<TransitionRef, int>)
    requires Ascending(nodes) && forall n :: n in nodes ==> n in active
    ensures var ts := Candidates(c, active, nodes, snap, event);
            && (forall i :: 0 <= i < |ts| ==> ts[i] in leaf)
            && (forall i, j :: 0 <= i < j < |ts| ==> leaf[ts[i]] < leaf[ts[j]])
            && (forall t :: t in ts ==> leaf[t] in nodes && HandledBy(c, active, t, leaf[t], snap, event))
  {
    leaf := map[];
    if nodes != [] {
      var k := |nodes| - 1;
      leaf := CandidatesFound(c, active, nodes[..k], snap, event);
      var before, ts := Candidates(c, active, nodes[..k], snap, event), Candidates(c, active, nodes, snap, event);
      if ts != before {
        var n := nodes[k];
        var t := Handler(c, n, snap, event).value;
        assert n in nodes && t !in before;
        var leaf0 := leaf;
        leaf := leaf0[t := n];
        forall i | 0 <= i < |before| ensures before[i] in leaf0 && leaf[before[i]] == leaf0[before[i]] < n {
          var b := before[i];
          assert b in before;
          assert leaf0[b] in nodes[..k];
        }
      }
    }
  }

  /** Candidates handle their leaves: none shadows another. */
  lemma {:induction false} CandidatesHandled(c: WFChart, active: set<int>, snap: Snapshot, event: Event)
    returns (leaf: map<TransitionRef, int>)
    requires Closed(c, active)
    ensures Handled(c, active, Candidates(c, active, Ordered(Size(c), active), snap, event), leaf)
  {
    var nodes := Ordered(Size(c), active);
    var ts := Candidates(c, active, nodes, snap, event);
    leaf := CandidatesFound(c, active, nodes, snap, event);
    forall t | t in ts ensures leaf[t] in active && AtomicIn(c, active, leaf[t]) && Desc(c, leaf[t], t.source) {
      HandlerNearest(c, leaf[t], snap, event, t.source);
    }
    forall t, u | t in ts && u in ts && t != u
      ensures t.source != u.source && !Shadows(c, leaf[t], t, u)
    {
      HandlerNearest(c, leaf[t], snap, event, u.source);
      HandlerNearest(c, leaf[u], snap, event, t.source);
    }
  }

  // ---- exactly the candidates ----

  lemma {:induction false} ChosenUnique(c: Chart, n: int, snap: Snapshot, event: Event, r: Option<TransitionRef>,
                                        r': Option<TransitionRef>)
    requires Chosen(c, n, snap, event, r) && Chosen(c, n, snap, event, r')
    ensures r == r'
  {
    forall want, t, u | FirstOpen(c, n, want, snap, event, t) && FirstOpen(c, n, want, snap, event, u) ensures t == u {
      assert !(t.index < u.index) && !(u.index < t.index);
    }
  }

  /** `t` is chosen for its source, which is `n` or above it, and nothing is chosen for what lies between. */
  ghost predicate NearestChosen(c: Chart, n: int, snap: Snapshot, event: Event, t: TransitionRef) {
    && Desc(c, n, t.source) && Chosen(c, t.source, snap, event, Some(t))
    && forall s {:trigger Chosen(c, s, snap, event, None)} ::
         Desc(c, n, s) && Below(c, s, t.source) ==> Chosen(c, s, snap, event, None)
  }

  /** The handler is the nearest transition chosen at or above a node, if there is one. */
  lemma {:induction false} HandlerExact(c: Chart, n: int, snap: Snapshot, event: Event, t: TransitionRef)
    requires 0 <= n < Size(c)
    ensures Handler(c, n, snap, event) == Some(t) <==> NearestChosen(c, n, snap, event, t)
    decreases n
  {
    EnabledIsChosen(c, n, snap, event);
    var own, p := EnabledAt(c, n, snap, event), Parent(c, n);
    if own.Some? {
      HandlerOwn(c, n, snap, event, own.value, t);
    } else if 0 <= p {
      HandlerExact(c, p, snap, event, t);
      HandlerAbove(c, n, snap, event, t);
    } else if NearestChosen(c, n, snap, event, t) {
      ChosenUnique(c, n, snap, event, None, Some(t));
    }
  }

  lemma {:induction false} HandlerOwn(c: Chart, n: int, snap: Snapshot, event: Event, own: TransitionRef,
                                      t: TransitionRef)
    requires 0 <= n < Size(c) && Chosen(c, n, snap, event, Some(own))
    ensures NearestChosen(c, n, snap, event, t) <==> t == own
  {
    if NearestChosen(c, n, snap, event, t) {
      if t.source == n {
        ChosenUnique(c, n, snap, event, Some(own), Some(t));
      } else {
        assert Desc(c, n, n) && Below(c, n, t.source);
        ChosenUnique(c, n, snap, event, Some(own), None);
      }
    }
    forall s | Desc(c, n, s) && Below(c, s, n) ensures false {
      DescBounds(c, n, s);
      DescBounds(c, s, n);
    }
  }

  lemma {:induction false} HandlerAbove(c: Chart, n: int, snap: Snapshot, event: Event, t: TransitionRef)
    requires 0 <= Parent(c, n) && 0 <= n < Size(c) && Chosen(c, n, snap, event, None)
    ensures NearestChosen(c, n, snap, event, t) <==> NearestChosen(c, Parent(c, n), snap, event, t)
  {
    var p := Parent(c, n);
    if t.source == n {
      if NearestChosen(c, n, snap, event, t) { ChosenUnique(c, n, snap, event, None, Some(t)); }
      if Desc(c, p, n) { DescBounds(c, p, n); }
    } else {
      assert Desc(c, n, t.source) <==> Desc(c, p, t.source);
      assert forall s :: Desc(c, n, s) <==> s == n || Desc(c, p, s);
    }
  }

  /** `t` is what an active leaf among `nodes` finds, and not forbidden. */
  ghost predicate FoundFrom(c: Chart, active: set<int>, nodes: seq<int>, snap: Snapshot, event: Event,
                            t: TransitionRef) {
    !Def(c, t).forbidden && exists l ::
      l in nodes && AtomicIn(c, active, l) && NearestChosen(c, l, snap, event, t)
  }

  /** The candidates are exactly the transitions that active leaves find and that are not forbidden, each once. */
  lemma {:induction false} CandidatesExact(c: Chart, active: set<int>, nodes: seq<int>, snap: Snapshot, event: Event,
                                           t: TransitionRef)
    requires forall n :: n in nodes ==> 0 <= n < Size(c)
    ensures NoDup(Candidates(c, active, nodes, snap, event))
    ensures t in Candidates(c, active, nodes, snap, event) <==> FoundFrom(c, active, nodes, snap, event, t)
    decreases |nodes|
  {
    if nodes != [] {
      var k := |nodes| - 1;
      var n, before := nodes[k], nodes[..k];
      assert nodes == before + [n] && n in nodes && forall m :: m in before ==> m in nodes;
      CandidatesExact(c, active, before, snap, event, t);
      HandlerExact(c, n, snap, event, t);
      FoundNext(c, active, before, n, snap, event, t);
      NoDupNext(Candidates(c, active, before, snap, event), Handler(c, n, snap, event));
    }
  }

  lemma {:induction false} FoundNext(c: Chart, active: set<int>, nodes: seq<int>, n: int, snap: Snapshot, event: Event,
                                     t: TransitionRef)
    ensures FoundFrom(c, active, nodes + [n], snap, event, t) <==>
            FoundFrom(c, active, nodes, snap, event, t)
            || (!Def(c, t).forbidden && AtomicIn(c, active, n) && NearestChosen(c, n, snap, event, t))
  {
    assert forall l :: l in nodes + [n] <==> l in nodes || l == n;
  }

  lemma NoDupNext(ts: seq<TransitionRef>, h: Option<TransitionRef>)
    requires NoDup(ts)
    ensures h.Some? && h.value !in ts ==> NoDup(ts + [h.value])
  {}

  // ---- conflicts ----

  /** Two transitions conflict when they exit a common node. */
  predicate Meets(c: Chart, active: set<int>, t: TransitionRef, u: TransitionRef) {
    ExitSet(c, active, t) * ExitSet(c, active, u) != {}
  }

  /** Going through the kept transitions with a new candidate: which stay, and whether the candidate is dropped. */
  function Scan(c: Chart, active: set<int>, kept: seq<TransitionRef>, cand: TransitionRef): (seq<TransitionRef>, bool) {
    if kept == [] then ([], false)
    else if !Meets(c, active, cand, kept[0]) then
      var (rest, dropped) := Scan(c, active, kept[1..], cand);
      ([kept[0]] + rest, dropped)
    else if Desc(c, cand.source, kept[0].source) && cand.source != kept[0].source then Scan(c, active, kept[1..], cand)
    else (kept, true)
  }

  function Consider(c: Chart, active: set<int>, kept: seq<TransitionRef>, cand: TransitionRef): seq<TransitionRef> {
    var (rest, dropped) := Scan(c, active, kept, cand);
    if dropped then rest else rest + [cand]
  }

  function Resolve(c: Chart, active: set<int>, cands: seq<TransitionRef>): seq<TransitionRef> {
    if cands == [] then []
    else Consider(c, active, Resolve(c, active, cands[..|cands| - 1]), cands[|cands| - 1])
  }

  /** The transitions a snapshot takes on an event. */
  function Selected(c: Chart, snap: Snapshot, event: Event): seq<TransitionRef> {
    var active := Elems(snap.configuration);
    Resolve(c, active, Candidates(c, active, snap.configuration, snap, event))
  }

  lemma CandidatesNext(c: Chart, active: set<int>, nodes: seq<int>, n: int, snap: Snapshot, event: Event)
    ensures var before := Candidates(c, active, nodes, snap, event);
            Candidates(c, active, nodes + [n], snap, event) ==
            if !AtomicIn(c, active, n) then before
            else
              match Handler(c, n, snap, event)
              case None => before
              case Some(t) => if Def(c, t).forbidden || t in before then before else before + [t]
  {
    assert (nodes + [n])[..|nodes|] == nodes;
  }

  method CollectCandidates(c: Chart, active: set<int>, snap: Snapshot, event: Event)
    returns (selected: seq<TransitionRef>)
    requires forall n :: n in snap.configuration ==> 0 <= n < Size(c)
    ensures selected == Candidates(c, active, snap.configuration, snap, event)
  {
    selected := [];
    var nodes := snap.configuration;
    for i := 0 to |nodes|
      invariant selected == Candidates(c, active, nodes[..i], snap, event)
    {
      var n := nodes[i];
      assert n in nodes;
      TakeNext(nodes, i);
      CandidatesNext(c, active, nodes[..i], n, snap, event);
      if !AtomicIn(c, active, n) { continue; }
      var s := n;
      while s != NULL
        invariant -1 <= s < Size(c)
        invariant s == NULL ==> Handler(c, n, snap, event).None?
        invariant s != NULL ==> Handler(c, n, snap, event) == Handler(c, s, snap, event)
      {
        var def := SelectForNode(c, s, snap, event);
        if def.Some? {
          if !Def(c, def.value).forbidden && def.value !in selected { selected := selected + [def.value]; }
          break;
        }
        s := Parent(c, s);
      }
    }
    assert nodes[..|nodes|] == nodes;
  }

  /** Scanning `kept` comes down to `before`, already looked at, and scanning `rest`. */
  ghost predicate ScannedTo(c: Chart, active: set<int>, kept: seq<TransitionRef>, cand: TransitionRef,
                            before: seq<TransitionRef>, rest: seq<TransitionRef>) {
    var (stay, dropped) := Scan(c, active, rest, cand);
    Scan(c, active, kept, cand) == (before + stay, dropped)
  }

  lemma {:induction false} ScannedOn(c: Chart, active: set<int>, kept: seq<TransitionRef>, cand: TransitionRef,
                                     before: seq<TransitionRef>, k: TransitionRef, after: seq<TransitionRef>)
    requires ScannedTo(c, active, kept, cand, before, [k] + after)
    ensures !Meets(c, active, cand, k) ==> ScannedTo(c, active, kept, cand, before + [k], after)
    ensures Meets(c, active, cand, k) && Desc(c, cand.source, k.source) && cand.source != k.source ==>
      ScannedTo(c, active, kept, cand, before, after)
    ensures Meets(c, active, cand, k) && !(Desc(c, cand.source, k.source) && cand.source != k.source) ==>
      Scan(c, active, kept, cand) == (before + [k] + after, true)
  {
    var rest := [k] + after;
    assert rest[0] == k && rest[1..] == after;
    var (stay, dropped) := Scan(c, active, after, cand);
    assert before + ([k] + stay) == (before + [k]) + stay;
    assert before + rest == before + [k] + after;
  }

  lemma SplitAt<T>(s: seq<T>, i: nat)
    requires i < |s|
    ensures s == s[..i] + [s[i]] + s[i + 1..] && s[i..] == [s[i]] + s[i + 1..] && s[..i + 1] == s[..i] + [s[i]]
    ensures var t := s[..i] + s[i + 1..]; t[..i] == s[..i] && t[i..] == s[i + 1..]
  {}

  predicate InRange(c: Chart, t: TransitionRef) {
    0 <= t.source < Size(c) && forall x :: x in Targets(c, t) ==> 0 <= x < Size(c)
  }

  method ResolveOne(c: Chart, active: set<int>, kept: seq<TransitionRef>, cand: TransitionRef)
    returns (result: seq<TransitionRef>)
    requires forall n :: n in active ==> 0 <= n < Size(c)
    requires InRange(c, cand) && forall t :: t in kept ==> InRange(c, t)
    ensures result == Consider(c, active, kept, cand)
  {
    result := kept;
    var candExit := ComputeExitSet(c, active, cand);
    var i := 0;
    assert result[..0] == [] && result[0..] == result;
    assert [] + Scan(c, active, kept, cand).0 == Scan(c, active, kept, cand).0;
    while i < |result|
      invariant 0 <= i <= |result|
      invariant forall t :: t in result ==> t in kept
      invariant ScannedTo(c, active, kept, cand, result[..i], result[i..])
      decreases |result| - i
    {
      var k := result[i];
      assert k in result;
      SplitAt(result, i);
      ScannedOn(c, active, kept, cand, result[..i], k, result[i + 1..]);
      var keptExit := ComputeExitSet(c, active, k);
      if candExit * keptExit == {} {
        i := i + 1;
      } else {
        var below := IsDescendantOf(c, cand.source, k.source);
        if !below || cand.source == k.source { return; }
        result := result[..i] + result[i + 1..];
      }
    }
    assert result[..i] == result && result[i..] == [] && result + Scan(c, active, [], cand).0 == result;
    result := result + [cand];
  }

  lemma ResolveNext(c: Chart, active: set<int>, cands: seq<TransitionRef>, cand: TransitionRef)
    ensures Resolve(c, active, cands + [cand]) == Consider(c, active, Resolve(c, active, cands), cand)
  {
    assert (cands + [cand])[..|cands|] == cands;
  }

  lemma {:induction false} CandidatesInRange(c: WFChart, active: set<int>, snap: Snapshot, event: Event)
    requires TargetsExist(c) && Closed(c, active)
    ensures forall t :: t in Candidates(c, active, Ordered(Size(c), active), snap, event) ==> InRange(c, t)
  {
    var ts := Candidates(c, active, Ordered(Size(c), active), snap, event);
    var leaf := CandidatesHandled(c, active, snap, event);
    forall t | t in ts ensures InRange(c, t) { SourcesInRange(c, active, ts, leaf, t); }
  }

  method SelectTransitions(c: WFChart, snap: Snapshot, event: Event) returns (result: seq<TransitionRef>)
    requires TargetsExist(c) && Closed(c, Elems(snap.configuration)) && InOrder(c, snap)
    ensures result == Selected(c, snap, event)
  {
    var active := Elems(snap.configuration);
    var selected := CollectCandidates(c, active, snap, event);
    CandidatesInRange(c, active, snap, event);
    result := [];
    for i := 0 to |selected|
      invariant result == Resolve(c, active, selected[..i])
      invariant forall t :: t in result ==> t in selected
    {
      TakeNext(selected, i);
      ResolveNext(c, active, selected[..i], selected[i]);
      ConsiderMembers(c, active, result, selected[i]);
      result := ResolveOne(c, active, result, selected[i]);
    }
    assert selected[..|selected|] == selected;
  }

  lemma {:induction false} SourcesInRange(c: WFChart, active: set<int>, ts: seq<TransitionRef>,
                                          leaf: map<TransitionRef, int>, t: TransitionRef)
    requires TargetsExist(c) && Closed(c, active) && Handled(c, active, ts, leaf) && t in ts
    ensures InRange(c, t) && t.source in active
  {
    DescBounds(c, leaf[t], t.source);
    ClosedUp(c, active, leaf[t], t.source);
  }

  lemma {:induction false} ConsiderMembers(c: Chart, active: set<int>, kept: seq<TransitionRef>, cand: TransitionRef)
    ensures forall t :: t in Consider(c, active, kept, cand) ==> t in kept || t == cand
  {
    ScanMembers(c, active, kept, cand);
  }

  lemma {:induction false} ScanMembers(c: Chart, active: set<int>, kept: seq<TransitionRef>, cand: TransitionRef)
    ensures forall t :: t in Scan(c, active, kept, cand).0 ==> t in kept
  {
    if kept != [] { ScanMembers(c, active, kept[1..], cand); }
  }
}
