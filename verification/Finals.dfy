/** Done detection: which states are in final, and which done events a step raises. */
module Finals {
  import opened Basics
  import opened StateNodes
  import opened Configurations
  import opened Targeting

  datatype Status = Active | Done | Error | Stopped

  // ---- being in final ----

  /** The first active child of `n` from the `k`-th on. */
  function FirstActive(c: Chart, n: int, k: nat, active: set<int>): (r: int)
    requires k <= |Children(c, n)|
    ensures r == NULL || (r in Children(c, n) && r in active)
    ensures r == NULL ==> forall j :: k <= j < |Children(c, n)| ==> Children(c, n)[j] !in active
    decreases |Children(c, n)| - k
  {
    if k == |Children(c, n)| then NULL
    else if Children(c, n)[k] in active then (assert Children(c, n)[k] in Children(c, n); Children(c, n)[k])
    else FirstActive(c, n, k + 1, active)
  }

  predicate IsInFinal(c: Chart, n: int, active: set<int>)
    decreases Size(c) - n
  {
    if Kind(c, n) == Final then n in active
    else if Kind(c, n) == Parallel then
      && (exists r :: r in Children(c, n) && Kind(c, r) != History)
      && (forall r :: r in Children(c, n) && Kind(c, r) != History ==> IsInFinal(c, r, active))
    else
      var r := FirstActive(c, n, 0, active);
      r != NULL && IsInFinal(c, r, active)
  }

  /** `l` is an active leaf at or below `n`. */
  ghost predicate LeafUnder(c: Chart, active: set<int>, n: int, l: int) {
    l in active && Desc(c, l, n) && AtomicIn(c, active, l)
  }

  lemma {:induction false} LeafBelowChild(c: WFChart, active: set<int>, n: int, l: int) returns (b: int)
    requires Legal(c, active) && n in active && LeafUnder(c, active, n, l) && l != n
    ensures b in Children(c, n) && b in active && LeafUnder(c, active, b, l)
  {
    b := Toward(c, l, n);
    ClosedUp(c, active, l, b);
    assert b in Children(c, n);
  }

  lemma {:induction false} LeafUnderChild(c: Chart, active: set<int>, n: int, b: int, l: int)
    requires b in Children(c, n) && LeafUnder(c, active, b, l)
    ensures LeafUnder(c, active, n, l)
  {
    assert Desc(c, Parent(c, b), n);
    DescTrans(c, l, b, n);
  }

  /** Being in final, for an active node: every active leaf at or below it is final. */
  lemma {:induction false} InFinalExact(c: WFChart, active: set<int>, n: int)
    requires Legal(c, active) && n in active
    ensures IsInFinal(c, n, active) <==> forall l :: LeafUnder(c, active, n, l) ==> Kind(c, l) == Final
    decreases Size(c) - n
  {
    assert Settled(c, active, n);
    if Children(c, n) == [] {
      forall l | LeafUnder(c, active, n, l) ensures l == n {
        if l != n { var b := LeafBelowChild(c, active, n, l); }
      }
      assert LeafUnder(c, active, n, n);
    } else if Kind(c, n) == Parallel {
      InFinalParallel(c, active, n);
    } else {
      InFinalCompound(c, active, n);
    }
  }

  lemma {:induction false} InFinalParallel(c: WFChart, active: set<int>, n: int)
    requires Legal(c, active) && n in active && Kind(c, n) == Parallel
    ensures IsInFinal(c, n, active) <==> forall l :: LeafUnder(c, active, n, l) ==> Kind(c, l) == Final
    decreases Size(c) - n, 0
  {
    assert Settled(c, active, n);
    forall r | r in Children(c, n) && Kind(c, r) != History
      ensures IsInFinal(c, r, active) <==> forall l :: LeafUnder(c, active, r, l) ==> Kind(c, l) == Final
    {
      InFinalExact(c, active, r);
    }
    if IsInFinal(c, n, active) {
      forall l | LeafUnder(c, active, n, l) ensures Kind(c, l) == Final {
        assert l != n;
        var b := LeafBelowChild(c, active, n, l);
      }
    } else {
      var r :| r in Children(c, n) && Kind(c, r) != History && !IsInFinal(c, r, active);
      var l :| LeafUnder(c, active, r, l) && Kind(c, l) != Final;
      LeafUnderChild(c, active, n, r, l);
    }
  }

  lemma {:induction false} InFinalCompound(c: WFChart, active: set<int>, n: int)
    requires Legal(c, active) && n in active && Kind(c, n) == Compound && Children(c, n) != []
    ensures IsInFinal(c, n, active) <==> forall l :: LeafUnder(c, active, n, l) ==> Kind(c, l) == Final
    decreases Size(c) - n, 0
  {
    assert Settled(c, active, n);
    var b := FirstActive(c, n, 0, active);
    assert b != NULL;
    InFinalExact(c, active, b);
    if IsInFinal(c, n, active) {
      forall l | LeafUnder(c, active, n, l) ensures Kind(c, l) == Final {
        assert l != n;
        var b' := LeafBelowChild(c, active, n, l);
        assert b != b' ==> Siblings(c, b, b');
      }
    } else {
      var l :| LeafUnder(c, active, b, l) && Kind(c, l) != Final;
      LeafUnderChild(c, active, n, b, l);
    }
  }

  // ---- done events ----

  const DONE_STATE := "xstate.done.state."

  function DoneName(c: Chart, n: int): string { DONE_STATE + Id(c, n) }

  predicate HasName(raised: seq<Event>, name: string) {
    exists i :: 0 <= i < |raised| && raised[i].name == name
  }

  function RaiseOnce(raised: seq<Event>, name: string, data: Option<Payload>): seq<Event> {
    if HasName(raised, name) then raised else raised + [Event(name, data)]
  }

  /** The parallel ancestors of `a`, inner first, that are in final. */
  function RaiseAncestors(c: Chart, a: int, active: set<int>, raised: seq<Event>): seq<Event>
    decreases a
  {
    var p := Parent(c, a);
    if !(0 <= p < a) then raised
    else
      var raised' :=
        if Kind(c, p) == Parallel && p != 0 && IsInFinal(c, p, active) then RaiseOnce(raised, DoneName(c, p), None)
        else raised;
      RaiseAncestors(c, p, active, raised')
  }

  datatype Completion = Completion(status: Status, output: Option<Payload>, raised: seq<Event>)

  function Output(c: Chart, f: int, ctx: Context, event: Event): Option<Payload> {
    match At(c, f).output
    case None => None
    case Some(fn) => fn(ctx, event)
  }

  function FinalEntered(c: Chart, f: int, active: set<int>, ctx: Context, event: Event, s: Completion): Completion {
    var p := Parent(c, f);
    if Kind(c, f) != Final || p == NULL then s
    else if p == 0 && Kind(c, p) != Parallel then s.(status := Done, output := Output(c, f, ctx, event))
    else
      var raised := if Kind(c, p) != Parallel then RaiseOnce(s.raised, DoneName(c, p), Output(c, f, ctx, event))
                    else s.raised;
      s.(raised := RaiseAncestors(c, p, active, raised))
  }

  function FinalsEntered(c: Chart, entered: seq<int>, active: set<int>, ctx: Context, event: Event,
                         s: Completion): Completion {
    if entered == [] then s
    else
      var n := |entered| - 1;
      FinalEntered(c, entered[n], active, ctx, event, FinalsEntered(c, entered[..n], active, ctx, event, s))
  }

  const ONGOING := Completion(Active, None, [])

  /** What entering `entered` completes. */
  function Completed(c: Chart, entered: seq<int>, active: set<int>, ctx: Context, event: Event): Completion {
    var s := FinalsEntered(c, entered, active, ctx, event, ONGOING);
    if s.status == Active && Kind(c, 0) == Parallel && entered != [] && IsInFinal(c, 0, active) then s.(status := Done)
    else s
  }

  method ProcessFinals(c: Chart, entered: seq<int>, active: set<int>, ctx: Context, event: Event, queue: seq<Event>)
    returns (status: Status, output: Option<Payload>, queue': seq<Event>)
    requires forall n :: n in entered ==> 0 <= n < Size(c)
    ensures var s := Completed(c, entered, active, ctx, event);
            status == s.status && output == s.output && queue' == queue + s.raised
  {
    status, output := Active, None;
    var raised: seq<Event> := [];
    for i := 0 to |entered|
      invariant Completion(status, output, raised) == FinalsEntered(c, entered[..i], active, ctx, event, ONGOING)
    {
      var f := entered[i];
      assert f in entered;
      assert entered[..i + 1][..i] == entered[..i];
      var p := Parent(c, f);
      if Kind(c, f) != Final { continue; }
      if p == NULL { continue; }
      if p == 0 && Kind(c, p) != Parallel {
        status, output := Done, Output(c, f, ctx, event);
        continue;
      }
      if Kind(c, p) != Parallel { raised := RaiseOnce(raised, DoneName(c, p), Output(c, f, ctx, event)); }
      var a := p;
      ghost var raised0 := raised;
      while Parent(c, a) != NULL
        invariant 0 <= a < Size(c)
        invariant RaiseAncestors(c, p, active, raised0) == RaiseAncestors(c, a, active, raised)
      {
        var pp := Parent(c, a);
        if Kind(c, pp) == Parallel && pp != 0 && IsInFinal(c, pp, active) {
          raised := RaiseOnce(raised, DoneName(c, pp), None);
        }
        a := pp;
      }
    }
    assert entered[..|entered|] == entered;
    if status == Active && Kind(c, 0) == Parallel && entered != [] && IsInFinal(c, 0, active) { status := Done; }
    queue' := queue + raised;
  }

  // ---- exactly once, exactly when ----

  ghost predicate NamesDistinct(raised: seq<Event>) {
    forall i, j :: 0 <= i < j < |raised| ==> raised[i].name != raised[j].name
  }

  lemma {:induction false} DoneNameInjective(c: Chart, m: int, n: int)
    requires 0 <= m < Size(c) && 0 <= n < Size(c) && DoneName(c, m) == DoneName(c, n)
    ensures m == n
  {
    assert DoneName(c, m)[|DONE_STATE|..] == Id(c, m);
    assert DoneName(c, n)[|DONE_STATE|..] == Id(c, n);
  }

  lemma {:induction false} RaiseOnceNames(raised: seq<Event>, name: string, data: Option<Payload>, other: string)
    ensures HasName(RaiseOnce(raised, name, data), other) <==> HasName(raised, other) || other == name
    ensures NamesDistinct(raised) ==> NamesDistinct(RaiseOnce(raised, name, data))
  {
    var r := RaiseOnce(raised, name, data);
    if !HasName(raised, name) {
      assert r[|raised|].name == name;
      if HasName(raised, other) {
        var i :| 0 <= i < |raised| && raised[i].name == other;
        assert r[i].name == other;
      }
    }
  }

  /** A parallel node other than the root that is in final. */
  ghost predicate FinishedParallel(c: Chart, active: set<int>, p: int) {
    0 < p < Size(c) && Kind(c, p) == Parallel && IsInFinal(c, p, active)
  }

  lemma {:induction false} RaiseAncestorsNames(c: Chart, a: int, active: set<int>, raised: seq<Event>, p: int)
    requires 0 <= a < Size(c) && 0 <= p < Size(c)
    ensures HasName(RaiseAncestors(c, a, active, raised), DoneName(c, p)) <==>
            HasName(raised, DoneName(c, p)) || (FinishedParallel(c, active, p) && Below(c, a, p))
    ensures NamesDistinct(raised) ==> NamesDistinct(RaiseAncestors(c, a, active, raised))
    decreases a
  {
    var q := Parent(c, a);
    if a != 0 {
      var raised' := if FinishedParallel(c, active, q) then RaiseOnce(raised, DoneName(c, q), None) else raised;
      RaiseOnceNames(raised, DoneName(c, q), None, DoneName(c, p));
      RaiseAncestorsNames(c, q, active, raised', p);
      if DoneName(c, p) == DoneName(c, q) { DoneNameInjective(c, p, q); }
      if Desc(c, q, p) { DescBounds(c, q, p); }
    }
  }

  /**
   `f` was entered and finishes `p`: as a final child of a compound node, or as a final node well inside a finished
   parallel one.
   */
  ghost predicate Finishes(c: Chart, active: set<int>, f: int, p: int) {
    && Kind(c, f) == Final && Parent(c, f) != NULL
    && !(Parent(c, f) == 0 && Kind(c, 0) != Parallel)
    && ((Kind(c, p) != Parallel && Parent(c, f) == p) || (FinishedParallel(c, active, p) && Below(c, Parent(c, f), p)))
  }

  lemma {:induction false} FinalEnteredNames(c: Chart, f: int, active: set<int>, ctx: Context, event: Event,
                                             s: Completion, p: int)
    requires 0 <= p < Size(c) && 0 <= f < Size(c) && NamesDistinct(s.raised)
    ensures var raised := FinalEntered(c, f, active, ctx, event, s).raised;
            && NamesDistinct(raised)
            && (HasName(raised, DoneName(c, p)) <==> HasName(s.raised, DoneName(c, p)) || Finishes(c, active, f, p))
  {
    var q := Parent(c, f);
    if Kind(c, f) == Final && q != NULL && !(q == 0 && Kind(c, 0) != Parallel) {
      var output := Output(c, f, ctx, event);
      var raised := if Kind(c, q) != Parallel then RaiseOnce(s.raised, DoneName(c, q), output) else s.raised;
      RaiseOnceNames(s.raised, DoneName(c, q), output, DoneName(c, p));
      RaiseAncestorsNames(c, q, active, raised, p);
      if DoneName(c, p) == DoneName(c, q) { DoneNameInjective(c, p, q); }
    }
  }

  lemma {:induction false} FinalsEnteredNames(c: Chart, entered: seq<int>, active: set<int>, ctx: Context, event: Event,
                                              p: int)
    requires 0 <= p < Size(c) && forall n :: n in entered ==> 0 <= n < Size(c)
    ensures var raised := FinalsEntered(c, entered, active, ctx, event, ONGOING).raised;
            && NamesDistinct(raised)
            && (HasName(raised, DoneName(c, p)) <==> exists f :: f in entered && Finishes(c, active, f, p))
    decreases |entered|
  {
    if entered != [] {
      var n := |entered| - 1;
      var f, rest := entered[n], entered[..n];
      assert entered == rest + [f];
      assert forall m :: m in entered <==> m in rest || m == f;
      assert f in entered;
      FinalsEnteredNames(c, rest, active, ctx, event, p);
      FinalEnteredNames(c, f, active, ctx, event, FinalsEntered(c, rest, active, ctx, event, ONGOING), p);
    }
  }

  /** Each done event is raised at most once, and exactly when a final state that finishes its node was entered. */
  lemma {:induction false} DoneEventsExact(c: Chart, entered: seq<int>, active: set<int>, ctx: Context, event: Event,
                                           p: int)
    requires 0 < p < Size(c) && forall n :: n in entered ==> 0 <= n < Size(c)
    ensures var raised := Completed(c, entered, active, ctx, event).raised;
            && NamesDistinct(raised)
            && (Kind(c, p) == Parallel ==>
                  (HasName(raised, DoneName(c, p)) <==>
                   IsInFinal(c, p, active) && exists f ::
                       f in entered && Kind(c, f) == Final && Below(c, Parent(c, f), p)))
            && (Kind(c, p) != Parallel ==>
                  (HasName(raised, DoneName(c, p)) <==> exists f ::
                         f in entered && Kind(c, f) == Final && Parent(c, f) == p))
  {
    FinalsEnteredNames(c, entered, active, ctx, event, p);
    forall f | f in entered && Kind(c, f) == Final && (Below(c, Parent(c, f), p) || Parent(c, f) == p)
      ensures Parent(c, f) != 0 && Parent(c, f) != NULL
    {
      if Below(c, Parent(c, f), p) { DescBounds(c, Parent(c, f), p); }
    }
    if Kind(c, p) == Parallel && IsInFinal(c, p, active) && exists f ::
        f in entered && Kind(c, f) == Final && Below(c, Parent(c, f), p) {
      var f :| f in entered && Kind(c, f) == Final && Below(c, Parent(c, f), p);
      assert Finishes(c, active, f, p);
    }
    if Kind(c, p) != Parallel && exists f :: f in entered && Kind(c, f) == Final && Parent(c, f) == p {
      var f :| f in entered && Kind(c, f) == Final && Parent(c, f) == p;
      assert Finishes(c, active, f, p);
    }
  }

  /**
   The machine is done exactly when a final child of a compound root was entered, or a parallel root came to be in
   final.
   */
  lemma {:induction false} DoneStatusExact(c: Chart, entered: seq<int>, active: set<int>, ctx: Context, event: Event)
    requires forall n :: n in entered ==> 0 <= n < Size(c)
    ensures Completed(c, entered, active, ctx, event).status in {Active, Done}
    ensures Completed(c, entered, active, ctx, event).status == Done <==>
            if Kind(c, 0) == Parallel then entered != [] && IsInFinal(c, 0, active)
            else exists f :: f in entered && Kind(c, f) == Final && Parent(c, f) == 0
  {
    FinalsEnteredStatus(c, entered, active, ctx, event);
  }

  lemma {:induction false} FinalsEnteredStatus(c: Chart, entered: seq<int>, active: set<int>, ctx: Context,
                                               event: Event)
    requires forall n :: n in entered ==> 0 <= n < Size(c)
    ensures FinalsEntered(c, entered, active, ctx, event, ONGOING).status in {Active, Done}
    ensures FinalsEntered(c, entered, active, ctx, event, ONGOING).status == Done <==>
            Kind(c, 0) != Parallel && exists f :: f in entered && Kind(c, f) == Final && Parent(c, f) == 0
    decreases |entered|
  {
    if entered != [] {
      var n := |entered| - 1;
      var f, rest := entered[n], entered[..n];
      assert entered == rest + [f];
      assert forall m :: m in entered <==> m in rest || m == f;
      FinalsEnteredStatus(c, rest, active, ctx, event);
    }
  }

  // ---- what done events carry, and in which order they come ----

  /** `data` is what the final state `f` puts out: nothing, or what its output function gives. */
  ghost predicate PutsOut(c: Chart, f: int, ctx: Context, event: Event, data: Option<Payload>) {
    && (At(c, f).output.None? ==> data == None)
    && (At(c, f).output.Some? ==> data == At(c, f).output.value(ctx, event))
  }

  predicate FinalChild(c: Chart, f: int, p: int) { Kind(c, f) == Final && Parent(c, f) == p }

  /** The `i`-th node entered is the first final child of `p` among them. */
  ghost predicate FirstFinal(c: Chart, entered: seq<int>, p: int, i: int) {
    0 <= i < |entered| && FinalChild(c, entered[i], p) && forall j :: 0 <= j < i ==> !FinalChild(c, entered[j], p)
  }

  /** The done event of a parallel node carries nothing, that of any other what its first final child puts out. */
  ghost predicate Carries(c: Chart, entered: seq<int>, ctx: Context, event: Event, p: int, done: Event) {
    && 0 < p < Size(c) && done.name == "xstate.done.state." + Id(c, p)
    && (Kind(c, p) == Parallel ==> done.data == None)
    && (Kind(c, p) != Parallel ==> exists i :: FirstFinal(c, entered, p, i)
                                     && PutsOut(c, entered[i], ctx, event, done.data))
  }

  ghost predicate CarriesSome(c: Chart, entered: seq<int>, ctx: Context, event: Event, done: Event) {
    exists p :: Carries(c, entered, ctx, event, p, done)
  }

  /** All of `raised` are done events that carry what they should. */
  ghost predicate AllCarry(c: Chart, entered: seq<int>, ctx: Context, event: Event, raised: seq<Event>) {
    forall e :: e in raised ==> CarriesSome(c, entered, ctx, event, e)
  }

  /** Nodes above `a`, each above the one before it. */
  ghost predicate Upward(c: Chart, a: int, nodes: seq<int>) {
    && (forall i :: 0 <= i < |nodes| ==> 0 < nodes[i] < Size(c) && Below(c, a, nodes[i]))
    && (forall i, j :: 0 <= i < j < |nodes| ==> Below(c, nodes[i], nodes[j]))
  }

  lemma {:induction false} UpwardNext(c: Chart, a: int, p: int, more: seq<int>)
    requires 0 < a < Size(c) && p == Parent(c, a) && Upward(c, p, more)
    ensures Upward(c, a, more) && (0 < p ==> Upward(c, a, [p] + more))
  {
    assert Desc(c, p, p) && Below(c, a, p);
    forall i | 0 <= i < |more| ensures Below(c, a, more[i]) {
      DescTrans(c, a, p, more[i]);
      DescBounds(c, p, more[i]);
    }
    var all := [p] + more;
    forall i, j | 0 <= i < j < |all| ensures Below(c, all[i], all[j]) {
      assert all[j] == more[j - 1];
      if i > 0 { assert all[i] == more[i - 1]; }
    }
  }

  /** The done events of parallel nodes. */
  function ParallelsDone(c: Chart, nodes: seq<int>): seq<Event> {
    if nodes == [] then []
    else [Event("xstate.done.state." + Id(c, nodes[0]), None)] + ParallelsDone(c, nodes[1..])
  }

  /** The parallel ancestors in final come from the inside out. */
  lemma {:induction false} AncestorsRaised(c: Chart, a: int, active: set<int>, raised: seq<Event>)
    returns (nodes: seq<int>)
    requires 0 <= a < Size(c)
    ensures Upward(c, a, nodes) && forall n :: n in nodes ==> Kind(c, n) == Parallel
    ensures RaiseAncestors(c, a, active, raised) == raised + ParallelsDone(c, nodes)
    decreases a
  {
    nodes := [];
    if a != 0 {
      var p := Parent(c, a);
      var raised' := if FinishedParallel(c, active, p) then RaiseOnce(raised, DoneName(c, p), None) else raised;
      nodes := AncestorsRaised(c, p, active, raised');
      UpwardNext(c, a, p, nodes);
      if raised' != raised {
        ParallelsNext(c, p, nodes, raised);
        nodes := [p] + nodes;
      }
    }
  }

  lemma ParallelsNext(c: Chart, p: int, nodes: seq<int>, raised: seq<Event>)
    ensures raised + [Event(DoneName(c, p), None)] + ParallelsDone(c, nodes)
         == raised + ParallelsDone(c, [p] + nodes)
  {
    assert ([p] + nodes)[1..] == nodes;
    AppendAfter(raised, [Event(DoneName(c, p), None)], ParallelsDone(c, nodes));
  }

  /** What entering the final state `f` raises: its parent's done event, if new, then those of parallel ancestors. */
  lemma {:induction false} FinalRaises(c: Chart, f: int, active: set<int>, ctx: Context, event: Event, s: Completion)
    returns (own: seq<Event>, nodes: seq<int>)
    requires 0 <= f < Size(c)
    ensures FinalEntered(c, f, active, ctx, event, s).raised == s.raised + own + ParallelsDone(c, nodes)
    ensures Upward(c, Parent(c, f), nodes) && forall n :: n in nodes ==> Kind(c, n) == Parallel
    ensures own != [] || nodes != [] ==> 0 <= Parent(c, f)
    ensures own != [] ==>
      var p := Parent(c, f);
      && own == [Event("xstate.done.state." + Id(c, p), own[0].data)] && PutsOut(c, f, ctx, event, own[0].data)
      && 0 < p && FinalChild(c, f, p) && Kind(c, p) != Parallel && !HasName(s.raised, DoneName(c, p))
  {
    own, nodes := [], [];
    var p := Parent(c, f);
    if Kind(c, f) == Final && p != NULL && !(p == 0 && Kind(c, p) != Parallel) {
      var raised := if Kind(c, p) != Parallel then RaiseOnce(s.raised, DoneName(c, p), Output(c, f, ctx, event))
                    else s.raised;
      if raised != s.raised { own := [Event(DoneName(c, p), Output(c, f, ctx, event))]; }
      nodes := AncestorsRaised(c, p, active, raised);
    }
  }

  /** `es` are done events of `nodes`. */
  ghost predicate DonesOf(c: Chart, nodes: seq<int>, es: seq<Event>) {
    |es| == |nodes| && forall i :: 0 <= i < |nodes| ==> es[i].name == "xstate.done.state." + Id(c, nodes[i])
  }

  /**
   The done events that entering one more final state raises come from the
   inside out: the state's parent's first, then those of ever further parallel
   ancestors.
   */
  lemma {:induction false} DoneEventsOutward(c: Chart, entered: seq<int>, f: int, active: set<int>, ctx: Context,
                                             event: Event)
    returns (nodes: seq<int>, es: seq<Event>)
    requires 0 <= f < Size(c)
    ensures Upward(c, f, nodes) && DonesOf(c, nodes, es)
    ensures Completed(c, entered + [f], active, ctx, event).raised ==
            Completed(c, entered, active, ctx, event).raised + es
  {
    var s := FinalsEntered(c, entered, active, ctx, event, ONGOING);
    assert (entered + [f])[..|entered|] == entered;
    var own, above := FinalRaises(c, f, active, ctx, event, s);
    var p := Parent(c, f);
    if 0 <= p { UpwardNext(c, f, p, above); }
    AppendAfter(s.raised, own, ParallelsDone(c, above));
    es := own + ParallelsDone(c, above);
    nodes := if own == [] then above else [p] + above;
    OwnThenAbove(c, p, own, above);
  }

  lemma {:induction false} OwnThenAbove(c: Chart, p: int, own: seq<Event>, above: seq<int>)
    requires own == [] || own == [Event("xstate.done.state." + Id(c, p), own[0].data)]
    ensures DonesOf(c, if own == [] then above else [p] + above, own + ParallelsDone(c, above))
  {
    ParallelsAreDones(c, above);
    var es := ParallelsDone(c, above);
    if own == [] { assert own + es == es; } else { DonesNext(c, p, above, own[0], es); }
  }

  lemma DonesNext(c: Chart, p: int, nodes: seq<int>, e: Event, es: seq<Event>)
    requires DonesOf(c, nodes, es) && e.name == "xstate.done.state." + Id(c, p)
    ensures DonesOf(c, [p] + nodes, [e] + es)
  {}

  lemma {:induction false} ParallelsAreDones(c: Chart, nodes: seq<int>)
    ensures DonesOf(c, nodes, ParallelsDone(c, nodes))
    ensures forall e :: e in ParallelsDone(c, nodes) ==> e.data == None
  {
    if nodes != [] {
      ParallelsAreDones(c, nodes[1..]);
      DonesNext(c, nodes[0], nodes[1..], Event("xstate.done.state." + Id(c, nodes[0]), None),
                ParallelsDone(c, nodes[1..]));
    }
  }

  lemma {:induction false} CarriesStill(c: Chart, entered: seq<int>, f: int, ctx: Context, event: Event, p: int,
                                        e: Event)
    requires Carries(c, entered, ctx, event, p, e)
    ensures Carries(c, entered + [f], ctx, event, p, e)
  {
    if Kind(c, p) != Parallel {
      var i :| FirstFinal(c, entered, p, i) && PutsOut(c, entered[i], ctx, event, e.data);
      assert FirstFinal(c, entered + [f], p, i);
    }
  }

  /** A compound node's done event is raised for its first final child. */
  lemma {:induction false} OwnCarries(c: Chart, entered: seq<int>, f: int, active: set<int>, ctx: Context, event: Event,
                                      e: Event)
    requires 0 <= f < Size(c) && forall n :: n in entered ==> 0 <= n < Size(c)
    requires var p := Parent(c, f);
             && 0 < p && FinalChild(c, f, p) && Kind(c, p) != Parallel
             && e.name == "xstate.done.state." + Id(c, p) && PutsOut(c, f, ctx, event, e.data)
             && !HasName(FinalsEntered(c, entered, active, ctx, event, ONGOING).raised, DoneName(c, p))
    ensures Carries(c, entered + [f], ctx, event, Parent(c, f), e)
  {
    var p, all := Parent(c, f), entered + [f];
    FinalsEnteredNames(c, entered, active, ctx, event, p);
    forall j | 0 <= j < |entered| ensures !FinalChild(c, all[j], p) {
      var g := entered[j];
      assert all[j] == g && g in entered;
      assert FinalChild(c, g, p) ==> Finishes(c, active, g, p);
    }
    assert FirstFinal(c, all, p, |entered|);
  }

  lemma {:induction false} ParallelsCarry(c: Chart, nodes: seq<int>, entered: seq<int>, ctx: Context, event: Event)
    requires forall n :: n in nodes ==> 0 < n < Size(c) && Kind(c, n) == Parallel
    ensures AllCarry(c, entered, ctx, event, ParallelsDone(c, nodes))
  {
    var es := ParallelsDone(c, nodes);
    ParallelsAreDones(c, nodes);
    forall e | e in es ensures CarriesSome(c, entered, ctx, event, e) {
      var k :| 0 <= k < |es| && es[k] == e;
      assert nodes[k] in nodes;
      assert Carries(c, entered, ctx, event, nodes[k], e);
    }
  }

  lemma {:induction false} AllCarryConcat(c: Chart, entered: seq<int>, ctx: Context, event: Event, s: seq<Event>,
                                          t: seq<Event>)
    requires AllCarry(c, entered, ctx, event, s) && AllCarry(c, entered, ctx, event, t)
    ensures AllCarry(c, entered, ctx, event, s + t)
  {}

  lemma {:induction false} FinalsCarry(c: Chart, entered: seq<int>, active: set<int>, ctx: Context, event: Event)
    requires forall n :: n in entered ==> 0 <= n < Size(c)
    ensures AllCarry(c, entered, ctx, event, FinalsEntered(c, entered, active, ctx, event, ONGOING).raised)
    decreases |entered|
  {
    if entered != [] {
      var n := |entered| - 1;
      var f, rest := entered[n], entered[..n];
      assert entered == rest + [f] && f in entered && forall m :: m in rest ==> m in entered;
      var s := FinalsEntered(c, rest, active, ctx, event, ONGOING);
      FinalsCarry(c, rest, active, ctx, event);
      forall e | e in s.raised ensures CarriesSome(c, entered, ctx, event, e) {
        var p :| Carries(c, rest, ctx, event, p, e);
        CarriesStill(c, rest, f, ctx, event, p, e);
      }
      var own, above := FinalRaises(c, f, active, ctx, event, s);
      if own != [] { OwnCarries(c, rest, f, active, ctx, event, own[0]); }
      assert AllCarry(c, entered, ctx, event, own);
      ParallelsCarry(c, above, entered, ctx, event);
      AllCarryConcat(c, entered, ctx, event, s.raised, own);
      AllCarryConcat(c, entered, ctx, event, s.raised + own, ParallelsDone(c, above));
    }
  }

  /**
   What done events and the machine's output carry: a parallel node's done
   event nothing, any other's what its first final child entered puts out; the
   output what the last final child of a compound root entered puts out.
   */
  lemma {:induction false} OutputExact(c: Chart, entered: seq<int>, active: set<int>, ctx: Context, event: Event)
    requires forall n :: n in entered ==> 0 <= n < Size(c)
    ensures AllCarry(c, entered, ctx, event, Completed(c, entered, active, ctx, event).raised)
    ensures var output := Completed(c, entered, active, ctx, event).output;
            if Kind(c, 0) != Parallel && exists f :: f in entered && FinalChild(c, f, 0) then
              exists i :: LastFinal(c, entered, i) && PutsOut(c, entered[i], ctx, event, output)
            else output == None
  {
    FinalsCarry(c, entered, active, ctx, event);
    FinalsOutput(c, entered, active, ctx, event);
  }

  /** The `i`-th node entered is the last final child of the root among them. */
  ghost predicate LastFinal(c: Chart, entered: seq<int>, i: int) {
    && 0 <= i < |entered| && FinalChild(c, entered[i], 0)
    && forall j :: i < j < |entered| ==> !FinalChild(c, entered[j], 0)
  }

  lemma {:induction false} FinalsOutput(c: Chart, entered: seq<int>, active: set<int>, ctx: Context, event: Event)
    ensures var output := FinalsEntered(c, entered, active, ctx, event, ONGOING).output;
            if Kind(c, 0) != Parallel && exists f :: f in entered && FinalChild(c, f, 0) then
              exists i :: LastFinal(c, entered, i) && PutsOut(c, entered[i], ctx, event, output)
            else output == None
    decreases |entered|
  {
    if entered != [] {
      var n := |entered| - 1;
      var f, rest := entered[n], entered[..n];
      assert entered == rest + [f] && forall m :: m in entered <==> m in rest || m == f;
      FinalsOutput(c, rest, active, ctx, event);
      var output := FinalsEntered(c, rest, active, ctx, event, ONGOING).output;
      if FinalChild(c, f, 0) {
        assert LastFinal(c, entered, n);
      } else if Kind(c, 0) != Parallel && exists g :: g in rest && FinalChild(c, g, 0) {
        var i :| LastFinal(c, rest, i) && PutsOut(c, rest[i], ctx, event, output);
        assert LastFinal(c, entered, i);
      }
    }
  }
}
