/**
 Why the conflict filter is sound and loses nothing: survivors are disjoint, and whoever was dropped meets a survivor.
 */
module Conflicts {
  import opened Basics
  import opened StateNodes
  import opened Configurations
  import opened Transitions
  import opened Targeting
  import opened Stepping
  import opened Microsteps
  import opened Selection

  /** Candidates of a configuration closed under parents: what the filter works on. */
  ghost predicate Pool(c: WFChart, active: set<int>, ts: seq<TransitionRef>, leaf: map<TransitionRef, int>) {
    TargetsExist(c) && Closed(c, active) && Handled(c, active, ts, leaf)
  }

  lemma {:induction false} MemberFacts(c: WFChart, active: set<int>, ts: seq<TransitionRef>,
                                       leaf: map<TransitionRef, int>, t: TransitionRef)
    requires Pool(c, active, ts, leaf) && t in ts
    ensures t in leaf && leaf[t] in active && 0 <= leaf[t] < Size(c) && Desc(c, leaf[t], t.source)
    ensures t.source in active && 0 <= t.source <= leaf[t]
    ensures ExitSet(c, active, t) != {} ==> 0 <= Domain(c, t) < Size(c) && Desc(c, t.source, Domain(c, t))
  {
    SourcesInRange(c, active, ts, leaf, t);
    DescBounds(c, leaf[t], t.source);
    if Targets(c, t) != [] { DomainContains(c, t); }
  }

  /** Transitions with comparable domains meet if both exit something. */
  lemma {:induction false} ComparableMeet(c: Chart, active: set<int>, t: TransitionRef, u: TransitionRef)
    requires ExitSet(c, active, t) != {} && ExitSet(c, active, u) != {} && Desc(c, Domain(c, t), Domain(c, u))
    requires forall n :: n in active ==> 0 <= n < Size(c)
    ensures Meets(c, active, t, u) && Meets(c, active, u, t)
  {
    var n :| n in ExitSet(c, active, t);
    DescTrans(c, n, Domain(c, t), Domain(c, u));
    DescBounds(c, n, Domain(c, t));
    DescBounds(c, Domain(c, t), Domain(c, u));
    assert n in ExitSet(c, active, t) * ExitSet(c, active, u);
    assert n in ExitSet(c, active, u) * ExitSet(c, active, t);
  }

  /** If the sources of two transitions lie on one path to the root, they meet if both exit something. */
  lemma {:induction false} SourcesOnPathMeet(c: WFChart, active: set<int>, ts: seq<TransitionRef>,
                                             leaf: map<TransitionRef, int>, t: TransitionRef, u: TransitionRef)
    requires Pool(c, active, ts, leaf) && t in ts && u in ts && Desc(c, t.source, u.source)
    requires ExitSet(c, active, t) != {} && ExitSet(c, active, u) != {}
    ensures Meets(c, active, t, u)
  {
    MemberFacts(c, active, ts, leaf, t);
    MemberFacts(c, active, ts, leaf, u);
    DescTrans(c, t.source, u.source, Domain(c, u));
    AncestorsComparable(c, t.source, Domain(c, t), Domain(c, u));
    if Desc(c, Domain(c, t), Domain(c, u)) { ComparableMeet(c, active, t, u); }
    else { ComparableMeet(c, active, u, t); }
  }

  /** A candidate between two others, in document order, lies below the first source if the last one does. */
  lemma {:induction false} Between(c: WFChart, active: set<int>, ts: seq<TransitionRef>, leaf: map<TransitionRef, int>,
                                   t: TransitionRef, u: TransitionRef, v: TransitionRef)
    requires Pool(c, active, ts, leaf) && t in ts && u in ts && v in ts
    requires leaf[t] < leaf[u] < leaf[v] && Desc(c, v.source, t.source)
    ensures Below(c, u.source, t.source)
  {
    MemberFacts(c, active, ts, leaf, t);
    MemberFacts(c, active, ts, leaf, u);
    MemberFacts(c, active, ts, leaf, v);
    DescTrans(c, leaf[v], v.source, t.source);
    SubtreeInterval(c, t.source, leaf[u], leaf[v]);
    AncestorsComparable(c, leaf[u], u.source, t.source);
    assert u != t && !Shadows(c, leaf[u], u, t);
  }

  /** Kept transitions: some of `ts`, in leaf order, that do not meet each other. */
  ghost predicate Kept(c: Chart, active: set<int>, ts: seq<TransitionRef>, leaf: map<TransitionRef, int>,
                       kept: seq<TransitionRef>) {
    && (forall k :: k in kept ==> k in ts && k in leaf)
    && (forall i, j :: 0 <= i < j < |kept| ==> leaf[kept[i]] < leaf[kept[j]] && !Meets(c, active, kept[i], kept[j]))
  }

  lemma {:induction false} KeptTail(c: Chart, active: set<int>, ts: seq<TransitionRef>, leaf: map<TransitionRef, int>,
                                    kept: seq<TransitionRef>)
    requires Kept(c, active, ts, leaf, kept) && kept != []
    ensures Kept(c, active, ts, leaf, kept[1..])
    ensures forall u :: u in kept[1..] ==> leaf[kept[0]] < leaf[u] && !Meets(c, active, kept[0], u)
  {
    var rest := kept[1..];
    forall u | u in rest ensures leaf[kept[0]] < leaf[u] && !Meets(c, active, kept[0], u) {
      var i :| 0 <= i < |rest| && rest[i] == u;
      assert kept[i + 1] == u;
    }
  }

  /** What scanning `kept` promises: dropped by one that is no proper ancestor, or all met are. */
  ghost predicate Scanned(c: Chart, active: set<int>, ts: seq<TransitionRef>, leaf: map<TransitionRef, int>,
                          kept: seq<TransitionRef>, cand: TransitionRef, stay: seq<TransitionRef>, dropped: bool) {
    if dropped then stay == kept && exists k ::
        k in kept && Meets(c, active, cand, k) && !Below(c, cand.source, k.source)
    else
      && Kept(c, active, ts, leaf, stay)
      && (forall k :: k in stay <==> k in kept && !Meets(c, active, cand, k))
      && (forall k :: k in kept && Meets(c, active, cand, k) ==> Below(c, cand.source, k.source))
  }

  /** Having erased `k`, the candidate is not dropped by a later kept transition. */
  lemma {:induction false} ErasedThenNotDropped(c: WFChart, active: set<int>, ts: seq<TransitionRef>,
                                                leaf: map<TransitionRef, int>, k: TransitionRef, d: TransitionRef,
                                                cand: TransitionRef)
    requires Pool(c, active, ts, leaf) && k in ts && d in ts && cand in ts
    requires leaf[k] < leaf[d] < leaf[cand] && !Meets(c, active, k, d)
    requires Meets(c, active, cand, k) && Below(c, cand.source, k.source)
    ensures !Meets(c, active, cand, d)
  {
    if Meets(c, active, cand, d) {
      Between(c, active, ts, leaf, k, d, cand);
      SourcesOnPathMeet(c, active, ts, leaf, d, k);
      MeetsSymmetric(c, active, d, k);
    }
  }

  lemma MeetsSymmetric(c: Chart, active: set<int>, t: TransitionRef, u: TransitionRef)
    ensures Meets(c, active, t, u) == Meets(c, active, u, t)
  {
    assert ExitSet(c, active, t) * ExitSet(c, active, u) == ExitSet(c, active, u) * ExitSet(c, active, t);
  }

  /**
   Going through kept transitions with a later candidate either drops it and changes nothing, or removes just the
   ancestors it meets.
   */
  lemma {:induction false} ScanFacts(c: WFChart, active: set<int>, ts: seq<TransitionRef>,
                                     leaf: map<TransitionRef, int>, kept: seq<TransitionRef>, cand: TransitionRef)
    requires Pool(c, active, ts, leaf) && Kept(c, active, ts, leaf, kept) && cand in ts
    requires forall k :: k in kept ==> leaf[k] < leaf[cand]
    ensures Scanned(c, active, ts, leaf, kept, cand, Scan(c, active, kept, cand).0, Scan(c, active, kept, cand).1)
  {
    if kept != [] {
      KeptTail(c, active, ts, leaf, kept);
      ScanFacts(c, active, ts, leaf, kept[1..], cand);
      ScanStep(c, active, ts, leaf, kept, kept[0], kept[1..], cand);
    }
  }

  lemma {:induction false} ScanStep(c: WFChart, active: set<int>, ts: seq<TransitionRef>, leaf: map<TransitionRef, int>,
                                    kept: seq<TransitionRef>, k: TransitionRef, rest: seq<TransitionRef>,
                                    cand: TransitionRef)
    requires Pool(c, active, ts, leaf) && Kept(c, active, ts, leaf, rest) && k in ts && k in leaf && cand in ts
    requires kept != [] && kept[0] == k && kept[1..] == rest
    requires forall u :: u in rest ==> leaf[k] < leaf[u] < leaf[cand] && !Meets(c, active, k, u)
    requires Scanned(c, active, ts, leaf, rest, cand, Scan(c, active, rest, cand).0, Scan(c, active, rest, cand).1)
    ensures Scanned(c, active, ts, leaf, kept, cand, Scan(c, active, kept, cand).0, Scan(c, active, kept, cand).1)
  {
    var (stay, dropped) := Scan(c, active, rest, cand);
    assert kept == [k] + rest;
    assert forall u :: u in kept <==> u == k || u in rest;
    if !Meets(c, active, cand, k) {
      if dropped {
        var d :| d in rest && Meets(c, active, cand, d) && !Below(c, cand.source, d.source);
        assert d in kept;
      } else {
        KeptCons(c, active, ts, leaf, k, stay);
      }
    } else if Below(c, cand.source, k.source) {
      if dropped {
        var d :| d in rest && Meets(c, active, cand, d) && !Below(c, cand.source, d.source);
        ErasedThenNotDropped(c, active, ts, leaf, k, d, cand);
      }
    } else {
      assert k in kept;
    }
  }

  lemma {:induction false} KeptCons(c: Chart, active: set<int>, ts: seq<TransitionRef>, leaf: map<TransitionRef, int>,
                                    k: TransitionRef, stay: seq<TransitionRef>)
    requires Kept(c, active, ts, leaf, stay) && k in ts && k in leaf
    requires forall u :: u in stay ==> leaf[k] < leaf[u] && !Meets(c, active, k, u)
    ensures Kept(c, active, ts, leaf, [k] + stay)
    ensures forall u :: u in [k] + stay <==> u == k || u in stay
  {
    var all := [k] + stay;
    forall i, j | 0 <= i < j < |all| ensures leaf[all[i]] < leaf[all[j]] && !Meets(c, active, all[i], all[j]) {
      if i == 0 { assert all[j] in stay; }
    }
  }

  /** `r` accounts for `t`: it replaced it from below, or came first and kept it out. */
  ghost predicate Accounts(c: Chart, active: set<int>, leaf: map<TransitionRef, int>, t: TransitionRef,
                           r: TransitionRef) {
    && Meets(c, active, t, r)
    && (Below(c, r.source, t.source) || (t in leaf && r in leaf && leaf[r] < leaf[t] && !Below(c, t.source, r.source)))
  }

  ghost predicate AccountedFor(c: Chart, active: set<int>, leaf: map<TransitionRef, int>, done: seq<TransitionRef>,
                               kept: seq<TransitionRef>) {
    forall t {:trigger t in done} :: t in done && t !in kept ==> exists r ::
        r in kept && Accounts(c, active, leaf, t, r)
  }

  /** Who was accounted for by an erased transition is accounted for by the one that erased it. */
  lemma {:induction false} StillAccounted(c: WFChart, active: set<int>, ts: seq<TransitionRef>,
                                          leaf: map<TransitionRef, int>, t: TransitionRef, r: TransitionRef,
                                          cand: TransitionRef)
    requires Pool(c, active, ts, leaf) && t in ts && r in ts && cand in ts
    requires Accounts(c, active, leaf, t, r) && leaf[t] < leaf[cand]
    requires Meets(c, active, cand, r) && Below(c, cand.source, r.source)
    ensures Accounts(c, active, leaf, t, cand)
  {
    MemberFacts(c, active, ts, leaf, t);
    MemberFacts(c, active, ts, leaf, r);
    MemberFacts(c, active, ts, leaf, cand);
    if Below(c, r.source, t.source) {
      DescTrans(c, cand.source, r.source, t.source);
      DescBounds(c, cand.source, r.source);
      DescBounds(c, r.source, t.source);
      SourcesOnPathMeet(c, active, ts, leaf, cand, t);
      assert ExitSet(c, active, t) * ExitSet(c, active, cand) == ExitSet(c, active, cand) * ExitSet(c, active, t);
    } else {
      Between(c, active, ts, leaf, r, t, cand);
    }
  }

  /** What a candidate is considered against: the transitions before it, and which of them are kept. */
  ghost predicate Considering(c: WFChart, active: set<int>, ts: seq<TransitionRef>, leaf: map<TransitionRef, int>,
                              done: seq<TransitionRef>, kept: seq<TransitionRef>, cand: TransitionRef) {
    && Pool(c, active, ts, leaf) && cand in ts && (forall t :: t in done ==> t in ts && leaf[t] < leaf[cand])
    && Kept(c, active, ts, leaf, kept) && (forall k :: k in kept ==> k in done)
  }

  /** Who was kept or accounted for still is, once a candidate that is not dropped has been considered. */
  lemma {:induction false} AccountedNext(c: WFChart, active: set<int>, ts: seq<TransitionRef>,
                                         leaf: map<TransitionRef, int>, done: seq<TransitionRef>,
                                         kept: seq<TransitionRef>, cand: TransitionRef, stay: seq<TransitionRef>,
                                         t: TransitionRef)
    requires Considering(c, active, ts, leaf, done, kept, cand) && Scanned(c, active, ts, leaf, kept, cand, stay, false)
    requires AccountedFor(c, active, leaf, done, kept) && t in done && t !in stay
    ensures exists r :: r in stay + [cand] && Accounts(c, active, leaf, t, r)
  {
    var kept' := stay + [cand];
    assert cand in kept';
    if t in kept {
      MeetsSymmetric(c, active, t, cand);
      assert Accounts(c, active, leaf, t, cand);
    } else {
      var r :| r in kept && Accounts(c, active, leaf, t, r);
      if r in stay { assert r in kept'; }
      else { StillAccounted(c, active, ts, leaf, t, r, cand); }
    }
  }

  lemma {:induction false} ConsiderKept(c: WFChart, active: set<int>, ts: seq<TransitionRef>,
                                        leaf: map<TransitionRef, int>, done: seq<TransitionRef>,
                                        kept: seq<TransitionRef>, cand: TransitionRef)
    requires Considering(c, active, ts, leaf, done, kept, cand)
    ensures Scanned(c, active, ts, leaf, kept, cand, Scan(c, active, kept, cand).0, Scan(c, active, kept, cand).1)
    ensures var kept' := Consider(c, active, kept, cand);
            Kept(c, active, ts, leaf, kept') && forall k :: k in kept' ==> k in kept || k == cand
  {
    ScanFacts(c, active, ts, leaf, kept, cand);
    var (stay, dropped) := Scan(c, active, kept, cand);
    if !dropped { KeptSnoc(c, active, ts, leaf, stay, cand); }
  }

  lemma {:induction false} ConsiderAccounted(c: WFChart, active: set<int>, ts: seq<TransitionRef>,
                                             leaf: map<TransitionRef, int>, done: seq<TransitionRef>,
                                             kept: seq<TransitionRef>, cand: TransitionRef, t: TransitionRef)
    requires Considering(c, active, ts, leaf, done, kept, cand) && AccountedFor(c, active, leaf, done, kept)
    requires Scanned(c, active, ts, leaf, kept, cand, Scan(c, active, kept, cand).0, Scan(c, active, kept, cand).1)
    requires (t in done || t == cand) && t !in Consider(c, active, kept, cand)
    ensures exists r :: r in Consider(c, active, kept, cand) && Accounts(c, active, leaf, t, r)
  {
    var (stay, dropped) := Scan(c, active, kept, cand);
    if !dropped {
      AccountedNext(c, active, ts, leaf, done, kept, cand, stay, t);
    } else if t == cand {
      var k :| k in kept && Meets(c, active, cand, k) && !Below(c, cand.source, k.source);
      assert Accounts(c, active, leaf, cand, k);
    }
  }

  lemma {:induction false} ConsiderFacts(c: WFChart, active: set<int>, ts: seq<TransitionRef>,
                                         leaf: map<TransitionRef, int>, done: seq<TransitionRef>,
                                         kept: seq<TransitionRef>, cand: TransitionRef)
    requires Considering(c, active, ts, leaf, done, kept, cand) && AccountedFor(c, active, leaf, done, kept)
    ensures var kept' := Consider(c, active, kept, cand);
            && Kept(c, active, ts, leaf, kept') && (forall k :: k in kept' ==> k in kept || k == cand)
            && AccountedFor(c, active, leaf, done + [cand], kept')
  {
    var kept' := Consider(c, active, kept, cand);
    ConsiderKept(c, active, ts, leaf, done, kept, cand);
    forall t | t in done + [cand] && t !in kept' ensures exists r :: r in kept' && Accounts(c, active, leaf, t, r) {
      ConsiderAccounted(c, active, ts, leaf, done, kept, cand, t);
    }
  }

  lemma {:induction false} KeptSnoc(c: Chart, active: set<int>, ts: seq<TransitionRef>, leaf: map<TransitionRef, int>,
                                    stay: seq<TransitionRef>, cand: TransitionRef)
    requires Kept(c, active, ts, leaf, stay) && cand in ts && cand in leaf
    requires forall u :: u in stay ==> leaf[u] < leaf[cand] && !Meets(c, active, cand, u)
    ensures Kept(c, active, ts, leaf, stay + [cand])
  {
    var all := stay + [cand];
    forall i, j | 0 <= i < j < |all| ensures leaf[all[i]] < leaf[all[j]] && !Meets(c, active, all[i], all[j]) {
      if j == |stay| {
        var u := all[i];
        assert u in stay && !Meets(c, active, cand, u);
        assert ExitSet(c, active, u) * ExitSet(c, active, cand) == ExitSet(c, active, cand) * ExitSet(c, active, u);
      }
    }
  }

  lemma {:induction false} EarlierLeaves(c: WFChart, active: set<int>, ts: seq<TransitionRef>,
                                         leaf: map<TransitionRef, int>, k: nat)
    requires Pool(c, active, ts, leaf) && k < |ts|
    ensures ts[k] in ts && ts[k] in leaf && forall t :: t in ts[..k] ==> t in ts && t in leaf && leaf[t] < leaf[ts[k]]
  {
    var done := ts[..k];
    forall t | t in done ensures t in ts && t in leaf && leaf[t] < leaf[ts[k]] {
      var i :| 0 <= i < |done| && done[i] == t;
      assert ts[i] == t;
    }
  }

  lemma {:induction false} ResolveFacts(c: WFChart, active: set<int>, ts: seq<TransitionRef>,
                                        leaf: map<TransitionRef, int>, k: nat)
    requires Pool(c, active, ts, leaf) && k <= |ts|
    ensures var kept := Resolve(c, active, ts[..k]);
            && Kept(c, active, ts, leaf, kept) && (forall t :: t in kept ==> t in ts[..k])
            && AccountedFor(c, active, leaf, ts[..k], kept)
  {
    if k > 0 {
      ResolveFacts(c, active, ts, leaf, k - 1);
      var done, cand := ts[..k - 1], ts[k - 1];
      TakeNext(ts, k - 1);
      ResolveNext(c, active, done, cand);
      EarlierLeaves(c, active, ts, leaf, k - 1);
      ConsiderFacts(c, active, ts, leaf, done, Resolve(c, active, done), cand);
    }
  }

  /** A snapshot with a configuration closed under parents, in document order. */
  ghost predicate ClosedSnapshot(c: Chart, snap: Snapshot) {
    Closed(c, Elems(snap.configuration)) && InOrder(c, snap)
  }

  /** A snapshot with a legal configuration, in document order. */
  ghost predicate LegalSnapshot(c: WFChart, snap: Snapshot) {
    Legal(c, Elems(snap.configuration)) && InOrder(c, snap)
  }

  lemma {:induction false} SelectedKept(c: WFChart, snap: Snapshot, event: Event)
    returns (leaf: map<TransitionRef, int>)
    requires TargetsExist(c) && ClosedSnapshot(c, snap)
    ensures var active := Elems(snap.configuration);
            var cands, kept := Candidates(c, active, snap.configuration, snap, event), Selected(c, snap, event);
            && Pool(c, active, cands, leaf) && Kept(c, active, cands, leaf, kept)
            && AccountedFor(c, active, leaf, cands, kept)
  {
    var active := Elems(snap.configuration);
    var cands := Candidates(c, active, snap.configuration, snap, event);
    leaf := CandidatesHandled(c, active, snap, event);
    ResolveFacts(c, active, cands, leaf, |cands|);
    assert cands[..|cands|] == cands;
  }

  lemma {:induction false} KeptDisjoint(c: Chart, active: set<int>, ts: seq<TransitionRef>,
                                        leaf: map<TransitionRef, int>, kept: seq<TransitionRef>)
    requires Kept(c, active, ts, leaf, kept)
    ensures forall i, j :: 0 <= i < j < |kept| ==> ExitSet(c, active, kept[i]) !! ExitSet(c, active, kept[j])
  {
    forall i, j | 0 <= i < j < |kept| ensures ExitSet(c, active, kept[i]) !! ExitSet(c, active, kept[j]) {
      assert !Meets(c, active, kept[i], kept[j]);
      EmptyMeetDisjoint(ExitSet(c, active, kept[i]), ExitSet(c, active, kept[j]));
    }
  }

  lemma EmptyMeetDisjoint(s: set<int>, t: set<int>)
    requires s * t == {}
    ensures s !! t
  {
    forall n | n in s ensures n !in t {
      assert n in t ==> n in s * t;
    }
  }

  /** `t` is listed before `u`. */
  ghost predicate ListedBefore(ts: seq<TransitionRef>, t: TransitionRef, u: TransitionRef) {
    exists i, j :: 0 <= i < j < |ts| && ts[i] == t && ts[j] == u
  }

  lemma {:induction false} LeafOrderIsListOrder(c: Chart, active: set<int>, ts: seq<TransitionRef>,
                                                leaf: map<TransitionRef, int>, t: TransitionRef, u: TransitionRef)
    requires Handled(c, active, ts, leaf) && t in ts && u in ts && t in leaf && u in leaf && leaf[t] < leaf[u]
    ensures ListedBefore(ts, t, u)
  {
    var i :| 0 <= i < |ts| && ts[i] == t;
    var j :| 0 <= j < |ts| && ts[j] == u;
    assert i < j;
  }

  /** What is selected is found by an active leaf: chosen at the nearest node at or above it, and not forbidden. */
  lemma {:induction false} SelectedFound(c: WFChart, snap: Snapshot, event: Event, t: TransitionRef)
    requires TargetsExist(c) && ClosedSnapshot(c, snap) && t in Selected(c, snap, event)
    ensures FoundFrom(c, Elems(snap.configuration), snap.configuration, snap, event, t)
  {
    SelectionSoundAndMaximal(c, snap, event);
    CandidatesExact(c, Elems(snap.configuration), snap.configuration, snap, event, t);
  }

  /**
   Survivors exit disjoint sets, and every candidate that did not survive meets
   a survivor that has its source below or, not lying above, came first.
   */
  lemma {:induction false} SelectionSoundAndMaximal(c: WFChart, snap: Snapshot, event: Event)
    requires TargetsExist(c) && ClosedSnapshot(c, snap)
    ensures var active := Elems(snap.configuration);
            var cands, kept := Candidates(c, active, snap.configuration, snap, event), Selected(c, snap, event);
            && (forall t :: t in kept ==> t in cands && t.source in active)
            && (forall i, j :: 0 <= i < j < |kept| ==> ExitSet(c, active, kept[i]) !! ExitSet(c, active, kept[j]))
            && (forall t :: t in cands && t !in kept ==> exists r ::
                  r in kept && Meets(c, active, t, r)
                  && (Below(c, r.source, t.source)
                      || (ListedBefore(cands, r, t) && !Below(c, t.source, r.source))))
  {
    var active := Elems(snap.configuration);
    var cands, kept := Candidates(c, active, snap.configuration, snap, event), Selected(c, snap, event);
    var leaf := SelectedKept(c, snap, event);
    KeptDisjoint(c, active, cands, leaf, kept);
    forall t | t in kept ensures t in cands && t.source in active {
      SourcesInRange(c, active, cands, leaf, t);
    }
    forall t | t in cands && t !in kept
      ensures exists r :: r in kept && Meets(c, active, t, r)
                && (Below(c, r.source, t.source) || (ListedBefore(cands, r, t) && !Below(c, t.source, r.source)))
    {
      var r :| r in kept && Accounts(c, active, leaf, t, r);
      if !Below(c, r.source, t.source) { LeafOrderIsListOrder(c, active, cands, leaf, r, t); }
    }
  }

  /** Survivors are taken in the order of the candidates, which is that of the leaves they were found from. */
  lemma {:induction false} SurvivorsInOrder(c: WFChart, snap: Snapshot, event: Event, i: nat, j: nat)
    requires TargetsExist(c) && ClosedSnapshot(c, snap) && i < j < |Selected(c, snap, event)|
    ensures var cands := Candidates(c, Elems(snap.configuration), snap.configuration, snap, event);
            ListedBefore(cands, Selected(c, snap, event)[i], Selected(c, snap, event)[j])
  {
    var active, kept := Elems(snap.configuration), Selected(c, snap, event);
    var leaf := SelectedKept(c, snap, event);
    var t, u := kept[i], kept[j];
    assert t in kept && u in kept && leaf[t] < leaf[u];
    LeafOrderIsListOrder(c, active, Candidates(c, active, snap.configuration, snap, event), leaf, t, u);
  }

  /** Something is selected exactly if some active leaf finds a transition that is not forbidden. */
  lemma {:induction false} SelectsExactly(c: WFChart, snap: Snapshot, event: Event)
    requires TargetsExist(c) && ClosedSnapshot(c, snap)
    ensures Selected(c, snap, event) != [] <==>
            exists t :: FoundFrom(c, Elems(snap.configuration), snap.configuration, snap, event, t)
  {
    var active, kept := Elems(snap.configuration), Selected(c, snap, event);
    SelectionSoundAndMaximal(c, snap, event);
    if kept != [] {
      assert kept[0] in kept;
      SelectedFound(c, snap, event, kept[0]);
    }
    if t :| FoundFrom(c, active, snap.configuration, snap, event, t) {
      CandidatesExact(c, active, snap.configuration, snap, event, t);
    }
  }

  // ---- when a selection can be taken ----

  /** A transition from a childless node to itself that does not reenter: it exits nothing. */
  ghost predicate SelfLoop(c: Chart, t: TransitionRef) {
    && Targets(c, t) != [] && Children(c, t.source) == [] && !Def(c, t).reenter
    && forall x :: x in Targets(c, t) ==> x == t.source
  }

  /** A domain without active descendants belongs to a self loop. */
  lemma {:induction false} ChildlessDomain(c: WFChart, active: set<int>, t: TransitionRef)
    requires TargetsExist(c) && t.source in active && Closed(c, active) && Targets(c, t) != []
    requires Children(c, Domain(c, t)) == [] && Domain(c, t) != 0
    ensures SelfLoop(c, t) && Domain(c, t) == t.source
  {
    DomainContains(c, t);
    if t.source != Domain(c, t) { BelowHasChildren(c, t.source, Domain(c, t)); }
    forall x | x in Targets(c, t) ensures x == t.source {
      if x != t.source { BelowHasChildren(c, x, Domain(c, t)); }
    }
    LowestCoverProper(c, Parent(c, t.source), Targets(c, t));
  }

  lemma {:induction false} LowestCoverProper(c: Chart, a: int, targets: seq<int>)
    ensures LowestCover(c, a, targets) <= a || LowestCover(c, a, targets) == 0
    decreases a
  {
    if 0 <= a < Size(c) && Parent(c, a) < a { LowestCoverProper(c, Parent(c, a), targets); }
  }

  /**
   A selection can be taken together exactly when no self loop in it sits in
   what another transition exits: the conflict filter does not see these, as
   they exit nothing themselves.
   */
  lemma {:induction false} SelectionConsistent(c: WFChart, snap: Snapshot, event: Event)
    requires TargetsExist(c) && LegalSnapshot(c, snap)
    ensures var active, kept := Elems(snap.configuration), Selected(c, snap, event);
            Consistent(c, active, kept) <==> LoopsUndisturbed(c, active, kept)
  {
    SelectionSoundAndMaximal(c, snap, event);
    DisjointConsistent(c, Elems(snap.configuration), Selected(c, snap, event));
  }

  /** No self loop of `kept` sits in what a member of `kept` exits. */
  ghost predicate LoopsUndisturbed(c: Chart, active: set<int>, kept: seq<TransitionRef>) {
    forall t, u :: t in kept && u in kept && SelfLoop(c, t) ==> t.source !in ExitSet(c, active, u)
  }

  lemma {:induction false} DisjointConsistent(c: WFChart, active: set<int>, kept: seq<TransitionRef>)
    requires TargetsExist(c) && Legal(c, active) && forall t :: t in kept ==> t.source in active
    requires forall k, l :: 0 <= k < l < |kept| ==> ExitSet(c, active, kept[k]) !! ExitSet(c, active, kept[l])
    ensures Consistent(c, active, kept) <==> LoopsUndisturbed(c, active, kept)
  {
    if LoopsUndisturbed(c, active, kept) {
      forall i, j | 0 <= i < |kept| && 0 <= j < |kept| && Targets(c, kept[i]) != []
        ensures Domain(c, kept[i]) !in ExitSet(c, active, kept[j])
      {
        DomainNotExited(c, active, kept, i, j);
      }
    } else {
      var t, u :| t in kept && u in kept && SelfLoop(c, t) && t.source in ExitSet(c, active, u);
      var i, j :| 0 <= i < |kept| && 0 <= j < |kept| && kept[i] == t && kept[j] == u;
      assert Domain(c, kept[i]) == t.source;
    }
  }

  lemma {:induction false} DomainNotExited(c: WFChart, active: set<int>, kept: seq<TransitionRef>, i: int, j: int)
    requires TargetsExist(c) && Legal(c, active) && 0 <= i < |kept| && 0 <= j < |kept| && Targets(c, kept[i]) != []
    requires kept[i].source in active && kept[j].source in active && LoopsUndisturbed(c, active, kept)
    requires forall k, l :: 0 <= k < l < |kept| ==> ExitSet(c, active, kept[k]) !! ExitSet(c, active, kept[l])
    ensures Domain(c, kept[i]) !in ExitSet(c, active, kept[j])
  {
    var t, u := kept[i], kept[j];
    var d, e := Domain(c, t), Domain(c, u);
    if d in ExitSet(c, active, u) {
      DomainContains(c, u);
      DescBounds(c, d, e);
      assert ExitSet(c, active, t) !! ExitSet(c, active, u);
      forall n | n in active ensures !Below(c, n, d) {
        assert Below(c, n, d) ==> n in ExitSet(c, active, t);
        if Below(c, n, d) {
          DescBounds(c, n, d);
          DescTrans(c, n, d, e);
        }
      }
      NothingBelowIsLeaf(c, active, d);
      ChildlessDomain(c, active, t);
    }
  }

  /** What the conflict filter lets through can always be taken. */
  lemma {:induction false} SelectedTakes(c: WFChart, snap: Snapshot, event: Event)
    requires Orthogonal(c) && LegalSnapshot(c, snap) && HistoryValid(c, snap.historyValue)
    ensures Takes(c, snap, Selected(c, snap, event))
  {
    OrthogonalTargetsExist(c);
    SelectionSoundAndMaximal(c, snap, event);
  }

  /** Below a parallel state, every transition from a childless state to just itself reenters. */
  ghost predicate LoopsReenter(c: Chart) {
    forall t, p {:trigger SelfLoop(c, t), Below(c, t.source, p)} ::
        SelfLoop(c, t) && Below(c, t.source, p) ==> Kind(c, p) != Parallel
  }

  /** Two nodes neither of which lies below the other lie below siblings. */
  lemma {:induction false} PartAt(c: Chart, l: int, m: int) returns (a: int, b: int)
    requires 0 <= l < Size(c) && 0 <= m < Size(c) && !Desc(c, l, m) && !Desc(c, m, l)
    ensures Siblings(c, a, b) && Desc(c, l, a) && Desc(c, m, b)
    decreases l
  {
    DescRoot(c, m);
    var p := Parent(c, l);
    if Desc(c, m, p) {
      assert Desc(c, l, p);
      a, b := l, Toward(c, m, p);
    } else {
      a, b := PartAt(c, p, m);
    }
  }

  /** With an active descendant comes an active child. */
  lemma {:induction false} NotAtomicAbove(c: Chart, active: set<int>, m: int, l: int)
    requires Closed(c, active) && m in active && Below(c, m, l)
    ensures !AtomicIn(c, active, l)
  {
    var b := Toward(c, m, l);
    ClosedUp(c, active, m, b);
    assert b in Children(c, l);
  }

  /** Two active leaves part at a parallel node. */
  lemma {:induction false} LeavesPart(c: WFChart, active: set<int>, l: int, m: int) returns (p: int)
    requires Legal(c, active) && l in active && m in active && l != m && AtomicIn(c, active, l)
    requires AtomicIn(c, active, m)
    ensures Kind(c, p) == Parallel && Below(c, l, p)
  {
    if Desc(c, m, l) { NotAtomicAbove(c, active, m, l); }
    if Desc(c, l, m) { NotAtomicAbove(c, active, l, m); }
    var a, b := PartAt(c, l, m);
    ClosedUp(c, active, l, a);
    ClosedUp(c, active, m, b);
    p := Parent(c, a);
    DescBounds(c, l, a);
    assert Desc(c, a, p);
    DescTrans(c, l, a, p);
  }

  /** In charts of that kind a self loop is only ever selected alone. */
  lemma {:induction false} LoopAlone(c: WFChart, active: set<int>, ts: seq<TransitionRef>,
                                     leaf: map<TransitionRef, int>, t: TransitionRef, u: TransitionRef)
    requires Pool(c, active, ts, leaf) && Legal(c, active) && LoopsReenter(c) && t in ts && u in ts && SelfLoop(c, t)
    ensures t == u
  {
    MemberFacts(c, active, ts, leaf, t);
    MemberFacts(c, active, ts, leaf, u);
    ChildlessHasNothingBelow(c, leaf[t], t.source);
    assert forall i, j :: 0 <= i < j < |ts| ==> leaf[ts[i]] < leaf[ts[j]];
    if leaf[t] != leaf[u] {
      var p := LeavesPart(c, active, leaf[t], leaf[u]);
    }
  }

  /** There no selection exits the domain of a selected transition, and so every step is legal. */
  lemma {:induction false} ReenteringChartsConsistent(c: WFChart, snap: Snapshot, event: Event)
    requires TargetsExist(c) && LegalSnapshot(c, snap) && LoopsReenter(c)
    ensures Consistent(c, Elems(snap.configuration), Selected(c, snap, event))
  {
    var active, kept := Elems(snap.configuration), Selected(c, snap, event);
    var cands := Candidates(c, active, snap.configuration, snap, event);
    var leaf := SelectedKept(c, snap, event);
    SelectionConsistent(c, snap, event);
    forall t, u | t in kept && u in kept && SelfLoop(c, t) ensures t.source !in ExitSet(c, active, u) {
      LoopAlone(c, active, cands, leaf, t, u);
    }
  }
}
