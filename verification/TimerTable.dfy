/** Timer tables: multimaps from deadlines, in the order of deadline and creation. */
module TimerTables {
  import opened Basics

  datatype Entry<T> = Entry(deadline: int, id: nat, task: T)

  /** How many entries have a deadline up to `deadline`: new entries go behind these. */
  function UpperBound<T>(timers: seq<Entry<T>>, deadline: int): (k: nat)
    ensures k <= |timers|
    ensures forall i :: 0 <= i < k ==> timers[i].deadline <= deadline
    ensures k < |timers| ==> timers[k].deadline > deadline
  {
    if timers == [] || timers[0].deadline > deadline then 0 else 1 + UpperBound(timers[1..], deadline)
  }

  function Emplaced<T>(timers: seq<Entry<T>>, e: Entry<T>): seq<Entry<T>> {
    var k := UpperBound(timers, e.deadline);
    timers[..k] + [e] + timers[k..]
  }

  /** The first entry with this id taken out. */
  function Erased<T>(timers: seq<Entry<T>>, id: nat): seq<Entry<T>> {
    if timers == [] then [] else if timers[0].id == id then timers[1..] else [timers[0]] + Erased(timers[1..], id)
  }

  lemma ErasedStep<T>(timers: seq<Entry<T>>, i: nat, id: nat)
    requires i < |timers|
    ensures timers[i].id == id ==> Erased(timers[i..], id) == timers[i + 1..]
    ensures timers[i].id != id ==> Erased(timers[i..], id) == [timers[i]] + Erased(timers[i + 1..], id)
  {
    assert timers[i..][1..] == timers[i + 1..];
  }

  /** The scan for an id. */
  method EraseById<T>(timers: seq<Entry<T>>, id: nat) returns (rest: seq<Entry<T>>)
    ensures rest == Erased(timers, id)
  {
    for i := 0 to |timers|
      invariant Erased(timers, id) == timers[..i] + Erased(timers[i..], id)
    {
      ErasedStep(timers, i, id);
      if timers[i].id == id { return timers[..i] + timers[i + 1..]; }
      TakeNext(timers, i);
      AppendAfter(timers[..i], [timers[i]], Erased(timers[i + 1..], id));
    }
    assert timers[..|timers|] == timers && timers[|timers|..] == [];
    return timers;
  }

  /** Earlier deadline, or same deadline and created earlier. */
  predicate Before(d: int, i: nat, e: int, j: nat) { d < e || (d == e && i < j) }

  ghost predicate InOrder<T>(timers: seq<Entry<T>>) {
    forall i, j :: 0 <= i < j < |timers| ==> Before(timers[i].deadline, timers[i].id, timers[j].deadline, timers[j].id)
  }

  lemma {:induction false} InOrderAround<T>(before: seq<Entry<T>>, e: Entry<T>, after: seq<Entry<T>>)
    requires InOrder(before) && InOrder(after)
    requires forall a :: a in before ==> Before(a.deadline, a.id, e.deadline, e.id)
    requires forall b :: b in after ==> Before(e.deadline, e.id, b.deadline, b.id)
    ensures InOrder(before + [e] + after)
  {
    var u, k := before + [e] + after, |before|;
    forall i, j | 0 <= i < j < |u| ensures Before(u[i].deadline, u[i].id, u[j].deadline, u[j].id) {
      if i < k { assert u[i] == before[i] && u[i] in before; }
      if j > k { assert u[j] == after[j - k - 1] && u[j] in after; }
    }
  }

  /** Everything up to the upper bound is due by then, everything from it on is due later. */
  lemma {:induction false} Parted<T>(timers: seq<Entry<T>>, deadline: int)
    requires InOrder(timers)
    ensures var k := UpperBound(timers, deadline);
            && (forall a :: a in timers[..k] ==> a.deadline <= deadline)
            && (forall b :: b in timers[k..] ==> b.deadline > deadline)
  {
    var k := UpperBound(timers, deadline);
    forall b | b in timers[k..] ensures deadline < b.deadline {
      var i :| 0 <= i < |timers[k..]| && timers[k..][i] == b;
      assert i > 0 ==> Before(timers[k].deadline, timers[k].id, timers[k + i].deadline, timers[k + i].id);
    }
  }

  lemma {:induction false} EmplacedOrder<T>(timers: seq<Entry<T>>, e: Entry<T>)
    requires InOrder(timers) && forall a :: a in timers ==> a.id < e.id
    ensures InOrder(Emplaced(timers, e))
  {
    var k := UpperBound(timers, e.deadline);
    Parted(timers, e.deadline);
    forall a | a in timers[..k] ensures a in timers {}
    InOrderAround(timers[..k], e, timers[k..]);
  }

  lemma {:induction false} EmplacedMembers<T>(timers: seq<Entry<T>>, e: Entry<T>)
    ensures forall a :: a in Emplaced(timers, e) <==> a in timers || a == e
  {
    var k := UpperBound(timers, e.deadline);
    assert timers == timers[..k] + timers[k..];
  }

  lemma {:induction false} ErasedOrder<T>(timers: seq<Entry<T>>, id: nat)
    requires InOrder(timers)
    ensures InOrder(Erased(timers, id)) && forall e :: e in Erased(timers, id) ==> e in timers
  {
    if timers != [] {
      var rest := timers[1..];
      assert forall i :: 0 <= i < |rest| ==> rest[i] == timers[i + 1];
      ErasedOrder(rest, id);
      assert forall e :: e in rest ==> Before(timers[0].deadline, timers[0].id, e.deadline, e.id);
      assert forall i :: 0 <= i < |Erased(rest, id)| ==> Erased(rest, id)[i] in rest;
    }
  }

  /** No two entries share an id. */
  ghost predicate DistinctIds<T>(timers: seq<Entry<T>>) {
    forall i, j :: 0 <= i < j < |timers| ==> timers[i].id != timers[j].id
  }

  ghost predicate HasId<T(!new)>(timers: seq<Entry<T>>, id: nat) {
    exists e :: e in timers && e.id == id
  }

  lemma {:induction false} EmplacedDistinct<T(!new)>(timers: seq<Entry<T>>, e: Entry<T>)
    requires DistinctIds(timers) && !HasId(timers, e.id)
    ensures DistinctIds(Emplaced(timers, e))
  {
    var k := UpperBound(timers, e.deadline);
    var all := Emplaced(timers, e);
    assert forall i :: 0 <= i < |timers| ==> timers[i] in timers;
    forall i, j | 0 <= i < j < |all| ensures all[i].id != all[j].id {
      if i != k && j != k {
        assert all[i] == timers[if i < k then i else i - 1] && all[j] == timers[if j < k then j else j - 1];
      } else if i == k {
        assert all[j] == timers[j - 1];
      } else {
        assert all[i] == timers[i];
      }
    }
  }

  lemma DistinctTail<T(!new)>(timers: seq<Entry<T>>)
    requires DistinctIds(timers) && timers != []
    ensures DistinctIds(timers[1..]) && forall e :: e in timers[1..] ==> e.id != timers[0].id
  {
    var rest := timers[1..];
    assert forall i :: 0 <= i < |rest| ==> rest[i] == timers[i + 1];
  }

  lemma DistinctCons<T(!new)>(first: Entry<T>, r: seq<Entry<T>>)
    requires DistinctIds(r) && forall e :: e in r ==> e.id != first.id
    ensures DistinctIds([first] + r)
  {
    assert forall i :: 0 <= i < |r| ==> r[i] in r;
  }

  /** Erasing takes out the one entry with the id, if there is one, and keeps all others. */
  lemma {:induction false} ErasedExact<T(!new)>(timers: seq<Entry<T>>, id: nat)
    requires DistinctIds(timers)
    ensures DistinctIds(Erased(timers, id))
    ensures forall e :: e in Erased(timers, id) <==> e in timers && e.id != id
  {
    if timers != [] {
      var first, rest := timers[0], timers[1..];
      assert forall e :: e in timers <==> e == first || e in rest;
      DistinctTail(timers);
      ErasedExact(rest, id);
      if first.id != id { DistinctCons(first, Erased(rest, id)); }
    }
  }
}
