/** Runs of an actor system: starting, receiving, stopping, timers firing and actors going, in any order. */
module ActorRuns {
  import opened Basics
  import opened Keys
  import opened Actions
  import opened ActorSpecs
  import opened ActorInvariants
  import F = Finals

  // ---- lifecycle ----

  /** Replacing what the tables and links do not depend on. */
  lemma {:induction false} PutInv(s: Sys, a: nat, actor: Actor)
    requires Inv(s) && a < |s.actors|
    requires var was := s.actors[a];
             && actor.alive == was.alive && actor.parent == was.parent
             && actor.timers == was.timers && actor.children == was.children
             && (was.completionReported ==> actor.completionReported)
    ensures Inv(Put(s, a, actor))
  {
    var s' := Put(s, a, actor);
    forall i ensures 0 <= i < |s.actors| && i != a ==> s'.actors[i] == s.actors[i] {}
    assert s'.actors[a] == actor;
    TimersKept(s, s');
    forall i | 0 <= i < |s'.queue| ensures Living(s', s'.queue[i].actor) {
      assert Living(s, s.queue[i].actor);
    }
    forall i, id | 0 <= i < |s'.actors| && s'.actors[i].alive && id in s'.actors[i].children
      ensures i < s'.actors[i].children[id] && Living(s', s'.actors[i].children[id])
    {
      assert id in s.actors[i].children && Living(s, s.actors[i].children[id]);
    }
  }

  /** All other actors are as they were, and `a` is the same one. */
  ghost predicate OnlyOne(s: Sys, s': Sys, a: nat) {
    && a < |s.actors| <= |s'.actors|
    && s'.registry == s.registry
    && (forall i :: 0 <= i < |s.actors| && i != a ==> s'.actors[i] == s.actors[i])
    && s'.actors[a].alive == s.actors[a].alive
    && s'.actors[a].id == s.actors[a].id && s'.actors[a].parent == s.actors[a].parent
    && (s.actors[a].completionReported ==> s'.actors[a].completionReported)
  }

  lemma {:induction false} ReportInv(s: Sys, a: nat)
    requires Inv(s) && Living(s, a)
    ensures Inv(Report(s, a)) && OnlyOne(s, Report(s, a), a) && Report(s, a).actors[a].status == s.actors[a].status
    ensures Report(s, a).reports == s.reports
        || (Report(s, a).reports == s.reports + [a] && !s.actors[a].completionReported)
    ensures Living(s, s.actors[a].parent) && s.actors[a].status in {Some(F.Done), Some(F.Error)} ==>
        Report(s, a).actors[a].completionReported
  {
    var actor := s.actors[a];
    if Report(s, a) != s {
      var s1 := Put(s, a, actor.(completionReported := true));
      PutInv(s, a, actor.(completionReported := true));
      assert Living(s1, actor.parent);
      PostInv(s1, ReceiveJob(actor.parent, CompletionEvent(actor)));
      ReportAdded(Post(s1, ReceiveJob(actor.parent, CompletionEvent(actor))), a);
    }
  }

  lemma {:induction false} ReportAdded(s: Sys, a: nat)
    requires Inv(s) && a < |s.actors| && a !in s.reports && s.actors[a].completionReported
    ensures Inv(s.(reports := s.reports + [a]))
  {
    var s' := s.(reports := s.reports + [a]);
    TimersKept(s, s');
    forall i | 0 <= i < |s'.queue| ensures Living(s', s'.queue[i].actor) {
      assert Living(s, s.queue[i].actor);
    }
  }

  lemma {:induction false} StatusInv(s: Sys, a: nat, status: F.Status)
    requires Inv(s) && Living(s, a)
    ensures Inv(SetStatus(s, a, status)) && OnlyOne(s, SetStatus(s, a, status), a) && Living(SetStatus(s, a, status), a)
  {
    PutInv(s, a, s.actors[a].(status := Some(status)));
  }

  lemma {:induction false} BecomeErrorInv(s: Sys, a: nat)
    requires Inv(s) && Living(s, a)
    ensures Inv(BecomeError(s, a)) && OnlyOne(s, BecomeError(s, a), a)
    ensures BecomeError(s, a).actors[a].status == Some(F.Error)
    ensures Living(s, s.actors[a].parent) ==> BecomeError(s, a).actors[a].completionReported
  {
    StatusInv(s, a, F.Error);
    var s1 := SetStatus(s, a, F.Error);
    assert s.actors[a].parent != a;
    assert Living(s, s.actors[a].parent) ==> Living(s1, s1.actors[a].parent);
    ReportInv(s1, a);
  }

  /**
   Whatever the logic answers, and wherever it or an observer throws: the system stays sound, only this actor's own
   state changes, and a finished actor has told its parent.
   */
  lemma {:induction false} SettleInv(s: Sys, a: nat, o: Outcome)
    requires Inv(s) && Living(s, a)
    ensures Inv(Settle(s, a, o)) && OnlyOne(s, Settle(s, a, o), a)
    ensures Settle(s, a, o).actors[a].status ==
            Some(if o.Yields? && !o.observerThrows then o.status else F.Error)
    ensures Living(s, s.actors[a].parent) && Settle(s, a, o).actors[a].status in {Some(F.Done), Some(F.Error)} ==>
            Settle(s, a, o).actors[a].completionReported
  {
    match o {
      case Throws(done) =>
        EffectsInv(s, a, done);
        var s1 := ApplyEffects(s, a, done);
        ParentStays(s, s1, a);
        BecomeErrorInv(s1, a);
      case Yields(status, effects, observerThrows) =>
        StatusInv(s, a, status);
        var s1 := SetStatus(s, a, status);
        EffectsInv(s1, a, effects);
        var s2 := ApplyEffects(s1, a, effects);
        ParentStays(s, s1, a);
        ParentStays(s1, s2, a);
        ReportInv(s2, a);
        ParentStays(s2, Report(s2, a), a);
        if observerThrows { BecomeErrorInv(Report(s2, a), a); }
    }
  }

  lemma {:induction false} ParentStays(s: Sys, s': Sys, a: nat)
    requires a < |s.actors| <= |s'.actors| && s'.actors[a].parent == s.actors[a].parent && s.actors[a].parent != a
    requires forall i :: 0 <= i < |s.actors| && i != a ==> s'.actors[i] == s.actors[i]
    ensures Living(s, s.actors[a].parent) ==> Living(s', s'.actors[a].parent)
  {}

  // ---- stopping ----

  lemma {:induction false} ClearAllFacts(s: Sys, timers: seq<nat>)
    requires NoDup(timers) && forall t :: t in timers ==> t in s.pending
    ensures var s' := ClearAll(s, timers);
            && s' == s.(pending := s'.pending)
            && (forall t :: t in s'.pending <==> t in s.pending && t !in timers)
            && (forall t :: t in s'.pending ==> s'.pending[t] == s.pending[t])
    decreases |timers|
  {
    if timers != [] {
      var s1, rest := ClearTimeout(s, timers[0]), timers[1..];
      assert timers[0] in timers;
      forall t | t in rest ensures t in timers && t != timers[0] {
        var i :| 0 <= i < |rest| && rest[i] == t;
        assert timers[i + 1] == t;
      }
      ClearAllFacts(s1, rest);
      assert forall t :: t in timers <==> t == timers[0] || t in rest;
    }
  }

  /** The timers in a living actor's table are distinct and pending. */
  lemma {:induction false} TableTimers(s: Sys, a: nat)
    requires TimersMirrored(s) && Living(s, a)
    ensures NoDup(TimersOf(s.actors[a]))
    ensures forall t :: t in TimersOf(s.actors[a]) <==> exists id ::
        id in s.actors[a].timers && s.actors[a].timers[id] == t
    ensures forall t :: t in TimersOf(s.actors[a]) ==> t in s.pending && s.pending[t].actor == a
  {
    var actor := s.actors[a];
    var ids, all := Sorted(actor.timers.Keys), TimersOf(actor);
    forall i | 0 <= i < |ids|
      ensures ids[i] in actor.timers && all[i] == actor.timers[ids[i]] && all[i] in s.pending
      ensures s.pending[all[i]].sendId == ids[i] {
      assert ids[i] in ids;
    }
    forall id | id in actor.timers ensures actor.timers[id] in all {
      var i :| 0 <= i < |ids| && ids[i] == id;
      assert all[i] == actor.timers[id];
    }
  }

  /** Clearing all of an actor's timers and emptying its tables. */
  function Cleared(s: Sys, a: nat): Sys
    requires a < |s.actors|
  {
    var s2 := Put(s, a, s.actors[a].(children := map[]));
    var s3 := ClearAll(s2, TimersOf(s2.actors[a]));
    Put(s3, a, s3.actors[a].(timers := map[]))
  }

  lemma {:induction false} ClearedInv(s: Sys, a: nat)
    requires Inv(s) && Living(s, a)
    ensures Inv(Cleared(s, a)) && OnlyTables(s, Cleared(s, a), a)
    ensures Cleared(s, a).actors[a] == s.actors[a].(children := map[], timers := map[])
    ensures forall t :: t in Cleared(s, a).pending <==> t in s.pending && s.pending[t].actor != a
  {
    var s2 := Put(s, a, s.actors[a].(children := map[]));
    assert forall i :: 0 <= i < |s.actors| && i != a ==> s2.actors[i] == s.actors[i];
    LinksKept(s, s2, a);
    TimersKept(s, s2);
    TableTimers(s2, a);
    ClearAllFacts(s2, TimersOf(s2.actors[a]));
    ClearedMirrored(s2, ClearAll(s2, TimersOf(s2.actors[a])), a);
    LinksKept(s2, Cleared(s, a), a);
  }

  lemma {:induction false} ClearedMirrored(s: Sys, s3: Sys, a: nat)
    requires TimersMirrored(s) && Living(s, a) && s3 == s.(pending := s3.pending)
    requires forall t :: t in s3.pending <==> t in s.pending && t !in TimersOf(s.actors[a])
    requires forall t :: t in s3.pending ==> s3.pending[t] == s.pending[t]
    ensures var s' := Put(s3, a, s3.actors[a].(timers := map[]));
            && TimersMirrored(s') && forall t :: t in s'.pending <==> t in s.pending && s.pending[t].actor != a
  {
    var s' := Put(s3, a, s3.actors[a].(timers := map[]));
    TableTimers(s, a);
    assert forall i :: 0 <= i < |s.actors| && i != a ==> s'.actors[i] == s.actors[i];
    forall t | t in s.pending ensures t in TimersOf(s.actors[a]) <==> s.pending[t].actor == a {
      assert Kept(s, t, s.pending[t]);
    }
    forall t | t in s'.pending ensures t < s'.nextTimer && Kept(s', t, s'.pending[t]) {
      assert Kept(s, t, s.pending[t]);
    }
    forall i, id | 0 <= i < |s'.actors| && s'.actors[i].alive && id in s'.actors[i].timers
      ensures s'.actors[i].timers[id] in s'.pending && s'.pending[s'.actors[i].timers[id]].actor == i
           && s'.pending[s'.actors[i].timers[id]].sendId == id
    {
      assert i != a && id in s.actors[i].timers;
    }
  }

  /** Actors before `a` are as they were, and statuses change only to stopped. */
  ghost predicate Downward(s: Sys, s': Sys, a: nat) {
    && |s.actors| <= |s'.actors| && s'.registry == s.registry
    && (forall i :: 0 <= i < a && i < |s.actors| ==> s'.actors[i] == s.actors[i])
    && (forall i {:trigger s'.actors[i]} :: 0 <= i < |s.actors| ==> StoppedAtMost(s.actors[i], s'.actors[i]))
  }

  ghost predicate StoppedAtMost(x: Actor, y: Actor) {
    && y.alive == x.alive && y.id == x.id && y.parent == x.parent
    && (x.completionReported ==> y.completionReported)
    && (y.status == x.status || y.status == Some(F.Stopped))
  }

  lemma {:induction false} DownwardTrans(s: Sys, t: Sys, u: Sys, a: nat, b: nat)
    requires Downward(s, t, b) && Downward(t, u, a) && a <= b
    ensures Downward(s, u, a)
  {
    forall i | 0 <= i < |s.actors| ensures StoppedAtMost(s.actors[i], u.actors[i]) {
      assert StoppedAtMost(s.actors[i], t.actors[i]) && StoppedAtMost(t.actors[i], u.actors[i]);
    }
  }

  /**
   Stopping `a` reaches an observer that throws: its own, or one of those that
   stopping its children reaches. Stopped actors tell their observers nothing
   and do not stop their children again.
   */
  ghost predicate Noisy(s: Sys, a: nat, on: Reactions, bound: nat)
    decreases bound - a
  {
    && a < |s.actors| && a < bound && s.actors[a].status != Some(F.Stopped)
    && (on.throws(a) || exists k {:trigger k in Kids(s.actors[a])} ::
          k in Kids(s.actors[a]) && a < k && Noisy(s, k, on, bound))
  }

  ghost predicate SomeNoisy(s: Sys, kids: seq<nat>, on: Reactions, bound: nat) {
    exists k :: k in kids && Noisy(s, k, on, bound)
  }

  /** Living actors are as they were, or have been stopped without an exception. */
  ghost predicate Hushed(s: Sys, t: Sys, on: Reactions, bound: nat) {
    && |s.actors| <= |t.actors|
    && forall i {:trigger t.actors[i]} :: Living(s, i) ==>
         t.actors[i] == s.actors[i] || (t.actors[i].status == Some(F.Stopped) && !Noisy(s, i, on, bound))
  }

  /** What has been stopped quietly does not change what further stopping will reach. */
  lemma {:induction false} NoisyStays(s: Sys, t: Sys, a: nat, on: Reactions, bound: nat)
    requires Linked(s) && Living(s, a) && Hushed(s, t, on, bound)
    ensures Noisy(t, a, on, bound) <==> Noisy(s, a, on, bound)
    decreases bound - a
  {
    if t.actors[a] == s.actors[a] && a < bound {
      KidsLinked(s, a);
      forall k | k in Kids(s.actors[a]) ensures Noisy(t, k, on, bound) <==> Noisy(s, k, on, bound) {
        NoisyStays(s, t, k, on, bound);
      }
    }
  }

  lemma {:induction false} HushedTrans(s: Sys, t: Sys, u: Sys, on: Reactions, bound: nat)
    requires Linked(s) && Hushed(s, t, on, bound) && Hushed(t, u, on, bound) && StillLiving(s, t)
    ensures Hushed(s, u, on, bound)
  {
    forall i: nat | Living(s, i)
      ensures u.actors[i] == s.actors[i] || (u.actors[i].status == Some(F.Stopped) && !Noisy(s, i, on, bound))
    {
      assert Living(t, i);
      NoisyStays(s, t, i, on, bound);
    }
  }

  ghost predicate StillLiving(s: Sys, t: Sys) {
    forall i :: Living(s, i) ==> Living(t, i)
  }

  lemma DownwardLiving(s: Sys, t: Sys, a: nat)
    requires Downward(s, t, a)
    ensures StillLiving(s, t)
  {
    forall i | Living(s, i) ensures Living(t, i) { assert StoppedAtMost(s.actors[i], t.actors[i]); }
  }

  /**
   Stopping an actor ends with an exception exactly if it reaches an observer
   that throws; if not, whoever was living is as before or quietly stopped.
   */
  lemma {:induction false} DoStopThrows(s: Sys, a: nat, on: Reactions, bound: nat)
    requires Inv(s) && Living(s, a)
    ensures DoStop(s, a, on, bound).threw <==> Noisy(s, a, on, bound)
    ensures !DoStop(s, a, on, bound).threw ==> Hushed(s, DoStop(s, a, on, bound).sys, on, bound)
    decreases bound - a, 0
  {
    if s.actors[a].status != Some(F.Stopped) && a < bound {
      var kids := Kids(s.actors[a]);
      KidsLinked(s, a);
      StopEachThrows(s, a, kids, on, bound);
      StopEachInv(s, a, kids, on, bound);
      var r := StopEach(s, a, kids, on, bound);
      if !r.threw {
        StopRestInv(r.sys, a, on.onStop(a));
        if !on.throws(a) { RestHushed(s, r.sys, StopRest(r.sys, a, on.onStop(a)), a, on, bound); }
      }
    }
  }

  lemma {:induction false} RestHushed(s: Sys, t: Sys, u: Sys, a: nat, on: Reactions, bound: nat)
    requires Hushed(s, t, on, bound) && !Noisy(s, a, on, bound) && Living(s, a) && |t.actors| <= |u.actors|
    requires u.actors[a].status == Some(F.Stopped)
    requires forall i :: 0 <= i < |t.actors| && i != a ==> u.actors[i] == t.actors[i]
    ensures Hushed(s, u, on, bound)
  {
    forall i: nat | Living(s, i)
      ensures u.actors[i] == s.actors[i] || (u.actors[i].status == Some(F.Stopped) && !Noisy(s, i, on, bound))
    {
      if i != a { assert u.actors[i] == t.actors[i]; }
    }
  }

  lemma {:induction false} StopEachThrows(s: Sys, a: nat, kids: seq<nat>, on: Reactions, bound: nat)
    requires Inv(s) && Living(s, a) && a < bound && forall k :: k in kids ==> a < k && Living(s, k)
    ensures StopEach(s, a, kids, on, bound).threw <==> SomeNoisy(s, kids, on, bound)
    ensures !StopEach(s, a, kids, on, bound).threw ==> Hushed(s, StopEach(s, a, kids, on, bound).sys, on, bound)
    decreases bound - a - 1, |kids| + 1
  {
    if kids != [] {
      var k, rest := kids[0], kids[1..];
      assert k in kids;
      DoStopThrows(s, k, on, bound);
      StopKeeps(s, k, on, bound);
      var t := DoStop(s, k, on, bound).sys;
      if !DoStop(s, k, on, bound).threw {
        DownwardLiving(s, t, k);
        assert forall j :: j in rest ==> j in kids;
        StopEachThrows(t, a, rest, on, bound);
        RestNoisy(s, t, k, kids, on, bound);
        if !StopEach(t, a, rest, on, bound).threw {
          HushedTrans(s, t, StopEach(t, a, rest, on, bound).sys, on, bound);
        }
      }
    }
  }

  lemma {:induction false} RestNoisy(s: Sys, t: Sys, k: nat, kids: seq<nat>, on: Reactions, bound: nat)
    requires Linked(s) && Hushed(s, t, on, bound) && kids != [] && kids[0] == k && !Noisy(s, k, on, bound)
    requires forall j :: j in kids ==> Living(s, j)
    ensures SomeNoisy(t, kids[1..], on, bound) <==> SomeNoisy(s, kids, on, bound)
  {
    forall j | j in kids ensures Noisy(t, j, on, bound) <==> Noisy(s, j, on, bound) { NoisyStays(s, t, j, on, bound); }
    assert forall j :: j in kids <==> j == k || j in kids[1..];
  }

  /**
   Stopping keeps the invariant, and statuses change only to stopped. It ends
   with an exception exactly if it reaches an observer that throws. The actor
   itself ends up stopped exactly if it was already or no observer that throws
   is reached through its children; otherwise it is left as it was.
   */
  lemma {:induction false} DoStopInv(s: Sys, a: nat, on: Reactions, bound: nat)
    requires Inv(s) && Living(s, a)
    ensures var r := DoStop(s, a, on, bound);
            Inv(r.sys) && Downward(s, r.sys, a) && (r.threw <==> Noisy(s, a, on, bound))
    ensures a < bound ==>
            var s', stopped := DoStop(s, a, on, bound).sys, s.actors[a].status == Some(F.Stopped);
            && (s'.actors[a].status == Some(F.Stopped) <==>
                stopped || forall k :: k in Kids(s.actors[a]) ==> !Noisy(s, k, on, bound))
            && (s'.actors[a].status != Some(F.Stopped) ==> s'.actors[a] == s.actors[a])
  {
    StopKeeps(s, a, on, bound);
    DoStopThrows(s, a, on, bound);
    if s.actors[a].status != Some(F.Stopped) && a < bound {
      KidsLinked(s, a);
      StopEachThrows(s, a, Kids(s.actors[a]), on, bound);
    }
  }

  /** What stopping keeps, by how stopping the children goes. */
  lemma {:induction false} StopKeeps(s: Sys, a: nat, on: Reactions, bound: nat)
    requires Inv(s) && Living(s, a)
    ensures var r := DoStop(s, a, on, bound); Inv(r.sys) && Downward(s, r.sys, a)
    ensures a < bound ==>
            var r, stopped := DoStop(s, a, on, bound), s.actors[a].status == Some(F.Stopped);
            && (r.sys.actors[a].status == Some(F.Stopped) <==>
                stopped || !StopEach(s, a, Kids(s.actors[a]), on, bound).threw)
            && (r.sys.actors[a].status != Some(F.Stopped) ==> r.threw && r.sys.actors[a] == s.actors[a])
    decreases bound - a, 0
  {
    if s.actors[a].status != Some(F.Stopped) && a < bound {
      KidsLinked(s, a);
      StopEachInv(s, a, Kids(s.actors[a]), on, bound);
      var r := StopEach(s, a, Kids(s.actors[a]), on, bound);
      assert r.sys.actors[a] == s.actors[a];
      if r.threw {
        DownwardFrom(s, r.sys, a, a + 1);
      } else {
        StopRestInv(r.sys, a, on.onStop(a));
        DownwardTrans(s, r.sys, DoStop(s, a, on, bound).sys, a, a + 1);
      }
    }
  }

  lemma {:induction false} StopRestInv(s: Sys, a: nat, effects: seq<Effect>)
    requires Inv(s) && Living(s, a)
    ensures var s' := StopRest(s, a, effects);
            && Inv(s') && Downward(s, s', a) && s'.actors[a].status == Some(F.Stopped)
            && forall i :: 0 <= i < |s.actors| && i != a ==> s'.actors[i] == s.actors[i]
  {
    ClearedInv(s, a);
    var s4 := Cleared(s, a);
    EffectsInv(s4, a, effects);
    var s5 := ApplyEffects(s4, a, effects);
    StatusInv(s5, a, F.Stopped);
    OnlyTablesTrans(s, s4, s5, a);
  }

  lemma {:induction false} KidsLinked(s: Sys, a: nat)
    requires Linked(s) && Living(s, a)
    ensures forall k :: k in Kids(s.actors[a]) ==> a < k && Living(s, k)
  {
    var ids := Sorted(s.actors[a].children.Keys);
    forall k | k in Kids(s.actors[a]) ensures a < k && Living(s, k) {
      var i :| 0 <= i < |ids| && Kids(s.actors[a])[i] == k;
      assert ids[i] in ids && ids[i] in s.actors[a].children;
    }
  }

  lemma {:induction false} StopEachInv(s: Sys, a: nat, kids: seq<nat>, on: Reactions, bound: nat)
    requires Inv(s) && Living(s, a) && a < bound && forall k :: k in kids ==> a < k && Living(s, k)
    ensures var r := StopEach(s, a, kids, on, bound); Inv(r.sys) && Downward(s, r.sys, a + 1)
    decreases bound - a - 1, |kids| + 1
  {
    if kids != [] {
      var k := kids[0];
      assert k in kids;
      StopKeeps(s, k, on, bound);
      var r1 := DoStop(s, k, on, bound);
      forall j | j in kids[1..] ensures a < j && Living(r1.sys, j) {
        assert j in kids && StoppedAtMost(s.actors[j], r1.sys.actors[j]);
      }
      if r1.threw {
        DownwardFrom(s, r1.sys, a + 1, k);
      } else {
        StopEachInv(r1.sys, a, kids[1..], on, bound);
        DownwardTrans(s, r1.sys, StopEach(s, a, kids, on, bound).sys, a + 1, k);
      }
    }
  }

  lemma {:induction false} DownwardFrom(s: Sys, t: Sys, a: nat, b: nat)
    requires Downward(s, t, b) && a <= b
    ensures Downward(s, t, a)
  {}

  /** If no observer of the actor or a younger one throws, stopping reaches none that does. */
  lemma {:induction false} QuietIsNotNoisy(s: Sys, a: nat, on: Reactions, bound: nat)
    requires forall b: nat :: a <= b ==> !on.throws(b)
    ensures !Noisy(s, a, on, bound)
    decreases bound - a
  {
    if a < |s.actors| && a < bound {
      forall k | k in Kids(s.actors[a]) && a < k ensures !Noisy(s, k, on, bound) { QuietIsNotNoisy(s, k, on, bound); }
    }
  }

  /** If no observer of a younger actor throws, the actor is stopped. */
  lemma {:induction false} QuietlyStopped(s: Sys, a: nat, on: Reactions, bound: nat)
    requires Inv(s) && Living(s, a) && a < bound && forall b: nat :: a < b ==> !on.throws(b)
    ensures DoStop(s, a, on, bound).sys.actors[a].status == Some(F.Stopped)
  {
    KidsLinked(s, a);
    forall k | k in Kids(s.actors[a]) ensures !Noisy(s, k, on, bound) { QuietIsNotNoisy(s, k, on, bound); }
    DoStopInv(s, a, on, bound);
  }

  /**
   But one child through which an observer that throws is reached is enough:
   the actor is not stopped, and keeps its timers and children.
   */
  lemma {:induction false} NoisyChild(s: Sys, a: nat, k: nat, on: Reactions, bound: nat)
    requires Inv(s) && Living(s, a) && s.actors[a].status != Some(F.Stopped)
    requires k in Kids(s.actors[a]) && Noisy(s, k, on, bound)
    ensures DoStop(s, a, on, bound).threw && DoStop(s, a, on, bound).sys.actors[a] == s.actors[a]
  {
    KidsLinked(s, a);
    DoStopInv(s, a, on, bound);
  }

  // ---- steps ----

  /**
   What can happen next: a call from outside, the executor's next task, a timer, or an actor's last owner letting go.
   */
  datatype Step =
    | Call(job: Job)
    | RunNext(outcome: Outcome, on: Reactions)
    | TimerFires(timer: nat)
    | Gone(actor: nat)

  /** Nobody holds `a`: no task, no living parent, no registry entry. */
  ghost predicate Unowned(s: Sys, a: nat) {
    && (forall i {:trigger s.queue[i]} :: 0 <= i < |s.queue| ==> s.queue[i].actor != a)
    && (forall p, id {:trigger id in s.actors[p].children} ::
              Living(s, p) && id in s.actors[p].children ==> s.actors[p].children[id] != a)
    && (forall id {:trigger id in s.registry} :: id in s.registry ==> s.registry[id] != a)
  }

  ghost predicate Possible(s: Sys, step: Step) {
    match step
    case Call(job) => Living(s, job.actor)
    case RunNext(_, _) => s.queue != [] && s.queue[0].actor < |s.actors|
    case TimerFires(t) => t in s.pending && s.pending[t].actor < |s.actors|
    case Gone(a) => Living(s, a) && Unowned(s, a)
  }

  function RunJob(s: Sys, job: Job, outcome: Outcome, on: Reactions): Sys
    requires job.actor < |s.actors|
  {
    match job
    case StartJob(a) => DoStart(s, a, outcome)
    case ReceiveJob(a, _) => DoReceive(s, a, outcome)
    case StopJob(a) => DoStop(s, a, on, |s.actors|).sys
  }

  ghost function Next(s: Sys, step: Step): Sys
    requires Possible(s, step)
  {
    match step
    case Call(job) => if job.StartJob? then Start(s, job.actor) else Post(s, job)
    case RunNext(outcome, on) => RunJob(s.(queue := s.queue[1..]), s.queue[0], outcome, on)
    case TimerFires(t) => Fire(s, t)
    case Gone(a) => Drop(s, a)
  }

  lemma {:induction false} DequeueInv(s: Sys)
    requires Inv(s) && s.queue != []
    ensures Inv(s.(queue := s.queue[1..])) && Living(s, s.queue[0].actor)
  {
    var s' := s.(queue := s.queue[1..]);
    TimersKept(s, s');
    forall i | 0 <= i < |s'.queue| ensures Living(s', s'.queue[i].actor) {
      assert s'.queue[i] == s.queue[i + 1];
      assert Living(s, s.queue[i + 1].actor);
    }
    assert Living(s, s.queue[0].actor);
  }

  /** A timer that fires is forgotten by its actor before its event is sent. */
  lemma {:induction false} FireInv(s: Sys, t: nat)
    requires Inv(s) && t in s.pending
    ensures Inv(Fire(s, t)) && OnlyTables(s, Fire(s, t), s.pending[t].actor) && |Fire(s, t).actors| == |s.actors|
    ensures Fire(s, t).pending == s.pending - {t}
  {
    var p := s.pending[t];
    assert Kept(s, t, p);
    var s1 := s.(pending := s.pending - {t});
    if s.actors[p.actor].alive {
      var s2 := Put(s1, p.actor, s.actors[p.actor].(timers := s.actors[p.actor].timers - {p.sendId}));
      FiredMirrored(s, t, s2);
      LinksKept(s, s2, p.actor);
      SendInv(s2, p.actor, p.target, p.event);
    } else {
      LostTimer(s, t, s1);
    }
  }

  lemma {:induction false} FiredMirrored(s: Sys, t: nat, s2: Sys)
    requires TimersMirrored(s) && t in s.pending && Living(s, s.pending[t].actor)
    requires var p := s.pending[t];
             s2 == Put(s.(pending := s.pending - {t}), p.actor,
                       s.actors[p.actor].(timers := s.actors[p.actor].timers - {p.sendId}))
    ensures TimersMirrored(s2) && SameButTables(s, s2, s.pending[t].actor)
    ensures s2.actors[s.pending[t].actor].children == s.actors[s.pending[t].actor].children
  {
    var p := s.pending[t];
    assert Kept(s, t, p);
    assert forall i :: 0 <= i < |s.actors| && i != p.actor ==> s2.actors[i] == s.actors[i];
    forall u | u in s2.pending ensures u < s2.nextTimer && Kept(s2, u, s2.pending[u]) {
      assert u in s.pending && Kept(s, u, s.pending[u]);
    }
    forall i, id | 0 <= i < |s2.actors| && s2.actors[i].alive && id in s2.actors[i].timers
      ensures s2.actors[i].timers[id] in s2.pending && s2.pending[s2.actors[i].timers[id]].actor == i
           && s2.pending[s2.actors[i].timers[id]].sendId == id
    {
      assert id in s.actors[i].timers;
    }
  }

  lemma {:induction false} LostTimer(s: Sys, t: nat, s1: Sys)
    requires Inv(s) && t in s.pending && !s.actors[s.pending[t].actor].alive && s1 == s.(pending := s.pending - {t})
    ensures Inv(s1)
  {
    forall u | u in s1.pending ensures u < s1.nextTimer && Kept(s1, u, s1.pending[u]) {
      assert u in s.pending && Kept(s, u, s.pending[u]);
    }
    forall i, id | 0 <= i < |s1.actors| && s1.actors[i].alive && id in s1.actors[i].timers
      ensures s1.actors[i].timers[id] in s1.pending && s1.pending[s1.actors[i].timers[id]].actor == i
           && s1.pending[s1.actors[i].timers[id]].sendId == id
    {
      assert id in s.actors[i].timers;
    }
    forall i | 0 <= i < |s1.queue| ensures Living(s1, s1.queue[i].actor) {
      assert Living(s, s.queue[i].actor);
    }
  }

  lemma {:induction false} DropInv(s: Sys, a: nat)
    requires Inv(s) && Living(s, a) && Unowned(s, a)
    ensures Inv(Drop(s, a))
  {
    var s' := Drop(s, a);
    assert forall i :: 0 <= i < |s.actors| && i != a ==> s'.actors[i] == s.actors[i];
    forall t | t in s'.pending ensures t < s'.nextTimer && Kept(s', t, s'.pending[t]) {
      assert Kept(s, t, s.pending[t]);
    }
    forall i, id | 0 <= i < |s'.actors| && s'.actors[i].alive && id in s'.actors[i].children
      ensures i < s'.actors[i].children[id] && Living(s', s'.actors[i].children[id])
    {
      assert Living(s, i) && id in s.actors[i].children && Living(s, s.actors[i].children[id]);
    }
    forall i | 0 <= i < |s'.queue| ensures Living(s', s'.queue[i].actor) {
      assert Living(s, s.queue[i].actor) && s.queue[i].actor != a;
    }
  }

  /** Where a status may go: a new actor anywhere, an active one anywhere, any other only to stopped. */
  predicate MayBecome(x: Option<F.Status>, y: Option<F.Status>) {
    x == None || x == Some(F.Active) || y == x || y == Some(F.Stopped)
  }

  /** Actors are never replaced, statuses never go back, and a report is never taken back. */
  ghost predicate Onward(s: Sys, s': Sys) {
    && |s.actors| <= |s'.actors|
    && forall i {:trigger s'.actors[i]} :: 0 <= i < |s.actors| ==> OnwardActor(s.actors[i], s'.actors[i])
  }

  ghost predicate OnwardActor(x: Actor, y: Actor) {
    y.id == x.id && y.parent == x.parent && MayBecome(x.status, y.status)
        && (x.completionReported ==> y.completionReported)
  }

  lemma {:induction false} OnlyOneOnward(s: Sys, s': Sys, a: nat)
    requires OnlyOne(s, s', a) && MayBecome(s.actors[a].status, s'.actors[a].status)
    ensures Onward(s, s')
  {
    forall i | 0 <= i < |s.actors| ensures OnwardActor(s.actors[i], s'.actors[i]) {
      if i != a { assert s'.actors[i] == s.actors[i]; }
    }
  }

  lemma {:induction false} JobInv(s: Sys, job: Job, outcome: Outcome, on: Reactions)
    requires Inv(s) && Living(s, job.actor)
    ensures Inv(RunJob(s, job, outcome, on)) && Onward(s, RunJob(s, job, outcome, on))
  {
    var a := job.actor;
    if job.StopJob? {
      StopKeeps(s, a, on, |s.actors|);
      var s' := DoStop(s, a, on, |s.actors|).sys;
      forall i | 0 <= i < |s.actors| ensures OnwardActor(s.actors[i], s'.actors[i]) {
        assert StoppedAtMost(s.actors[i], s'.actors[i]);
      }
    } else if s.actors[a].status == if job.StartJob? then None else Some(F.Active) {
      SettleInv(s, a, outcome);
      OnlyOneOnward(s, Settle(s, a, outcome), a);
    }
  }

  /** Whatever happens next keeps the invariant, and only takes actors onward. */
  lemma {:induction false} NextInv(s: Sys, step: Step)
    requires Inv(s) && Possible(s, step)
    ensures Inv(Next(s, step)) && Onward(s, Next(s, step))
  {
    match step {
      case Call(job) =>
        if job.StartJob? { StartInv(s, job.actor); } else { PostInv(s, job); }
      case RunNext(outcome, on) =>
        DequeueInv(s);
        JobInv(s.(queue := s.queue[1..]), s.queue[0], outcome, on);
      case TimerFires(t) => FireInv(s, t);
      case Gone(a) => DropInv(s, a);
    }
  }

  // ---- runs ----

  /** A system with its root actor and nothing done yet. */
  function NewSystem(registry: map<string, nat>, factories: set<string>): Sys {
    Sys([Born("root", -1)], map[], 1, [], registry, factories, 0, [])
  }

  ghost predicate Happens(s: Sys, step: Step, s': Sys) {
    Possible(s, step) && s' == Next(s, step)
  }

  ghost predicate HappensAt(states: seq<Sys>, steps: seq<Step>, i: nat)
    requires |states| == |steps| + 1 && i < |steps|
  {
    Happens(states[i], steps[i], states[i + 1])
  }

  ghost predicate Reached(states: seq<Sys>, steps: seq<Step>) {
    && |states| == |steps| + 1
    && (exists registry, factories ::
          states[0] == NewSystem(registry, factories) && forall id :: id in registry ==> registry[id] == 0)
    && forall i {:trigger HappensAt(states, steps, i)} :: 0 <= i < |steps| ==> HappensAt(states, steps, i)
  }

  /** In every run, from start to end: no timer is cleared that is not pending, and the tables mirror the clock. */
  lemma {:induction false} RunInv(states: seq<Sys>, steps: seq<Step>, k: nat)
    requires Reached(states, steps) && k <= |steps|
    ensures Inv(states[k])
  {
    if k > 0 {
      RunInv(states, steps, k - 1);
      assert HappensAt(states, steps, k - 1);
      HappensInv(states[k - 1], steps[k - 1], states[k]);
    }
  }

  lemma {:induction false} HappensInv(s: Sys, step: Step, s': Sys)
    requires Inv(s) && Happens(s, step, s')
    ensures Inv(s') && Onward(s, s')
  {
    NextInv(s, step);
  }

  /** The living actor `a` has timer `t` in its table, under `id`. */
  ghost predicate Holds(s: Sys, a: int, id: string, t: nat) {
    Living(s, a) && id in s.actors[a].timers && s.actors[a].timers[id] == t
  }

  /** The tables of the living and the timers they have pending are in bijection. */
  lemma {:induction false} TimersBijective(states: seq<Sys>, steps: seq<Step>, k: nat)
    requires Reached(states, steps) && k <= |steps|
    ensures var s := states[k];
            && s.missed == 0
            && (forall a, id, b, jd, t :: Holds(s, a, id, t) && Holds(s, b, jd, t) ==> a == b && id == jd)
            && (forall t :: t in s.pending && Living(s, s.pending[t].actor) <==> exists a, id :: Holds(s, a, id, t))
  {
    RunInv(states, steps, k);
    var s := states[k];
    forall t | t in s.pending && Living(s, s.pending[t].actor)
      ensures exists a, id :: Holds(s, a, id, t)
    {
      var p := s.pending[t];
      assert Kept(s, t, p);
      assert Holds(s, p.actor, p.sendId, t);
    }
  }

  /** A completion is reported at most once in a whole run. */
  lemma {:induction false} ReportsOnce(states: seq<Sys>, steps: seq<Step>, k: nat)
    requires Reached(states, steps) && k <= |steps|
    ensures NoDup(states[k].reports)
  {
    RunInv(states, steps, k);
  }

  lemma {:induction false} StepOnward(states: seq<Sys>, steps: seq<Step>, k: nat, i: nat)
    requires Reached(states, steps) && k < |steps| && i < |states[k].actors|
    ensures i < |states[k + 1].actors| && OnwardActor(states[k].actors[i], states[k + 1].actors[i])
  {
    RunInv(states, steps, k);
    assert HappensAt(states, steps, k);
    HappensInv(states[k], steps[k], states[k + 1]);
  }

  /** Stopped is for good, and a finished actor can only be stopped. */
  lemma {:induction false} StatusesOnward(states: seq<Sys>, steps: seq<Step>, j: nat, k: nat, i: nat)
    requires Reached(states, steps) && j <= k <= |steps| && i < |states[j].actors|
    ensures i < |states[k].actors| && OnwardActor(states[j].actors[i], states[k].actors[i])
    decreases k - j
  {
    if j < k {
      StatusesOnward(states, steps, j, k - 1, i);
      StepOnward(states, steps, k - 1, i);
    }
  }
}
