/** What each effect, each timer and each start does to a system of actors, written out. */
module ActorLaws {
  import opened Basics
  import opened StateNodes
  import opened Actions
  import opened ActorSpecs
  import opened ActorInvariants
  import opened ActorRuns
  import F = Finals

  /**
   `target` names actor `t` for actor `a`: itself if it is empty, the parent if
   that is still alive, else a child, else an actor with that system id.
   */
  ghost predicate Names(s: Sys, a: nat, target: string, t: int)
    requires a < |s.actors|
  {
    var actor := s.actors[a];
    if target == "" then t == a
    else if target == "__parent__" then t == actor.parent && Living(s, t)
    else if target in actor.children then t == actor.children[target]
    else target in s.registry && t == s.registry[target]
  }

  /** `s'` is `s` with the event sent on, or as it was if nobody is named. */
  ghost predicate Sent(s: Sys, a: nat, target: string, event: Event, s': Sys)
    requires a < |s.actors|
  {
    && (forall t: nat :: Names(s, a, target, t) ==> s' == s.(queue := s.queue + [ReceiveJob(t, event)]))
    && ((forall t: nat :: !Names(s, a, target, t)) ==> s' == s)
  }

  lemma {:induction false} DeliverExact(s: Sys, a: nat, target: string, event: Event)
    requires a < |s.actors|
    ensures Sent(s, a, target, event, Deliver(s, a, target, event))
  {
    var r := Resolve(s, a, target);
    if r.Some? { assert Names(s, a, target, r.value); }
  }

  /** The timers pending but for the one `a` has under `id`. */
  ghost function Without(s: Sys, a: nat, id: string): map<nat, Pending>
    requires a < |s.actors|
  {
    if id in s.actors[a].timers then s.pending - {s.actors[a].timers[id]} else s.pending
  }

  /** Actor `a` is replaced, and all else is as it was but for timers and tasks. */
  ghost predicate Becomes(s: Sys, a: nat, actor: Actor, pending: map<nat, Pending>, posted: seq<Job>, s': Sys)
    requires a < |s.actors|
  {
    s' == s.(actors := s.actors[a := actor], pending := pending, queue := s.queue + posted, nextTimer := s'.nextTimer)
  }

  /** A timer that is started replaces the one under the same send id, and is pending under a new number. */
  lemma {:induction false} StartTimerExact(s: Sys, a: nat, id: string, target: string, event: Event, delayMs: int)
    requires Inv(s) && Living(s, a)
    ensures var s', was := ApplyEffect(s, a, StartTimer(id, target, event, delayMs)), s.actors[a];
            && s'.nextTimer == s.nextTimer + 1
            && Becomes(s, a, was.(timers := was.timers[id := s.nextTimer]),
                       Without(s, a, id)[s.nextTimer := Pending(a, id, event, target)], [], s')
  {
    var was := s.actors[a];
    assert id in was.timers ==> was.timers[id] in s.pending;
    assert s.queue + [] == s.queue;
  }

  /** A timer that is cancelled is pending no more; there being none is no error. */
  lemma {:induction false} CancelTimerExact(s: Sys, a: nat, id: string)
    requires Inv(s) && Living(s, a)
    ensures var s', was := ApplyEffect(s, a, CancelTimer(id)), s.actors[a];
            && s'.nextTimer == s.nextTimer
            && Becomes(s, a, was.(timers := was.timers - {id}), Without(s, a, id), [], s')
  {
    var was := s.actors[a];
    assert id in was.timers ==> was.timers[id] in s.pending;
    assert s.queue + [] == s.queue;
    if id !in was.timers {
      assert was.timers - {id} == was.timers;
      assert s.actors[a := was] == s.actors;
    }
  }

  /** A child that is spawned is a new actor, and a task is posted to start it; unknown logic spawns none. */
  lemma {:induction false} SpawnExact(s: Sys, a: nat, id: string, src: string, autoStop: bool)
    requires a < |s.actors|
    ensures var s', was, child := ApplyEffect(s, a, SpawnChild(id, src, autoStop)), s.actors[a], |s.actors|;
            if src !in s.factories then s' == s
            else s' == s.(actors := s.actors[a := was.(children := was.children[id := child])]
                                      + [Actor(true, id, a, None, map[], map[], false, true)],
                          queue := s.queue + [StartJob(child)])
  {
    if src in s.factories {
      var s', was, child := ApplyEffect(s, a, SpawnChild(id, src, autoStop)), s.actors[a], |s.actors|;
      assert s'.actors == s.actors[a := was.(children := was.children[id := child])]
                            + [Actor(true, id, a, None, map[], map[], false, true)];
    }
  }

  /** A child that is stopped is no child from then on, and a task is posted to stop it. */
  lemma {:induction false} StopChildExact(s: Sys, a: nat, id: string)
    requires a < |s.actors|
    ensures var s', was := ApplyEffect(s, a, StopChild(id)), s.actors[a];
            if id !in was.children then s' == s
            else Becomes(s, a, was.(children := was.children - {id}), s.pending, [StopJob(was.children[id])], s')
  {}

  /** Sending reaches whom the target names; what is emitted or logged leaves the system alone. */
  lemma {:induction false} SendExact(s: Sys, a: nat, id: string, target: string, event: Event, message: string)
    requires a < |s.actors|
    ensures Sent(s, a, target, event, ApplyEffect(s, a, Send(id, target, event)))
    ensures ApplyEffect(s, a, EmitEffect(event)) == s == ApplyEffect(s, a, LogEffect(message))
  {
    DeliverExact(s, a, target, event);
  }

  /**
   A timer that fires is forgotten by the clock and by its actor, and its event
   is then sent to whom its target names; if the actor has gone, nobody gets it.
   */
  lemma {:induction false} FireExact(s: Sys, t: nat)
    requires Inv(s) && t in s.pending
    ensures var p := s.pending[t];
            if !Living(s, p.actor) then Fire(s, t) == s.(pending := s.pending - {t})
            else
              var was := s.actors[p.actor];
              Sent(s.(pending := s.pending - {t},
                      actors := s.actors[p.actor := was.(timers := was.timers - {p.sendId})]),
                   p.actor, p.target, p.event, Fire(s, t))
  {
    var p := s.pending[t];
    assert Kept(s, t, p);
    if Living(s, p.actor) {
      var was := s.actors[p.actor];
      DeliverExact(s.(pending := s.pending - {t},
                      actors := s.actors[p.actor := was.(timers := was.timers - {p.sendId})]),
                   p.actor, p.target, p.event);
    }
  }

  /** Starting an actor posts one task, the first time. */
  lemma {:induction false} StartExact(s: Sys, a: nat)
    requires a < |s.actors|
    ensures var s1 := Start(s, a);
            && Start(s1, a) == s1
            && (s.actors[a].startRequested ==> s1 == s)
            && (!s.actors[a].startRequested ==>
                  Becomes(s, a, s.actors[a].(startRequested := true), s.pending, [StartJob(a)], s1))
  {}

  /**
   An actor that has a snapshot is not started again, and one that is not active
   takes no event: such tasks change nothing, whatever the logic would answer.
   */
  lemma {:induction false} TaskIgnored(s: Sys, job: Job, o: Outcome, on: Reactions)
    requires job.actor < |s.actors|
    requires if job.StartJob? then s.actors[job.actor].status != None
             else if job.ReceiveJob? then s.actors[job.actor].status != Some(F.Active)
             else s.actors[job.actor].status == Some(F.Stopped)
    ensures RunJob(s, job, o, on) == s
  {}

  /**
   Once its children are stopped, an actor that stops has no timers and no
   children left when its logic reacts; only then does its status change.
   */
  lemma {:induction false} StopRestExact(s: Sys, a: nat, effects: seq<Effect>) returns (mid: Sys)
    requires Inv(s) && Living(s, a)
    ensures mid == s.(actors := s.actors[a := s.actors[a].(children := map[], timers := map[])], pending := mid.pending)
    ensures forall t :: t in mid.pending <==> t in s.pending && s.pending[t].actor != a
    ensures StopRest(s, a, effects) == SetStatus(ApplyEffects(mid, a, effects), a, F.Stopped)
  {
    mid := Cleared(s, a);
    ClearedInv(s, a);
    var s2 := Put(s, a, s.actors[a].(children := map[]));
    TableTimers(s2, a) by {
      LinksKept(s, s2, a);
      TimersKept(s, s2);
    }
    ClearAllFacts(s2, TimersOf(s2.actors[a]));
  }
}
