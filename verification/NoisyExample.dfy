/**
 A run of an actor system in which an actor is told to stop and does not: its
 child stops first, and an observer of the child throws.
 */
module NoisyExamples {
  import opened Basics
  import opened Keys
  import opened Actions
  import opened ActorSpecs
  import opened ActorRuns
  import F = Finals

  const CHILD := "child"
  const SOURCE := "source"

  const QUIET := Reactions(_ => [], _ => false)

  /** An observer of the child throws when the child has stopped. */
  const NOISY := Reactions(_ => [], a => a == 1)

  /** The root starts and spawns a child, is told to stop, the child starts, and then the root stops. */
  const STEPS := [
    Step.Call(StartJob(0)),
    RunNext(Yields(F.Active, [SpawnChild(CHILD, SOURCE, false)], false), QUIET),
    Step.Call(StopJob(0)),
    RunNext(Yields(F.Active, [], false), QUIET),
    RunNext(Yields(F.Active, [], false), NOISY)]

  const FAMILY: map<string, nat> := map[CHILD := 1]

  function Root(status: Option<F.Status>, children: map<string, nat>): Actor {
    Actor(true, "root", -1, status, map[], children, false, true)
  }

  function Spawned(status: Option<F.Status>): Actor {
    Actor(true, CHILD, 0, status, map[], map[], false, true)
  }

  function Holding(actors: seq<Actor>, queue: seq<Job>): Sys {
    Sys(actors, map[], 1, queue, map[], {SOURCE}, 0, [])
  }

  /** The system after each step. */
  const STATES := [
    NewSystem(map[], {SOURCE}),
    Holding([Root(None, map[])], [StartJob(0)]),
    Holding([Root(Some(F.Active), FAMILY), Spawned(None)], [StartJob(1)]),
    Holding([Root(Some(F.Active), FAMILY), Spawned(None)], [StartJob(1), StopJob(0)]),
    Holding([Root(Some(F.Active), FAMILY), Spawned(Some(F.Active))], [StopJob(0)]),
    Holding([Root(Some(F.Active), FAMILY), Spawned(Some(F.Stopped))], [])]

  lemma Starts()
    ensures Happens(STATES[0], STEPS[0], STATES[1])
  {}

  lemma Spawns()
    ensures Happens(STATES[1], STEPS[1], STATES[2])
  {
    var s := STATES[1].(queue := []);
    var s1 := SetStatus(s, 0, F.Active);
    var e := SpawnChild(CHILD, SOURCE, false);
    assert STATES[1].queue[1..] == [];
    assert s1.actors == [Root(Some(F.Active), map[])];
    assert s1.actors + [Born(CHILD, 0)] == [Root(Some(F.Active), map[]), Born(CHILD, 0)];
    assert ApplyEffects(s1, 0, [e]) == ApplyEffects(ApplyEffect(s1, 0, e), 0, []);
    assert ApplyEffect(s1, 0, e) == STATES[2];
  }

  lemma Told()
    ensures Happens(STATES[2], STEPS[2], STATES[3])
  {}

  lemma ChildStarts()
    ensures Happens(STATES[3], STEPS[3], STATES[4])
  {
    assert STATES[3].queue[1..] == [StopJob(0)];
  }

  /** The child is the root's only one, and has none itself. */
  lemma OnlyChild(status: Option<F.Status>)
    ensures Kids(Root(status, FAMILY)) == [1]
    ensures forall own :: Kids(Spawned(own)) == [] && TimersOf(Spawned(own)) == []
  {
    assert CHILD in FAMILY;
    AscendingKeysUnique(Sorted(FAMILY.Keys), [CHILD]);
    assert FAMILY[CHILD] == 1;
    AscendingKeysUnique(Sorted({}), []);
  }

  lemma ChildStops(s: Sys)
    requires s == STATES[4].(queue := [])
    ensures DoStop(s, 1, NOISY, 2) == StopResult(STATES[5], true)
  {
    OnlyChild(None);
    assert s.actors[1] == Spawned(Some(F.Active));
    assert StopEach(s, 1, [], NOISY, 2) == StopResult(s, false);
    assert s.actors[1 := Spawned(Some(F.Active))] == s.actors;
  }

  lemma RootDoesNot()
    ensures Happens(STATES[4], STEPS[4], STATES[5])
  {
    var s := STATES[4].(queue := []);
    assert STATES[4].queue[1..] == [];
    OnlyChild(Some(F.Active));
    ChildStops(s);
    assert StopEach(s, 0, [1], NOISY, 2) == StopResult(STATES[5], true);
  }

  /**
   The run exists, its last step stops a child that is noisy by then, and
   after it the root, told to stop, is active and still has its child.
   */
  lemma NoisyReached()
    ensures Reached(STATES, STEPS) && STATES[4].queue == [StopJob(0)]
    ensures 1 in Kids(STATES[4].actors[0]) && Noisy(STATES[4], 1, NOISY, 2) && Noisy(STATES[4], 0, NOISY, 2)
    ensures STATES[5].actors[0].status == Some(F.Active) && STATES[5].actors[0].children == map[CHILD := 1]
    ensures STATES[5].actors[1].status == Some(F.Stopped)
  {
    forall i | 0 <= i < |STEPS| ensures HappensAt(STATES, STEPS, i) {
      Starts();
      Spawns();
      Told();
      ChildStarts();
      RootDoesNot();
      assert i in {0, 1, 2, 3, 4};
    }
    OnlyChild(Some(F.Active));
    assert STATES[0] == NewSystem(map[], {SOURCE});
    assert Noisy(STATES[4], 1, NOISY, 2);
  }
}
