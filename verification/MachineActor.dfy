/**
 The actor that runs a machine: its own tables hold what replaying the
 machine's effects says is running, but for timers that have fired.
 */
module MachineActors {
  import opened StateNodes
  import opened Configurations
  import opened Actions
  import Lifetimes
  import opened ActorSpecs
  import opened Replays

  /** The actor has an entry for the task in its tables. */
  predicate Tabled(actor: Actor, k: Task) {
    match k
    case Timer(id) => id in actor.timers
    case Child(id) => id in actor.children
  }

  /** The tables hold exactly what has been started and not ended, but for what has fired. */
  ghost predicate TablesFollow(actor: Actor, live: Live, fired: set<Task>) {
    forall k {:trigger Tabled(actor, k)} :: Tabled(actor, k) <==> live[k] > 0 && k !in fired
  }

  /** Starting a timer again takes it from those that have fired. */
  function RefreshedBy(e: Effect, fired: set<Task>): set<Task> {
    var k := Starting(e);
    if k.Some? then fired - {k.value} else fired
  }

  function Refreshed(effects: seq<Effect>, fired: set<Task>): set<Task> {
    if effects == [] then fired else Refreshed(effects[1..], RefreshedBy(effects[0], fired))
  }

  /** Every child that is spawned has a logic factory; others are dropped. */
  ghost predicate FactoriesKnown(effects: seq<Effect>, factories: set<string>) {
    forall e :: e in effects && e.SpawnChild? ==> e.src in factories
  }

  /** `actor'` has the timers and children with these ids. */
  ghost predicate HasTables(actor: Actor, timers: set<string>, children: set<string>) {
    actor.timers.Keys == timers && actor.children.Keys == children
  }

  lemma {:induction false} StartTables(s: Sys, a: nat, id: string, event: Event, target: string)
    requires a < |s.actors|
    ensures var actor := s.actors[a];
            HasTables(StartTimerOf(s, a, id, event, target).actors[a], actor.timers.Keys + {id}, actor.children.Keys)
  {}

  lemma {:induction false} CancelTables(s: Sys, a: nat, id: string)
    requires a < |s.actors|
    ensures var actor := s.actors[a];
            HasTables(CancelTimerOf(s, a, id).actors[a], actor.timers.Keys - {id}, actor.children.Keys)
  {}

  lemma {:induction false} SpawnTables(s: Sys, a: nat, id: string, src: string)
    requires a < |s.actors| && src in s.factories
    ensures var actor := s.actors[a];
            HasTables(SpawnOf(s, a, id, src).actors[a], actor.timers.Keys, actor.children.Keys + {id})
  {
    var child := |s.actors|;
    var s1 := s.(actors := s.actors + [Born(id, a)]);
    var s2 := Put(s1, a, s1.actors[a].(children := s1.actors[a].children[id := child]));
    assert s1.actors[a] == s.actors[a] && s2.actors[a].children == s.actors[a].children[id := child];
    assert Start(s2, child).actors[a] == s2.actors[a];
  }

  lemma {:induction false} StopTables(s: Sys, a: nat, id: string)
    requires a < |s.actors|
    ensures var actor := s.actors[a];
            HasTables(StopChildOf(s, a, id).actors[a], actor.timers.Keys, actor.children.Keys - {id})
  {}

  lemma {:induction false} EffectFollowed(s: Sys, a: nat, e: Effect, live: Live, fired: set<Task>)
    requires a < |s.actors| && TablesFollow(s.actors[a], live, fired) && (e.SpawnChild? ==> e.src in s.factories)
    ensures TablesFollow(ApplyEffect(s, a, e).actors[a], Apply(e, live), RefreshedBy(e, fired))
  {
    var actor, actor', live' := s.actors[a], ApplyEffect(s, a, e).actors[a], Apply(e, live);
    match e {
      case StartTimer(id, target, event, _) => StartTables(s, a, id, event, target);
      case CancelTimer(id) => CancelTables(s, a, id);
      case SpawnChild(id, src, _) => SpawnTables(s, a, id, src);
      case StopChild(id) => StopTables(s, a, id);
      case _ =>
    }
    forall k ensures Tabled(actor', k) <==> live'[k] > 0 && k !in RefreshedBy(e, fired) {
      assert Tabled(actor, k) <==> live[k] > 0 && k !in fired;
    }
  }

  lemma FactoriesStay(s: Sys, a: nat, e: Effect)
    requires a < |s.actors|
    ensures ApplyEffect(s, a, e).factories == s.factories
  {}

  lemma {:induction false} EffectsFollowed(s: Sys, a: nat, effects: seq<Effect>, live: Live, fired: set<Task>)
    requires a < |s.actors| && TablesFollow(s.actors[a], live, fired) && FactoriesKnown(effects, s.factories)
    ensures TablesFollow(ApplyEffects(s, a, effects).actors[a], Replay(effects, live), Refreshed(effects, fired))
    decreases |effects|
  {
    if effects != [] {
      var e := effects[0];
      EffectFollowed(s, a, e, live, fired);
      FactoriesStay(s, a, e);
      EffectsFollowed(ApplyEffect(s, a, e), a, effects[1..], Apply(e, live), RefreshedBy(e, fired));
    }
  }

  // ---- whatever happens to the actor ----

  /** The actor executes effects, one of its timers fires, or something happens that leaves its tables alone. */
  datatype Happening = Executes(effects: seq<Effect>) | TimerFires(timer: nat) | Elsewhere(next: Sys)

  ghost predicate SameTables(s: Sys, s': Sys, a: nat) {
    && a < |s.actors| && a < |s'.actors| && s'.factories == s.factories && s'.actors[a].alive == s.actors[a].alive
    && s'.actors[a].timers == s.actors[a].timers && s'.actors[a].children == s.actors[a].children
  }

  ghost predicate CanHappen(s: Sys, a: nat, h: Happening) {
    && a < |s.actors| && s.actors[a].alive
    && match h
       case Executes(effects) => FactoriesKnown(effects, s.factories)
       case TimerFires(t) => t in s.pending && s.pending[t].actor == a
       case Elsewhere(next) => SameTables(s, next, a)
  }

  ghost function Happened(s: Sys, a: nat, h: Happening): (s': Sys)
    requires CanHappen(s, a, h)
    ensures a < |s'.actors|
  {
    match h
    case Executes(effects) => ApplyEffects(s, a, effects)
    case TimerFires(t) => Fire(s, t)
    case Elsewhere(next) => next
  }

  ghost predicate AllCanHappen(s: Sys, a: nat, hs: seq<Happening>)
    decreases |hs|
  {
    a < |s.actors| && (hs == [] || (CanHappen(s, a, hs[0]) && AllCanHappen(Happened(s, a, hs[0]), a, hs[1..])))
  }

  ghost function AtEnd(s: Sys, a: nat, hs: seq<Happening>): (s': Sys)
    requires AllCanHappen(s, a, hs)
    ensures a < |s'.actors|
    decreases |hs|
  {
    if hs == [] then s else AtEnd(Happened(s, a, hs[0]), a, hs[1..])
  }

  function EffectsIn(hs: seq<Happening>): seq<Effect> {
    if hs == [] then [] else (if hs[0].Executes? then hs[0].effects else []) + EffectsIn(hs[1..])
  }

  /** What one happening does to the timers that have fired and not been started since. */
  ghost function FiredBy(s: Sys, a: nat, h: Happening, fired: set<Task>): set<Task>
    requires CanHappen(s, a, h)
  {
    match h
    case Executes(effects) => Refreshed(effects, fired)
    case TimerFires(t) => fired + {Timer(s.pending[t].sendId)}
    case Elsewhere(_) => fired
  }

  /** The timers that have fired and not been started since. */
  ghost function FiredIn(s: Sys, a: nat, hs: seq<Happening>, fired: set<Task>): set<Task>
    requires AllCanHappen(s, a, hs)
    decreases |hs|
  {
    if hs == [] then fired else FiredIn(Happened(s, a, hs[0]), a, hs[1..], FiredBy(s, a, hs[0], fired))
  }

  /** A timer that fires is gone from the tables. */
  lemma {:induction false} FiringFollowed(s: Sys, a: nat, t: nat, live: Live, fired: set<Task>)
    requires CanHappen(s, a, TimerFires(t)) && TablesFollow(s.actors[a], live, fired)
    ensures TablesFollow(Fire(s, t).actors[a], live, fired + {Timer(s.pending[t].sendId)})
  {
    var p, actor, actor' := s.pending[t], s.actors[a], Fire(s, t).actors[a];
    assert HasTables(actor', actor.timers.Keys - {p.sendId}, actor.children.Keys);
    forall k ensures Tabled(actor', k) <==> live[k] > 0 && k !in fired + {Timer(p.sendId)} {
      assert Tabled(actor, k) <==> live[k] > 0 && k !in fired;
    }
  }

  lemma {:induction false} ElsewhereFollowed(s: Sys, a: nat, next: Sys, live: Live, fired: set<Task>)
    requires SameTables(s, next, a) && TablesFollow(s.actors[a], live, fired)
    ensures TablesFollow(next.actors[a], live, fired)
  {
    forall k ensures Tabled(next.actors[a], k) <==> live[k] > 0 && k !in fired {
      assert Tabled(s.actors[a], k) <==> live[k] > 0 && k !in fired;
    }
  }

  /** Whatever happens, the tables follow what the effects have started and ended and what has fired. */
  lemma {:induction false} AllFollowed(s: Sys, a: nat, hs: seq<Happening>, live: Live, fired: set<Task>)
    requires AllCanHappen(s, a, hs) && TablesFollow(s.actors[a], live, fired)
    ensures TablesFollow(AtEnd(s, a, hs).actors[a], Replay(EffectsIn(hs), live), FiredIn(s, a, hs, fired))
    decreases |hs|
  {
    if hs != [] {
      match hs[0] {
        case Executes(effects) =>
          EffectsFollowed(s, a, effects, live, fired);
          AllFollowed(Happened(s, a, hs[0]), a, hs[1..], Replay(effects, live), FiredBy(s, a, hs[0], fired));
          ReplayConcat(effects, EffectsIn(hs[1..]), live);
        case TimerFires(t) =>
          FiringFollowed(s, a, t, live, fired);
          AllFollowed(Happened(s, a, hs[0]), a, hs[1..], live, FiredBy(s, a, hs[0], fired));
          assert [] + EffectsIn(hs[1..]) == EffectsIn(hs[1..]);
        case Elsewhere(next) =>
          ElsewhereFollowed(s, a, next, live, fired);
          AllFollowed(next, a, hs[1..], live, fired);
          assert [] + EffectsIn(hs[1..]) == EffectsIn(hs[1..]);
      }
    }
  }

  /** Only timers fire. */
  lemma {:induction false} ChildrenDoNotFire(s: Sys, a: nat, hs: seq<Happening>, fired: set<Task>)
    requires AllCanHappen(s, a, hs) && forall k :: k in fired ==> k.Timer?
    ensures forall k :: k in FiredIn(s, a, hs, fired) ==> k.Timer?
    decreases |hs|
  {
    if hs != [] {
      if hs[0].Executes? { RefreshedFewer(hs[0].effects, fired); }
      ChildrenDoNotFire(Happened(s, a, hs[0]), a, hs[1..], FiredBy(s, a, hs[0], fired));
    }
  }

  lemma {:induction false} RefreshedFewer(effects: seq<Effect>, fired: set<Task>)
    ensures Refreshed(effects, fired) <= fired
  {
    if effects != [] {
      RefreshedFewer(effects[1..], RefreshedBy(effects[0], fired));
    }
  }

  /**
   If replaying the effects leaves exactly the tasks of `nodes` running, then
   the actor, whatever has happened to it, has in its tables exactly the
   invoked children of `nodes`, and of their `after` timers those that have not
   fired since they were last started.
   */
  lemma {:induction false} TablesMirror(c: Chart, s: Sys, a: nat, hs: seq<Happening>, live: Live, nodes: set<int>,
                                        n: int, k: Task)
    requires AllCanHappen(s, a, hs) && TablesFollow(s.actors[a], live, {})
    requires Mirrors(c, Replay(EffectsIn(hs), live), nodes) && OwnedBy(c, n, k)
    ensures Tabled(AtEnd(s, a, hs).actors[a], k) <==> n in nodes && k !in FiredIn(s, a, hs, {})
    ensures k.Child? ==> (Tabled(AtEnd(s, a, hs).actors[a], k) <==> n in nodes)
  {
    AllFollowed(s, a, hs, live, {});
    ChildrenDoNotFire(s, a, hs, {});
    assert Tabled(AtEnd(s, a, hs).actors[a], k) <==>
           Replay(EffectsIn(hs), live)[k] > 0 && k !in FiredIn(s, a, hs, {});
  }

  lemma {:induction false} EmptyFollows(actor: Actor)
    requires HasTables(actor, {}, {})
    ensures TablesFollow(actor, multiset{}, {})
  {
    forall k ensures !Tabled(actor, k) {
      match k
      case Timer(id) => assert id !in actor.timers.Keys;
      case Child(id) => assert id !in actor.children.Keys;
    }
  }

  /** So at every point of a life that an actor with empty tables has run from its start. */
  lemma {:induction false} LifeTables(c: WFChart, s: Sys, a: nat, hs: seq<Happening>, l: Lifetimes.Life,
                                      l0: Lifetimes.Life, n: int, k: Task)
    requires AllCanHappen(s, a, hs) && HasTables(s.actors[a], {}, {})
    requires Tidy(c) && Lifetimes.IsLife(c, l) && Lifetimes.IsLife(c, l0) && l0.Born? && Lifetimes.Extends(l, l0)
    requires EffectsIn(hs) == Lifetimes.EffectsOfLife(l) && OwnedBy(c, n, k)
    ensures Tabled(AtEnd(s, a, hs).actors[a], k) <==> n in Running(l.snap) && k !in FiredIn(s, a, hs, {})
    ensures k.Child? ==> (Tabled(AtEnd(s, a, hs).actors[a], k) <==> n in Running(l.snap))
  {
    WholeLifeReplayed(c, l, l0);
    EmptyFollows(s.actors[a]);
    TablesMirror(c, s, a, hs, multiset{}, Running(l.snap), n, k);
  }
}
