/** The registry of running tunes and of the one exclusive reservation for a write or a revert: the
    object behind the mutex, and every interleaving of the tasks, wrappers and callers around it. */
module ActiveRun {
  import opened Wrappers

  // ----- The registry -----

  /** `tasks` records for each registered tune whether its cancellation has been triggered. */
  datatype Registry = Registry(tasks: map<int, bool>, exclusive: Option<int>)

  datatype RunAlreadyActive = RunAlreadyActive(runId: int)

  function Started(r: Registry, runId: int): (Registry, Result<(), RunAlreadyActive>) {
    if r.exclusive.Some? then (r, Err(RunAlreadyActive(r.exclusive.value)))
    else if runId in r.tasks then (r, Err(RunAlreadyActive(runId)))
    else (r.(tasks := r.tasks[runId := false]), Ok(()))
  }

  function Cancelled(r: Registry, runId: int): (Registry, bool) {
    if runId in r.tasks then (r.(tasks := r.tasks[runId := true]), true)
    else (r, r.exclusive == Some(runId))
  }

  function Released(r: Registry, runId: int): Registry {
    if r.exclusive == Some(runId) then r.(exclusive := None)
    else r.(tasks := r.tasks - {runId})
  }

  predicate IsFirstKey(tasks: map<int, bool>, k: int) {
    k in tasks && forall j | j in tasks :: k <= j
  }

  ghost predicate IsLeast(k: int, keys: set<int>) {
    k in keys && forall j | j in keys :: k <= j
  }

  lemma EmptyOrInhabited(keys: set<int>)
    ensures keys == {} || exists k :: k in keys
  {
    if !exists k :: k in keys {
      assert keys == {};
    }
  }

  lemma {:induction false} LeastExists(keys: set<int>) returns (least: int)
    requires keys != {}
    ensures IsLeast(least, keys)
    decreases keys
  {
    EmptyOrInhabited(keys);
    least :| least in keys;
    var rest := keys - {least};
    if rest != {} {
      var other := LeastExists(rest);
      assert keys == rest + {least};
      if other < least {
        least := other;
      }
    } else {
      assert keys == {least};
    }
  }

  predicate Reservable(r: Registry) {
    r.exclusive.None? && r.tasks == map[]
  }

  class ActiveRunRegistry {
    var tasks: map<int, bool>
    var exclusive: Option<int>

    ghost function View(): Registry
      reads this
    {
      Registry(tasks, exclusive)
    }

    constructor ()
      ensures View() == Registry(map[], None)
    {
      tasks, exclusive := map[], None;
    }

    method Start(runId: int) returns (r: Result<(), RunAlreadyActive>)
      modifies this
      ensures (View(), r) == Started(old(View()), runId)
      ensures r.Ok? <==> old(exclusive).None? && runId !in old(tasks)
      ensures r.Ok? ==> tasks == old(tasks)[runId := false] && exclusive == None
      ensures r.Err? ==> View() == old(View())
      ensures r.Err? ==> r.error.runId == (if exclusive.Some? then exclusive.value else runId)
    {
      if exclusive.Some? {
        return Err(RunAlreadyActive(exclusive.value));
      }
      if runId in tasks {
        return Err(RunAlreadyActive(runId));
      }
      tasks := tasks[runId := false];
      r := Ok(());
    }

    method Reserve(runId: int) returns (r: Result<(), RunAlreadyActive>)
      modifies this
      ensures r.Ok? <==> Reservable(old(View()))
      ensures View() == if r.Ok? then Registry(map[], Some(runId)) else old(View())
      ensures r.Err? ==>
        if old(exclusive).Some? then r.error.runId == old(exclusive).value else IsFirstKey(tasks, r.error.runId)
    {
      if exclusive.Some? {
        return Err(RunAlreadyActive(exclusive.value));
      }
      if tasks != map[] {
        ghost var least := LeastExists(tasks.Keys);
        assert IsLeast(least, tasks.Keys);
        var first :| first in tasks && forall j | j in tasks :: first <= j;
        return Err(RunAlreadyActive(first));
      }
      exclusive := Some(runId);
      r := Ok(());
    }

    method Cancel(runId: int) returns (found: bool)
      modifies this
      ensures (View(), found) == Cancelled(old(View()), runId)
      ensures found <==> runId in tasks || exclusive == Some(runId)
      ensures exclusive == old(exclusive) && tasks.Keys == old(tasks).Keys
      ensures forall k | k in tasks :: tasks[k] == (k == runId || old(tasks)[k])
    {
      if runId in tasks {
        tasks := tasks[runId := true];
        found := true;
      } else {
        found := exclusive == Some(runId);
      }
    }

    method Release(runId: int)
      modifies this
      ensures View() == Released(old(View()), runId)
      ensures if old(exclusive) == Some(runId) then exclusive == None && tasks == old(tasks)
              else exclusive == old(exclusive) && tasks == old(tasks) - {runId}
    {
      if exclusive == Some(runId) {
        exclusive := None;
      } else {
        tasks := tasks - {runId};
      }
    }

    /** The first, atomic step of shutting down: everything is taken out and cancelled. */
    method TakeAll() returns (taken: map<int, bool>)
      modifies this
      ensures View() == Registry(map[], None)
      ensures taken.Keys == old(tasks).Keys && forall k | k in taken :: taken[k]
    {
      taken := map k | k in tasks :: true;
      tasks, exclusive := map[], None;
    }
  }

  // ----- Every interleaving -----

  /** The registry and what happens around it: tunes still running, wrappers whose tune has ended but
      whose release is still to come, and callers holding a reservation. */
  datatype World = World(registry: Registry, running: multiset<int>, ended: multiset<int>, holders: multiset<int>)

  const START := World(Registry(map[], None), multiset{}, multiset{}, multiset{})

  datatype Event =
    | StartTune(runId: int)
    | ReserveFor(runId: int)
    | HolderRelease(runId: int)
    | TuneEnds(runId: int)
    | WrapperRelease(runId: int)
    | CancelRun(runId: int)
    | Shutdown

  predicate Enabled(w: World, e: Event) {
    match e
    case HolderRelease(id) => id in w.holders
    case TuneEnds(id) => id in w.running
    case WrapperRelease(id) => id in w.ended
    case _ => true
  }

  function Apply(w: World, e: Event): World {
    match e
    case StartTune(id) =>
      var (r, result) := Started(w.registry, id);
      w.(registry := r, running := if result.Ok? then w.running + multiset{id} else w.running)
    case ReserveFor(id) =>
      if Reservable(w.registry)
      then w.(registry := Registry(map[], Some(id)), holders := w.holders + multiset{id})
      else w
    case HolderRelease(id) =>
      w.(registry := Released(w.registry, id), holders := w.holders - multiset{id})
    case TuneEnds(id) =>
      w.(running := w.running - multiset{id}, ended := w.ended + multiset{id})
    case WrapperRelease(id) =>
      w.(registry := Released(w.registry, id), ended := w.ended - multiset{id})
    case CancelRun(id) =>
      w.(registry := Cancelled(w.registry, id).0)
    case Shutdown =>
      w.(registry := Registry(map[], None))
  }

  function KeysOf(r: Registry): multiset<int> { multiset(r.tasks.Keys) }

  function ReservationOf(r: Registry): multiset<int> {
    if r.exclusive.Some? then multiset{r.exclusive.value} else multiset{}
  }

  /** Every unfinished wrapper has exactly its own registration, the reservation is exactly its
      holder's, and it excludes every tune. */
  ghost predicate Consistent(w: World) {
    && KeysOf(w.registry) == w.running + w.ended
    && ReservationOf(w.registry) == w.holders
    && (w.registry.exclusive.Some? ==> w.registry.tasks == map[])
  }

  /** What consistency means for a live loop: a reservation holder and a running tune never coexist,
      every running tune can be found and cancelled, no run has two wrappers, and there is at most one
      holder. */
  lemma ConsistentIsSafe(w: World)
    requires Consistent(w)
    ensures w.holders != multiset{} ==> w.running == w.ended == multiset{}
    ensures forall id | id in w.running :: id in w.registry.tasks && Cancelled(w.registry, id).1
    ensures forall id :: (w.running + w.ended)[id] <= 1
    ensures |w.holders| <= 1
  {
    if w.holders != multiset{} {
      assert KeysOf(w.registry) == multiset{};
      assert w.running + w.ended == multiset{};
    }
    forall id | id in w.running ensures id in w.registry.tasks {
      assert id in w.running + w.ended;
    }
    forall id ensures (w.running + w.ended)[id] <= 1 {
      assert KeysOf(w.registry)[id] <= 1;
    }
  }

  lemma StepKeepsConsistent(w: World, e: Event)
    requires Consistent(w) && Enabled(w, e) && !e.Shutdown?
    ensures Consistent(Apply(w, e))
  {
    match e {
      case StartTune(id) => StartKeepsConsistent(w, id);
      case ReserveFor(id) => ReserveKeepsConsistent(w, id);
      case HolderRelease(id) => HolderReleaseKeepsConsistent(w, id);
      case TuneEnds(id) => assert Apply(w, e).running + Apply(w, e).ended == w.running + w.ended;
      case WrapperRelease(id) => WrapperReleaseKeepsConsistent(w, id);
      case CancelRun(id) => assert Apply(w, e).registry.tasks.Keys == w.registry.tasks.Keys;
    }
  }

  lemma StartKeepsConsistent(w: World, id: int)
    requires Consistent(w)
    ensures Consistent(Apply(w, StartTune(id)))
  {
    var next := Apply(w, StartTune(id));
    if Started(w.registry, id).1.Ok? {
      assert next.registry.tasks.Keys == w.registry.tasks.Keys + {id};
      assert KeysOf(next.registry) == KeysOf(w.registry) + multiset{id};
      assert next.running + next.ended == w.running + w.ended + multiset{id};
    }
  }

  lemma ReserveKeepsConsistent(w: World, id: int)
    requires Consistent(w)
    ensures Consistent(Apply(w, ReserveFor(id)))
  {
    if Reservable(w.registry) {
      assert w.holders == multiset{};
    }
  }

  lemma HolderReleaseKeepsConsistent(w: World, id: int)
    requires Consistent(w) && id in w.holders
    ensures Consistent(Apply(w, HolderRelease(id)))
  {
    assert id in ReservationOf(w.registry);
    assert w.registry.exclusive == Some(id);
    assert w.holders - multiset{id} == multiset{};
  }

  lemma WrapperReleaseKeepsConsistent(w: World, id: int)
    requires Consistent(w) && id in w.ended
    ensures Consistent(Apply(w, WrapperRelease(id)))
  {
    var next := Apply(w, WrapperRelease(id));
    WrapperFindsItsTask(w, id);
    assert next.registry.tasks.Keys == w.registry.tasks.Keys - {id};
    assert KeysOf(next.registry) == KeysOf(w.registry) - multiset{id};
    assert next.running + next.ended == w.running + w.ended - multiset{id};
  }

  /** A wrapper's release removes its own registration and never clears a reservation. */
  lemma WrapperFindsItsTask(w: World, id: int)
    requires Consistent(w) && id in w.ended
    ensures w.registry.exclusive.None? && id in w.registry.tasks
  {
    assert id in w.running + w.ended;
    assert id in KeysOf(w.registry);
  }

  ghost predicate IsRun(w: World, events: seq<Event>)
    decreases |events|
  {
    events == [] || (Enabled(w, events[0]) && IsRun(Apply(w, events[0]), events[1..]))
  }

  function After(w: World, events: seq<Event>): World
    decreases |events|
  {
    if events == [] then w else After(Apply(w, events[0]), events[1..])
  }

  /** Every run, of any length and in any order, until a shutdown begins. */
  lemma {:induction false} RunsAreConsistent(w: World, events: seq<Event>)
    requires Consistent(w) && IsRun(w, events) && Shutdown !in events
    ensures Consistent(After(w, events))
    decreases |events|
  {
    if events != [] {
      assert events[0] in events;
      StepKeepsConsistent(w, events[0]);
      RunsAreConsistent(Apply(w, events[0]), events[1..]);
    }
  }

  // ----- Cancelling -----

  lemma {:induction false} AfterAppend(w: World, events: seq<Event>, e: Event)
    ensures After(w, events + [e]) == Apply(After(w, events), e)
    decreases |events|
  {
    var all := events + [e];
    if events == [] {
      assert all[1..] == [];
    } else {
      assert all[1..] == events[1..] + [e];
      AfterAppend(Apply(w, events[0]), events[1..], e);
    }
  }

  /** One event cancels the registered tune it names and no other; a new registration starts uncancelled. */
  lemma CancelStep(w: World, e: Event, id: int)
    requires id in Apply(w, e).registry.tasks
    ensures Apply(w, e).registry.tasks[id]
      <==> id in w.registry.tasks && (w.registry.tasks[id] || e == CancelRun(id))
  {
    match e {
      case StartTune(other) => assert id in w.registry.tasks <==> id != other || !Started(w.registry, other).1.Ok?;
      case CancelRun(other) => assert Apply(w, e).registry.tasks.Keys == w.registry.tasks.Keys;
      case _ =>
    }
  }

  /** At position `i` the run was cancelled, and it has been registered ever since. */
  ghost predicate CancelledAt(w: World, events: seq<Event>, id: int, i: int) {
    && 0 <= i < |events| && events[i] == CancelRun(id)
    && forall j | i <= j <= |events| :: id in After(w, events[..j]).registry.tasks
  }

  /** Over any run, with or without shutdowns: a registered tune has been told to cancel if and only if it
      was named by a cancellation while registered, and has not been registered anew since. */
  lemma {:induction false} CancelledIsExact(events: seq<Event>, id: int)
    requires id in After(START, events).registry.tasks
    ensures After(START, events).registry.tasks[id] <==> exists i :: CancelledAt(START, events, id, i)
  {
    if events != [] {
      var n := |events| - 1;
      var before, e := events[..n], events[n];
      assert before + [e] == events;
      AfterAppend(START, before, e);
      CancelStep(After(START, before), e, id);
      if id in After(START, before).registry.tasks {
        CancelledIsExact(before, id);
      }
      CancelledExtends(START, events, id);
    }
  }

  lemma CancelledExtends(w: World, events: seq<Event>, id: int)
    requires events != [] && id in After(w, events).registry.tasks
    ensures var before, e := events[..|events| - 1], events[|events| - 1];
      (exists i :: CancelledAt(w, events, id, i))
      <==> id in After(w, before).registry.tasks && (e == CancelRun(id) || exists i :: CancelledAt(w, before, id, i))
  {
    var n := |events| - 1;
    var before := events[..n];
    assert events[..n + 1] == events;
    assert forall j | 0 <= j <= n :: before[..j] == events[..j];
    forall i | CancelledAt(w, events, id, i)
      ensures id in After(w, before).registry.tasks && (events[n] == CancelRun(id) || CancelledAt(w, before, id, i))
    {
      assert id in After(w, events[..n]).registry.tasks;
      if i < n {
        assert forall j | i <= j <= |before| :: before[..j] == events[..j];
      }
    }
    if id in After(w, before).registry.tasks {
      if events[n] == CancelRun(id) {
        assert CancelledAt(w, events, id, n);
      }
      forall i | CancelledAt(w, before, id, i) ensures CancelledAt(w, events, id, i) {
        forall j | i <= j <= |events| ensures id in After(w, events[..j]).registry.tasks {
          if j <= n {
            assert before[..j] == events[..j];
          }
        }
      }
    }
  }

  // ----- Shutdown -----

  /** No reservation is held beside a running tune. */
  predicate Exclusive(w: World) {
    w.holders != multiset{} ==> w.running == multiset{}
  }

  ghost predicate LeadsToCollision(w: World, events: seq<Event>) {
    IsRun(w, events) && Shutdown !in events && !Exclusive(After(w, events))
  }

  /** Whether a reservation can come to be held beside a running tune without another shutdown. */
  ghost predicate CanCollide(w: World) {
    exists events :: LeadsToCollision(w, events)
  }

  lemma CollidesNow(w: World)
    requires !Exclusive(w)
    ensures CanCollide(w)
  {
    assert LeadsToCollision(w, []);
  }

  lemma CollidesLater(w: World, e: Event)
    requires Enabled(w, e) && !e.Shutdown? && CanCollide(Apply(w, e))
    ensures CanCollide(w)
  {
    var events :| LeadsToCollision(Apply(w, e), events);
    var all := [e] + events;
    assert all[0] == e && all[1..] == events;
    assert LeadsToCollision(w, all);
  }

  /** A tune left running does not keep a reservation from being granted once nothing is registered. */
  lemma TuneLeftCollides(w: World)
    requires w.running != multiset{} && w.registry == Registry(map[], None)
    ensures CanCollide(w)
  {
    CollidesNow(Apply(w, ReserveFor(0)));
    CollidesLater(w, ReserveFor(0));
  }

  lemma HolderLeftCollides(w: World)
    requires w.holders != multiset{} && w.registry == Registry(map[], None)
    ensures CanCollide(w)
  {
    CollidesNow(Apply(w, StartTune(0)));
    CollidesLater(w, StartTune(0));
  }

  /** The late release of a wrapper removes the registration of a new tune with the same id, which
      then runs on unregistered. */
  lemma LateReleaseUnregisters(w: World, id: int)
    requires w.registry == Registry(map[], None) && id in w.ended
    ensures var started := Apply(w, StartTune(id));
      var released := Apply(started, WrapperRelease(id));
      && Enabled(started, WrapperRelease(id))
      && id in released.running && id !in released.registry.tasks
      && released.registry == Registry(map[], None)
    ensures CanCollide(w)
  {
    var started := Apply(w, StartTune(id));
    var released := Apply(started, WrapperRelease(id));
    assert released.registry.tasks == map[];
    TuneLeftCollides(released);
    CollidesLater(started, WrapperRelease(id));
    CollidesLater(w, StartTune(id));
  }

  lemma SomeWrapper(ids: multiset<int>)
    ensures ids == multiset{} || exists id :: id in ids
  {
    if forall id :: id !in ids {
      assert ids == multiset{};
    }
  }

  /** No course of events short of a shutdown leads from a consistent world to a collision. */
  lemma ConsistentNeverCollides(w: World)
    requires Consistent(w)
    ensures !CanCollide(w)
  {
    forall events ensures !LeadsToCollision(w, events) {
      if IsRun(w, events) && Shutdown !in events {
        RunsAreConsistent(w, events);
        ConsistentIsSafe(After(w, events));
      }
    }
  }

  /** A shutdown empties the registry at once and only then waits, for the tunes and their wrappers but
      for no holder. A reservation can come to be held beside a running tune after it if and only if it
      left a tune, a wrapper or a holder behind. */
  lemma ShutdownIsExact(w: World)
    requires Consistent(w)
    ensures CanCollide(Apply(w, Shutdown))
      <==> w.running != multiset{} || w.ended != multiset{} || w.holders != multiset{}
  {
    var next := Apply(w, Shutdown);
    if w.running != multiset{} {
      TuneLeftCollides(next);
    } else if w.holders != multiset{} {
      HolderLeftCollides(next);
    } else if w.ended != multiset{} {
      SomeWrapper(w.ended);
      var id :| id in w.ended;
      LateReleaseUnregisters(next, id);
    } else {
      assert KeysOf(next.registry) == multiset{};
      ConsistentNeverCollides(next);
    }
  }

  /** Whether an event only lets what was already going on come to its end. */
  predicate Drains(e: Event) {
    e.HolderRelease? || e.TuneEnds? || e.WrapperRelease? || e.CancelRun?
  }

  /** If a shutdown's wait sees everything out before anything new begins, the registry is consistent
      again: late releases find nothing to remove. */
  lemma {:induction false} WaitingRestoresConsistency(w: World, events: seq<Event>)
    requires w.registry == Registry(map[], None) && IsRun(w, events)
    requires forall e | e in events :: Drains(e)
    ensures After(w, events).registry == Registry(map[], None)
    ensures var last := After(w, events);
      last.running == last.ended == last.holders == multiset{} ==> Consistent(last)
    decreases |events|
  {
    if events != [] {
      assert events[0] in events;
      WaitingRestoresConsistency(Apply(w, events[0]), events[1..]);
    }
  }
}
