/** Who may write to a live controller, and the trail every write leaves: the queues of previous
    values, and every interleaving of processes, heartbeats and audited writes on one database. */
module LiveOwnership {
  import opened Wrappers

  // ----- Previous values, queued per tag -----

  type Tag = string

  /** Values queued and not yet taken, over all tags, in the order they were queued. */
  type Pending = seq<(Tag, string)>

  function OfTag(pending: Pending, tag: Tag): seq<string> {
    if pending == [] then []
    else
      var before, last := OfTag(pending[..|pending| - 1], tag), pending[|pending| - 1];
      if last.0 == tag then before + [last.1] else before
  }

  /** The oldest pending value of a tag. */
  function Oldest(pending: Pending, tag: Tag): Option<string> {
    if OfTag(pending, tag) == [] then None else Some(OfTag(pending, tag)[0])
  }

  /** The pending values without the oldest one of a tag. */
  function WithoutOldest(pending: Pending, tag: Tag): Pending {
    if pending == [] then []
    else if pending[0].0 == tag then pending[1..]
    else [pending[0]] + WithoutOldest(pending[1..], tag)
  }

  lemma {:induction false} OfTagFromFront(pending: Pending, tag: Tag)
    requires pending != []
    ensures OfTag(pending, tag)
         == (if pending[0].0 == tag then [pending[0].1] else []) + OfTag(pending[1..], tag)
  {
    if |pending| > 1 {
      var n := |pending| - 1;
      OfTagFromFront(pending[..n], tag);
      assert pending[1..][..n - 1] == pending[..n][1..];
    }
  }

  lemma {:induction false} TakingOldest(pending: Pending, tag: Tag, other: Tag)
    ensures OfTag(WithoutOldest(pending, tag), other)
         == if other == tag && OfTag(pending, tag) != [] then OfTag(pending, tag)[1..] else OfTag(pending, other)
  {
    if pending != [] {
      OfTagFromFront(pending, other);
      OfTagFromFront(pending, tag);
      if pending[0].0 != tag {
        var rest := WithoutOldest(pending[1..], tag);
        TakingOldest(pending[1..], tag, other);
        OfTagFromFront([pending[0]] + rest, other);
        assert ([pending[0]] + rest)[1..] == rest;
      }
    }
  }

  class PreviousValues {
    var values: map<Tag, seq<string>>
    ghost var pending: Pending

    /** Each tag's queue is its pending values in order, and no empty queue is kept. */
    ghost predicate Valid()
      reads this
    {
      forall tag ::
        && (tag in values <==> OfTag(pending, tag) != [])
        && (tag in values ==> values[tag] == OfTag(pending, tag))
    }

    constructor ()
      ensures Valid() && pending == []
    {
      values, pending := map[], [];
    }

    method Queue(tag: Tag, value: string)
      requires Valid()
      modifies this
      ensures Valid() && pending == old(pending) + [(tag, value)]
    {
      var queue := if tag in values then values[tag] else [];
      values := values[tag := queue + [value]];
      pending := pending + [(tag, value)];
      assert pending[..|pending| - 1] == old(pending);
    }

    /** Hands out the oldest value queued for the tag. */
    method Take(tag: Tag) returns (r: Option<string>)
      requires Valid()
      modifies this
      ensures Valid() && pending == WithoutOldest(old(pending), tag)
      ensures r == Oldest(old(pending), tag)
    {
      ghost var was := pending;
      pending := WithoutOldest(pending, tag);
      forall other
        ensures OfTag(pending, other)
             == if other == tag && OfTag(was, tag) != [] then OfTag(was, tag)[1..] else OfTag(was, other)
      {
        TakingOldest(was, tag, other);
      }
      if tag !in values {
        return None;
      }
      var queue := values[tag];
      values := values[tag := queue[1..]];
      if queue[1..] == [] {
        values := values - {tag};
      }
      return Some(queue[0]);
    }

    method Clear()
      modifies this
      ensures Valid() && pending == []
    {
      values, pending := map[], [];
    }
  }

  // ----- Which previous value an intent carries -----

  /** How far an audited write gets with its previous value: refused before taking one, for an unhealthy
      guard or a target that is not finite; taking one that no intent records because the database fails;
      or recording it. */
  datatype Progress = Unhealthy | NotFinite | Taken | Recorded
  {
    predicate Refused() { Unhealthy? || NotFinite? }
  }

  /** A write whose caller has first queued the value it is about to overwrite. */
  datatype Attempt = Attempt(tag: Tag, value: string, progress: Progress)

  function Queued(attempts: seq<Attempt>): Pending
    requires attempts != []
    decreases |attempts|, 0
  {
    var n := |attempts| - 1;
    PendingAfter(attempts[..n]) + [(attempts[n].tag, attempts[n].value)]
  }

  /** What is still queued after some attempts. */
  function PendingAfter(attempts: seq<Attempt>): Pending
    decreases |attempts|, 1
  {
    if attempts == [] then []
    else
      var last := attempts[|attempts| - 1];
      if last.progress.Refused() then Queued(attempts) else WithoutOldest(Queued(attempts), last.tag)
  }

  /** The values queued for the writes to one tag, in order. */
  function ValuesOn(attempts: seq<Attempt>, tag: Tag): seq<string> {
    if attempts == [] then []
    else
      var before, last := ValuesOn(attempts[..|attempts| - 1], tag), attempts[|attempts| - 1];
      if last.tag == tag then before + [last.value] else before
  }

  /** How many writes to one tag were refused before taking a value. */
  function RefusedOn(attempts: seq<Attempt>, tag: Tag): (r: nat)
    ensures r <= |ValuesOn(attempts, tag)|
  {
    if attempts == [] then 0
    else
      var before, last := RefusedOn(attempts[..|attempts| - 1], tag), attempts[|attempts| - 1];
      if last.tag == tag && last.progress.Refused() then before + 1 else before
  }

  lemma OfTagAppend(pending: Pending, tag: Tag, other: Tag, value: string)
    ensures OfTag(pending + [(tag, value)], other) == OfTag(pending, other) + if tag == other then [value] else []
  {
    assert (pending + [(tag, value)])[..|pending|] == pending;
  }

  /** A tag's queue holds as many of its last values as there were refusals. */
  lemma {:induction false} PendingIsTail(attempts: seq<Attempt>, tag: Tag)
    ensures var values := ValuesOn(attempts, tag);
      OfTag(PendingAfter(attempts), tag) == values[|values| - RefusedOn(attempts, tag)..]
  {
    if attempts != [] {
      var n := |attempts| - 1;
      var last, values := attempts[n], ValuesOn(attempts[..n], tag);
      PendingIsTail(attempts[..n], tag);
      OfTagAppend(PendingAfter(attempts[..n]), last.tag, tag, last.value);
      if !last.progress.Refused() {
        TakingOldest(Queued(attempts), last.tag, tag);
      }
      if last.tag == tag {
        assert values[|values| - RefusedOn(attempts[..n], tag)..] + [last.value]
            == (values + [last.value])[|values| - RefusedOn(attempts[..n], tag)..];
      }
    }
  }

  /** The value the last attempt takes is the one queued as many writes to its tag earlier as were
      refused before it; it is its own if and only if none was, as far as the values can tell. */
  lemma CarriedValue(attempts: seq<Attempt>)
    requires attempts != []
    ensures var n := |attempts| - 1;
      var last, values := attempts[n], ValuesOn(attempts, attempts[n].tag);
      var lag := RefusedOn(attempts[..n], attempts[n].tag);
      var queue := OfTag(Queued(attempts), last.tag);
      && values != [] && values[|values| - 1] == last.value && lag < |values|
      && queue != [] && queue[0] == values[|values| - 1 - lag]
      && ((forall i, j | 0 <= i < j < |values| :: values[i] != values[j]) ==> (queue[0] == last.value <==> lag == 0))
  {
    var n := |attempts| - 1;
    var last, values := attempts[n], ValuesOn(attempts[..n], attempts[n].tag);
    PendingIsTail(attempts[..n], last.tag);
    OfTagAppend(PendingAfter(attempts[..n]), last.tag, last.tag, last.value);
  }

  /** A heartbeat failure is for good: once a guard has refused a write for it, it refuses every other. */
  ghost predicate Sticky(attempts: seq<Attempt>) {
    forall i, j | 0 <= i < j < |attempts| && attempts[i].progress.Unhealthy? :: attempts[j].progress.Unhealthy?
  }

  ghost predicate AllFinite(attempts: seq<Attempt>) {
    forall i | 0 <= i < |attempts| :: !attempts[i].progress.NotFinite?
  }

  lemma {:induction false} NoneRefused(attempts: seq<Attempt>, tag: Tag)
    requires forall i | 0 <= i < |attempts| :: !attempts[i].progress.Refused()
    ensures RefusedOn(attempts, tag) == 0
  {
    if attempts != [] {
      NoneRefused(attempts[..|attempts| - 1], tag);
    }
  }

  /** A guard that takes a value has been healthy all along. */
  lemma HealthySoFar(attempts: seq<Attempt>, i: nat)
    requires Sticky(attempts) && AllFinite(attempts) && i < |attempts|
    requires !attempts[|attempts| - 1].progress.Unhealthy?
    ensures !attempts[i].progress.Refused()
  {
  }

  /** As long as every target is finite, a write that takes a value takes its own. */
  lemma TakesItsOwn(attempts: seq<Attempt>)
    requires attempts != [] && Sticky(attempts) && AllFinite(attempts)
    requires !attempts[|attempts| - 1].progress.Unhealthy?
    ensures var last := attempts[|attempts| - 1];
      OfTag(Queued(attempts), last.tag) != [] && OfTag(Queued(attempts), last.tag)[0] == last.value
  {
    var n := |attempts| - 1;
    var before := attempts[..n];
    forall i | 0 <= i < |before| ensures !before[i].progress.Refused() {
      HealthySoFar(attempts, i);
    }
    NoneRefused(before, attempts[n].tag);
    CarriedValue(attempts);
  }

  /** A target that is not finite leaves its value behind for the next write to the tag. */
  lemma NotFiniteShifts(tag: Tag, first: string, second: string)
    requires first != second
    ensures var attempts := [Attempt(tag, first, NotFinite), Attempt(tag, second, Recorded)];
      && Sticky(attempts)
      && OfTag(Queued(attempts), tag) == [first, second]
  {
    var attempts := [Attempt(tag, first, NotFinite), Attempt(tag, second, Recorded)];
    var before := attempts[..1];
    assert before == [Attempt(tag, first, NotFinite)] && before[..0] == [];
    assert Queued(before) == PendingAfter(before[..0]) + [(tag, first)];
    assert PendingAfter(before) == [(tag, first)];
    assert Queued(attempts) == [(tag, first)] + [(tag, second)];
    OfTagAppend([(tag, first)], tag, tag, second);
    OfTagAppend([], tag, tag, first);
    assert [] + [(tag, first)] == [(tag, first)];
  }

  function ProgressOf(failed: bool, finite: bool, works: bool): Progress {
    if failed then Unhealthy else if !finite then NotFinite else if works then Recorded else Taken
  }

  /** What one more attempt does to the queue, on a guard whose health is as `failed` says. */
  lemma OneMore(attempts: seq<Attempt>, a: Attempt, failed: bool)
    requires Sticky(attempts) && (a.progress.Unhealthy? <==> failed)
    requires !failed ==> forall i | 0 <= i < |attempts| :: !attempts[i].progress.Unhealthy?
    ensures Sticky(attempts + [a])
    ensures Queued(attempts + [a]) == PendingAfter(attempts) + [(a.tag, a.value)]
    ensures PendingAfter(attempts + [a])
         == if a.progress.Refused() then Queued(attempts + [a]) else WithoutOldest(Queued(attempts + [a]), a.tag)
    ensures Oldest(Queued(attempts + [a]), a.tag).Some?
    ensures !a.progress.Refused() && AllFinite(attempts + [a]) ==>
      Oldest(Queued(attempts + [a]), a.tag) == Some(a.value)
  {
    var more := attempts + [a];
    assert more[..|attempts|] == attempts;
    CarriedValue(more);
    if !a.progress.Refused() && AllFinite(more) {
      TakesItsOwn(more);
    }
  }

  /** The audited driver and its guard's health, writing for callers that queue each previous value first. */
  class AuditedDriver {
    const guard: PreviousValues
    var heartbeatFailed: bool
    var intents: seq<(Tag, Option<string>)>
    ghost var attempts: seq<Attempt>

    ghost predicate Valid()
      reads this, guard
    {
      && guard.Valid() && guard.pending == PendingAfter(attempts)
      && Sticky(attempts)
      && (!heartbeatFailed ==> forall i | 0 <= i < |attempts| :: !attempts[i].progress.Unhealthy?)
    }

    constructor ()
      ensures Valid() && fresh(guard) && !heartbeatFailed && intents == [] && attempts == []
    {
      guard := new PreviousValues();
      heartbeatFailed, intents, attempts := false, [], [];
    }

    method FailHeartbeat()
      requires Valid()
      modifies `heartbeatFailed
      ensures Valid() && heartbeatFailed
    {
      heartbeatFailed := true;
    }

    /** Writes to a target that may not be `finite`; `works` says whether the database records the intent. */
    method Write(tag: Tag, finite: bool, works: bool) returns (intended: bool)
      requires guard.Valid()
      modifies `intents, guard
      ensures guard.Valid() && intended == (!heartbeatFailed && finite && works)
      ensures guard.pending
           == if heartbeatFailed || !finite then old(guard.pending) else WithoutOldest(old(guard.pending), tag)
      ensures intents == old(intents) + if intended then [(tag, Oldest(old(guard.pending), tag))] else []
    {
      if heartbeatFailed || !finite {
        return false;
      }
      var previous := guard.Take(tag);
      if !works {
        return false;
      }
      intents := intents + [(tag, previous)];
      return true;
    }

    /** Queues the value to be overwritten and writes. While every target has been finite, an intent carries
        the value queued for it. */
    method QueueAndWrite(tag: Tag, value: string, finite: bool, works: bool) returns (intended: bool)
      requires Valid()
      modifies `intents, `attempts, guard
      ensures Valid() && intended == (!heartbeatFailed && finite && works)
      ensures attempts == old(attempts) + [Attempt(tag, value, ProgressOf(heartbeatFailed, finite, works))]
      ensures intents == old(intents) + if intended then [(tag, Oldest(Queued(attempts), tag))] else []
      ensures intended && AllFinite(attempts) ==> Oldest(Queued(attempts), tag) == Some(value)
    {
      OneMore(attempts, Attempt(tag, value, ProgressOf(heartbeatFailed, finite, works)), heartbeatFailed);
      attempts := attempts + [Attempt(tag, value, ProgressOf(heartbeatFailed, finite, works))];
      guard.Queue(tag, value);
      assert guard.pending == Queued(attempts);
      intended := Write(tag, finite, works);
    }
  }

  // ----- Owners and audited writes -----

  type Key = string

  /** What happened, in order. A write is named by a number given to it when it starts, an owner by
      the number of its lock acquisition. */
  datatype Entry =
    | HeartbeatFailed(owner: nat)
    | Checked(write: nat, owner: nat)
    | Intended(write: nat, owner: nat)
    | Forwarded(write: nat, owner: nat)
    | Reached(write: nat, owner: nat)
    | Finished(write: nat, owner: nat)

  /** How far an audited write that its caller waits for has come: healthy, then recorded, then handed
      to the driver. */
  datatype Phase = IsChecked | IsIntended | IsForwarded

  datatype Guard = Guard(claim: Option<Key>, heartbeatFailed: bool)

  /** `airborne` are the writes handed to the driver, and their owners, that may yet reach the controller,
      whether or not anyone still waits for them. */
  datatype World = World(
    lock: Option<nat>,
    guards: map<nat, Guard>,
    claims: map<Key, nat>,
    writes: map<nat, (nat, Phase)>,
    airborne: map<nat, nat>,
    log: seq<Entry>,
    nextOwner: nat,
    nextWrite: nat)

  const START := World(None, map[], map[], map[], map[], [], 0, 0)

  datatype Event =
    | TryLock
    | Claim(owner: nat, key: Key)
    | Heartbeat(owner: nat, works: bool)
    | StartWrite(owner: nat)
    | BeginIntent(write: nat, works: bool)
    | Forward(write: nat)
    | Finish(write: nat)
    | Abandon(write: nat)
    | Reach(write: nat)
    | Release(owner: nat, works: bool)
    | Die(owner: nat)

  predicate HasWrites(w: World, owner: nat) {
    exists id | id in w.writes :: w.writes[id].0 == owner
  }

  predicate Owns(w: World, owner: nat) {
    owner in w.guards && w.guards[owner].claim.Some?
  }

  /** A guard can be released only once no write borrows it. A timeout or an interrupt can drop a write at
      any stage, and a process can die at any moment. */
  predicate Enabled(w: World, e: Event) {
    match e
    case TryLock => true
    case Claim(owner, _) => owner in w.guards && w.guards[owner].claim.None?
    case Heartbeat(owner, _) => Owns(w, owner)
    case StartWrite(owner) => Owns(w, owner)
    case BeginIntent(write, _) => write in w.writes && w.writes[write].1.IsChecked?
    case Forward(write) => write in w.writes && w.writes[write].1.IsIntended?
    case Finish(write) => write in w.writes && w.writes[write].1.IsForwarded?
    case Abandon(write) => write in w.writes
    case Reach(write) => write in w.airborne
    case Release(owner, _) => Owns(w, owner) && !HasWrites(w, owner)
    case Die(owner) => owner in w.guards
  }

  function Dropped(w: World, owner: nat): World {
    w.(guards := w.guards - {owner},
       lock := if w.lock == Some(owner) then None else w.lock,
       writes := map id | id in w.writes && w.writes[id].0 != owner :: w.writes[id])
  }

  function Apply(w: World, e: Event): World
    requires Enabled(w, e)
  {
    match e
    case TryLock =>
      // The kernel grants the lock to one holder at a time.
      if w.lock.Some? then w
      else w.(lock := Some(w.nextOwner), guards := w.guards[w.nextOwner := Guard(None, false)],
              nextOwner := w.nextOwner + 1)
    case Claim(owner, key) =>
      if key in w.claims then Dropped(w, owner)
      else w.(claims := w.claims[key := owner], guards := w.guards[owner := Guard(Some(key), false)])
    case Heartbeat(owner, works) =>
      if works then w
      else w.(guards := w.guards[owner := w.guards[owner].(heartbeatFailed := true)],
              log := w.log + [HeartbeatFailed(owner)])
    case StartWrite(owner) =>
      if w.guards[owner].heartbeatFailed then w
      else w.(writes := w.writes[w.nextWrite := (owner, IsChecked)],
              log := w.log + [Checked(w.nextWrite, owner)], nextWrite := w.nextWrite + 1)
    case BeginIntent(write, works) =>
      var owner := w.writes[write].0;
      if works then w.(writes := w.writes[write := (owner, IsIntended)], log := w.log + [Intended(write, owner)])
      else w.(writes := w.writes - {write})
    case Forward(write) =>
      var owner := w.writes[write].0;
      w.(writes := w.writes[write := (owner, IsForwarded)], airborne := w.airborne[write := owner],
         log := w.log + [Forwarded(write, owner)])
    case Finish(write) =>
      // A driver call that returns leaves nothing on its way.
      w.(writes := w.writes - {write}, airborne := w.airborne - {write},
         log := w.log + [Finished(write, w.writes[write].0)])
    case Abandon(write) =>
      w.(writes := w.writes - {write})
    case Reach(write) =>
      w.(airborne := w.airborne - {write}, log := w.log + [Reached(write, w.airborne[write])])
    case Release(owner, works) =>
      var claim := w.guards[owner].claim.value;
      var dropped := Dropped(w, owner);
      if works && !w.guards[owner].heartbeatFailed then dropped.(claims := w.claims - {claim}) else dropped
    case Die(owner) => Dropped(w, owner)
  }

  // ----- What every run keeps -----

  ghost predicate Mentions(log: seq<Entry>, write: nat) {
    exists e | e in log :: !e.HeartbeatFailed? && e.write == write
  }

  ghost predicate Announced(log: seq<Entry>, write: nat) {
    exists e | e in log :: e.Intended? && e.write == write
  }

  ghost predicate Sent(log: seq<Entry>, write: nat) {
    exists e | e in log :: e.Forwarded? && e.write == write
  }

  ghost predicate Arrived(log: seq<Entry>, write: nat) {
    exists e | e in log :: e.Reached? && e.write == write
  }

  ghost predicate Returned(log: seq<Entry>, write: nat) {
    exists e | e in log :: e.Finished? && e.write == write
  }

  lemma TrailAppend(log: seq<Entry>, e: Entry, write: nat)
    ensures Announced(log + [e], write) <==> Announced(log, write) || (e.Intended? && e.write == write)
    ensures Sent(log + [e], write) <==> Sent(log, write) || (e.Forwarded? && e.write == write)
    ensures Arrived(log + [e], write) <==> Arrived(log, write) || (e.Reached? && e.write == write)
    ensures Returned(log + [e], write) <==> Returned(log, write) || (e.Finished? && e.write == write)
  {
    assert e in log + [e];
    assert forall x | x in log :: x in log + [e];
  }

  /** Whether an entry may follow those before it. */
  ghost predicate EntryOk(before: seq<Entry>, e: Entry) {
    match e
    case Checked(w, o) => !Mentions(before, w) && HeartbeatFailed(o) !in before
    case Intended(w, o) => Checked(w, o) in before && !Announced(before, w)
    case Forwarded(w, o) =>
      && Intended(w, o) in before
      && !Sent(before, w)
      && (forall f | f in before && f.Forwarded? :: f.owner <= o)
    case Reached(w, o) => Forwarded(w, o) in before && !Arrived(before, w)
    case _ => true
  }

  ghost predicate LogOk(log: seq<Entry>) {
    forall i | 0 <= i < |log| :: EntryOk(log[..i], log[i])
  }

  /** A write that is waited for belongs to the lock holder and has left exactly the entries of its phase. */
  ghost predicate WriteOk(w: World, id: nat)
    requires id in w.writes
  {
    var (owner, phase) := w.writes[id];
    && id < w.nextWrite
    && w.lock == Some(owner)
    && Checked(id, owner) in w.log
    && (phase.IsChecked? <==> !Announced(w.log, id))
    && (!phase.IsChecked? ==> Intended(id, owner) in w.log)
    && (phase.IsForwarded? <==> Sent(w.log, id))
  }

  /** There is at most one guard, it holds the lock and its own claim, and the log speaks of no later
      owner or write than there has been. */
  ghost predicate OwnersOk(w: World) {
    && w.guards.Keys == (if w.lock.Some? then {w.lock.value} else {})
    && (forall o | o in w.guards :: o < w.nextOwner)
    && (forall o | o in w.guards :: HeartbeatFailed(o) in w.log <==> w.guards[o].heartbeatFailed)
    && (forall o | o in w.guards :: w.guards[o].heartbeatFailed ==> w.guards[o].claim.Some?)
    && (forall o | o in w.guards && w.guards[o].claim.Some? ::
          w.guards[o].claim.value in w.claims && w.claims[w.guards[o].claim.value] == o)
    && (forall e | e in w.log :: e.owner < w.nextOwner && (w.lock.Some? ==> e.owner <= w.lock.value))
    && (forall e | e in w.log && !e.HeartbeatFailed? :: e.write < w.nextWrite)
  }

  ghost predicate WritesOk(w: World) {
    && (w.lock.None? ==> w.writes == map[])
    && forall id | id in w.writes :: WriteOk(w, id)
  }

  /** What is on its way to the controller was handed over and has not reached it. */
  ghost predicate AirborneOk(w: World) {
    forall id | id in w.airborne :: Forwarded(id, w.airborne[id]) in w.log && !Arrived(w.log, id)
  }

  ghost predicate Invariant(w: World) {
    OwnersOk(w) && WritesOk(w) && AirborneOk(w) && LogOk(w.log)
  }

  /** An entry other than an arrival leaves what is on its way as it was. */
  lemma AirborneAfterEntry(w: World, next: World, e: Entry)
    requires AirborneOk(w) && next.log == w.log + [e]
    requires forall id | id in next.airborne ::
      && (e.Reached? ==> id != e.write)
      && ((id in w.airborne && next.airborne[id] == w.airborne[id])
          || (e == Forwarded(id, next.airborne[id]) && !Arrived(w.log, id)))
    ensures AirborneOk(next)
  {
    forall id | id in next.airborne ensures Forwarded(id, next.airborne[id]) in next.log && !Arrived(next.log, id) {
      TrailAppend(w.log, e, id);
      assert e in next.log;
    }
  }

  /** Nothing reaches the controller that was not handed over. */
  lemma ArrivedWasSent(log: seq<Entry>, id: nat)
    requires LogOk(log) && Arrived(log, id)
    ensures Sent(log, id)
  {
    var e :| e in log && e.Reached? && e.write == id;
    var i :| 0 <= i < |log| && log[i] == e;
    assert EntryOk(log[..i], log[i]);
    assert Forwarded(id, e.owner) in log[..i];
    assert Forwarded(id, e.owner) in log;
  }

  /** An entry of the lock holder about a known write leaves the owners as they were. */
  lemma OwnersAfterEntry(w: World, next: World, e: Entry)
    requires OwnersOk(w) && next == w.(writes := next.writes, airborne := next.airborne, log := w.log + [e])
    requires !e.HeartbeatFailed? && w.lock == Some(e.owner) && e.write < w.nextWrite
    ensures OwnersOk(next)
  {
    assert w.lock.value in w.guards;
  }

  lemma LogAppend(log: seq<Entry>, e: Entry)
    requires LogOk(log) && EntryOk(log, e)
    ensures LogOk(log + [e])
  {
    var next := log + [e];
    forall i | 0 <= i < |next| ensures EntryOk(next[..i], next[i]) {
      if i < |log| {
        assert next[..i] == log[..i];
      } else {
        assert next[..i] == log;
      }
    }
  }

  /** An entry about one write says nothing about the others in flight. */
  lemma OthersUndisturbed(w: World, next: World, e: Entry, id: nat)
    requires id in w.writes && WriteOk(w, id) && id in next.writes && next.writes[id] == w.writes[id]
    requires next.log == w.log + [e] && (e.HeartbeatFailed? || e.write != id)
    requires next.lock == w.lock && next.nextWrite >= w.nextWrite
    ensures WriteOk(next, id)
  {
    TrailAppend(w.log, e, id);
  }

  lemma HeartbeatStep(w: World, owner: nat)
    requires Invariant(w) && Owns(w, owner)
    ensures Invariant(Apply(w, Heartbeat(owner, false)))
  {
    var next, e := Apply(w, Heartbeat(owner, false)), HeartbeatFailed(owner);
    OwnersAfterFailure(w, owner);
    LogAppend(w.log, e);
    AirborneAfterEntry(w, next, e);
    WritesUndisturbed(w, next, e);
  }

  lemma OwnersAfterFailure(w: World, owner: nat)
    requires OwnersOk(w) && Owns(w, owner)
    ensures OwnersOk(Apply(w, Heartbeat(owner, false)))
  {
    assert w.guards.Keys == {owner};
    assert Apply(w, Heartbeat(owner, false)).guards.Keys == {owner};
  }

  lemma WritesUndisturbed(w: World, next: World, e: Entry)
    requires WritesOk(w) && (e.HeartbeatFailed? || e.write !in next.writes || e.Reached?)
    requires next.log == w.log + [e] && next.lock == w.lock && next.nextWrite >= w.nextWrite
    requires forall id | id in next.writes :: id in w.writes && next.writes[id] == w.writes[id]
    ensures WritesOk(next)
  {
    assert w.lock.None? ==> next.writes == map[];
    forall id | id in next.writes ensures WriteOk(next, id) {
      TrailAppend(w.log, e, id);
      assert WriteOk(w, id);
    }
  }

  lemma StartWriteStep(w: World, owner: nat)
    requires Invariant(w) && Owns(w, owner) && !w.guards[owner].heartbeatFailed
    ensures Invariant(Apply(w, StartWrite(owner)))
  {
    var next, e := Apply(w, StartWrite(owner)), Checked(w.nextWrite, owner);
    OwnersAfterCheck(w, owner);
    LogAppend(w.log, e);
    AirborneAfterEntry(w, next, e);
    WritesAfterCheck(w, owner);
  }

  lemma OwnersAfterCheck(w: World, owner: nat)
    requires OwnersOk(w) && Owns(w, owner) && !w.guards[owner].heartbeatFailed
    ensures OwnersOk(Apply(w, StartWrite(owner)))
    ensures EntryOk(w.log, Checked(w.nextWrite, owner))
  {
  }

  lemma WritesAfterCheck(w: World, owner: nat)
    requires OwnersOk(w) && WritesOk(w) && LogOk(w.log) && Owns(w, owner) && !w.guards[owner].heartbeatFailed
    ensures WritesOk(Apply(w, StartWrite(owner)))
  {
    var next, e := Apply(w, StartWrite(owner)), Checked(w.nextWrite, owner);
    assert w.guards.Keys == {owner};
    assert e in next.log;
    forall id | id in next.writes ensures WriteOk(next, id) {
      TrailAppend(w.log, e, id);
      assert id != w.nextWrite ==> WriteOk(w, id);
    }
  }

  /** A write in flight may be announced once it is checked, and sent once it is announced. */
  lemma NextEntryOk(w: World, id: nat)
    requires Invariant(w) && id in w.writes
    ensures w.writes[id].1.IsChecked? ==> EntryOk(w.log, Intended(id, w.writes[id].0))
    ensures w.writes[id].1.IsIntended? ==> EntryOk(w.log, Forwarded(id, w.writes[id].0))
  {
    assert WriteOk(w, id);
  }

  lemma WritesAfterEntry(w: World, next: World, e: Entry)
    requires WritesOk(w) && !e.HeartbeatFailed? && e.write in w.writes && w.writes[e.write].0 == e.owner
    requires e.Intended? || e.Forwarded?
    requires w.writes[e.write].1 == (if e.Intended? then IsChecked else IsIntended)
    requires next == w.(writes := w.writes[e.write := (e.owner, if e.Intended? then IsIntended else IsForwarded)],
                        airborne := next.airborne, log := w.log + [e])
    ensures WritesOk(next)
  {
    assert e in next.log;
    forall id | id in next.writes ensures WriteOk(next, id) {
      assert WriteOk(w, id);
      if id != e.write {
        OthersUndisturbed(w, next, e, id);
      } else {
        TrailAppend(w.log, e, id);
      }
    }
  }

  lemma IntentStep(w: World, id: nat)
    requires Invariant(w) && Enabled(w, BeginIntent(id, true))
    ensures Invariant(Apply(w, BeginIntent(id, true)))
  {
    var next, e := Apply(w, BeginIntent(id, true)), Intended(id, w.writes[id].0);
    assert WriteOk(w, id);
    NextEntryOk(w, id);
    LogAppend(w.log, e);
    OwnersAfterEntry(w, next, e);
    WritesAfterEntry(w, next, e);
    AirborneAfterEntry(w, next, e);
  }

  lemma ForwardStep(w: World, id: nat)
    requires Invariant(w) && Enabled(w, Forward(id))
    ensures Invariant(Apply(w, Forward(id)))
  {
    var next, e := Apply(w, Forward(id)), Forwarded(id, w.writes[id].0);
    assert WriteOk(w, id);
    NextEntryOk(w, id);
    LogAppend(w.log, e);
    OwnersAfterEntry(w, next, e);
    WritesAfterEntry(w, next, e);
    if Arrived(w.log, id) {
      ArrivedWasSent(w.log, id);
    }
    AirborneAfterEntry(w, next, e);
  }

  lemma FinishStep(w: World, id: nat)
    requires Invariant(w) && Enabled(w, Finish(id))
    ensures Invariant(Apply(w, Finish(id)))
  {
    var next, e := Apply(w, Finish(id)), Finished(id, w.writes[id].0);
    assert WriteOk(w, id);
    LogAppend(w.log, e);
    OwnersAfterEntry(w, next, e);
    AirborneAfterEntry(w, next, e);
    WritesUndisturbed(w, next, e);
  }

  /** Dropping a guard frees the lock and ends the waiting for its writes; its claim stays. */
  lemma DropStep(w: World, owner: nat)
    requires Invariant(w) && owner in w.guards
    ensures var next := Dropped(w, owner);
      Invariant(next) && next.lock.None? && next.guards == map[] && next.writes == map[] && next.claims == w.claims
  {
    DroppedIsEmpty(w, owner);
    OwnersAfterDrop(w, Dropped(w, owner));
  }

  lemma DroppedIsEmpty(w: World, owner: nat)
    requires OwnersOk(w) && WritesOk(w) && owner in w.guards
    ensures var next := Dropped(w, owner);
      next.lock.None? && next.guards == map[] && next.writes == map[]
  {
    assert w.guards.Keys == {owner};
    assert forall id | id in w.writes :: WriteOk(w, id) && w.writes[id].0 == owner;
  }

  lemma OwnersAfterDrop(w: World, next: World)
    requires OwnersOk(w) && next == w.(guards := map[], lock := None, writes := map[])
    ensures OwnersOk(next)
  {
  }

  lemma StepKeepsInvariant(w: World, e: Event)
    requires Invariant(w) && Enabled(w, e)
    ensures Invariant(Apply(w, e))
  {
    match e {
      case TryLock => TryLockStep(w);
      case Claim(owner, key) => ClaimStep(w, owner, key);
      case Heartbeat(owner, works) => if !works { HeartbeatStep(w, owner); }
      case StartWrite(owner) => if !w.guards[owner].heartbeatFailed { StartWriteStep(w, owner); }
      case BeginIntent(id, works) => if works { IntentStep(w, id); } else { AbandonStep(w, id); }
      case Abandon(id) => AbandonStep(w, id);
      case Reach(id) => ReachStep(w, id);
      case Forward(id) => ForwardStep(w, id);
      case Finish(id) => FinishStep(w, id);
      case Release(owner, _) => DropStep(w, owner);
      case Die(owner) => DropStep(w, owner);
    }
  }

  lemma TryLockStep(w: World)
    requires Invariant(w)
    ensures Invariant(Apply(w, TryLock))
  {
    if w.lock.None? {
      assert w.guards == map[];
    }
  }

  lemma ClaimStep(w: World, owner: nat, key: Key)
    requires Invariant(w) && Enabled(w, Claim(owner, key))
    ensures Invariant(Apply(w, Claim(owner, key)))
  {
    if key in w.claims {
      DropStep(w, owner);
    } else {
      var next := Apply(w, Claim(owner, key));
      assert w.guards.Keys == {owner};
      assert next.guards.Keys == {owner};
      assert forall id | id in next.writes :: WriteOk(w, id) && WriteOk(next, id);
    }
  }

  /** A write nobody waits for any more leaves everything else as it was. */
  lemma AbandonStep(w: World, id: nat)
    requires Invariant(w) && id in w.writes
    ensures Invariant(w.(writes := w.writes - {id}))
  {
    var next := w.(writes := w.writes - {id});
    assert forall other | other in next.writes :: WriteOk(w, other) && WriteOk(next, other);
  }

  lemma ReachStep(w: World, id: nat)
    requires Invariant(w) && id in w.airborne
    ensures Invariant(Apply(w, Reach(id)))
  {
    var next, e := Apply(w, Reach(id)), Reached(id, w.airborne[id]);
    LogAppend(w.log, e);
    OwnersAfterReach(w, id);
    AirborneAfterEntry(w, next, e);
    WritesUndisturbed(w, next, e);
  }

  lemma OwnersAfterReach(w: World, id: nat)
    requires OwnersOk(w) && AirborneOk(w) && id in w.airborne
    ensures OwnersOk(Apply(w, Reach(id)))
  {
    var sent := Forwarded(id, w.airborne[id]);
    assert sent in w.log;
  }

  // ----- Whole runs -----

  ghost predicate IsRun(w: World, events: seq<Event>)
    decreases |events|
  {
    events == [] || (Enabled(w, events[0]) && IsRun(Apply(w, events[0]), events[1..]))
  }

  ghost function After(w: World, events: seq<Event>): World
    requires IsRun(w, events)
    decreases |events|
  {
    if events == [] then w else After(Apply(w, events[0]), events[1..])
  }

  lemma {:induction false} RunsKeepInvariant(w: World, events: seq<Event>)
    requires Invariant(w) && IsRun(w, events)
    ensures Invariant(After(w, events))
    decreases |events|
  {
    if events != [] {
      StepKeepsInvariant(w, events[0]);
      RunsKeepInvariant(Apply(w, events[0]), events[1..]);
    }
  }

  /** In every interleaving of processes, heartbeats, failures and deaths, at most one guard exists,
      it is the lock's holder, and no two guards' claims can meet. */
  lemma OneOwner(events: seq<Event>)
    requires IsRun(START, events)
    ensures var w := After(START, events);
      && |w.guards| <= 1
      && (forall o | o in w.guards :: w.lock == Some(o))
      && (forall id | id in w.writes :: w.lock == Some(w.writes[id].0))
      && (forall o | Owns(w, o) :: w.guards[o].claim.value in w.claims && w.claims[w.guards[o].claim.value] == o)
  {
    RunsKeepInvariant(START, events);
    var w := After(START, events);
    assert |w.guards.Keys| <= 1;
    assert forall id | id in w.writes :: WriteOk(w, id);
  }

  /** Position `i` holds the only intent of `write`, recorded before position `n`. */
  ghost predicate OnlyIntentBefore(log: seq<Entry>, n: nat, i: nat, write: nat, owner: nat) {
    i < n <= |log| && log[i] == Intended(write, owner)
    && forall j | 0 <= j < |log| && log[j].Intended? && log[j].write == write :: j == i
  }

  /** No write is announced twice or sent twice. */
  lemma NotRepeated(log: seq<Entry>)
    requires LogOk(log)
    ensures forall a, b | 0 <= a < b < |log| && log[a].Intended? && log[b].Intended? :: log[a].write != log[b].write
    ensures forall a, b | 0 <= a < b < |log| && log[a].Forwarded? && log[b].Forwarded? :: log[a].write != log[b].write
  {
    forall a, b | 0 <= a < b < |log|
      ensures log[a].Intended? && log[b].Intended? ==> log[a].write != log[b].write
      ensures log[a].Forwarded? && log[b].Forwarded? ==> log[a].write != log[b].write
    {
      assert log[..b][a] == log[a];
      assert log[a] in log[..b];
      assert EntryOk(log[..b], log[b]);
    }
  }

  /** An intent follows its write's health check, which no failure of its owner's heartbeat precedes. */
  lemma CheckBeforeIntent(log: seq<Entry>, intent: nat) returns (check: nat)
    requires LogOk(log) && intent < |log| && log[intent].Intended?
    ensures check < intent && log[check] == Checked(log[intent].write, log[intent].owner)
    ensures forall i | 0 <= i < check :: log[i] != HeartbeatFailed(log[intent].owner)
  {
    var write, owner := log[intent].write, log[intent].owner;
    assert EntryOk(log[..intent], log[intent]);
    assert Checked(write, owner) in log[..intent];
    check :| 0 <= check < intent && log[check] == Checked(write, owner);
    assert EntryOk(log[..check], log[check]);
    forall i | 0 <= i < check ensures log[i] != HeartbeatFailed(owner) {
      assert log[..check][i] == log[i];
    }
  }

  /** Every write handed to the driver was announced by exactly one intent before it, and that
      by a health check before which no heartbeat of its owner had failed. It was handed over once, and
      writes of different owners are never handed over in turns, whatever is abandoned in between. */
  lemma ForwardsAreAudited(events: seq<Event>, n: nat) returns (intent: nat, check: nat)
    requires IsRun(START, events) && n < |After(START, events).log| && After(START, events).log[n].Forwarded?
    ensures var log := After(START, events).log;
      var write, owner := log[n].write, log[n].owner;
      && check < intent && OnlyIntentBefore(log, n, intent, write, owner)
      && log[check] == Checked(write, owner)
      && (forall i | 0 <= i < check :: log[i] != HeartbeatFailed(owner))
      && (forall i | 0 <= i < |log| && log[i].Forwarded? && log[i].write == write :: i == n)
      && (forall i | 0 <= i < n && log[i].Forwarded? :: log[i].owner <= owner)
  {
    RunsKeepInvariant(START, events);
    var log := After(START, events).log;
    var write, owner := log[n].write, log[n].owner;
    assert EntryOk(log[..n], log[n]);
    assert Intended(write, owner) in log[..n];
    intent :| 0 <= intent < n && log[intent] == Intended(write, owner);
    check := CheckBeforeIntent(log, intent);
    NotRepeated(log);
    forall i | 0 <= i < n && log[i].Forwarded? ensures log[i].owner <= owner {
      assert log[..n][i] == log[i];
      assert log[i] in log[..n];
    }
  }

  /** A write reaches the controller only after it was handed over, and once. */
  lemma ReachedWasForwarded(events: seq<Event>, n: nat) returns (sent: nat)
    requires IsRun(START, events) && n < |After(START, events).log| && After(START, events).log[n].Reached?
    ensures var log := After(START, events).log;
      && sent < n && log[sent] == Forwarded(log[n].write, log[n].owner)
      && forall i | 0 <= i < n && log[i].Reached? :: log[i].write != log[n].write
  {
    RunsKeepInvariant(START, events);
    var log := After(START, events).log;
    assert EntryOk(log[..n], log[n]);
    assert Forwarded(log[n].write, log[n].owner) in log[..n];
    sent :| 0 <= sent < n && log[sent] == Forwarded(log[n].write, log[n].owner);
    forall i | 0 <= i < n && log[i].Reached? ensures log[i].write != log[n].write {
      assert log[..n][i] == log[i];
      assert log[i] in log[..n];
    }
  }

  // ----- Writes that outlive their owner -----

  /** A run that ends with another guard holding the lock while a write from before it may reach the
      controller. */
  ghost predicate OutlivedBy(w: World, events: seq<Event>, id: nat) {
    IsRun(w, events) && After(w, events).lock.Some? && id < w.nextWrite && id in After(w, events).airborne
  }

  /** No write from before `bound` is waited for, and those on their way are among `ids`. */
  ghost predicate OldWrites(w: World, bound: nat, ids: set<nat>) {
    && bound <= w.nextWrite
    && (forall id | id in w.writes :: id >= bound)
    && (forall id | id in w.airborne && id < bound :: id in ids)
  }

  lemma {:induction false} OldWritesOnlyLand(w: World, events: seq<Event>, bound: nat, ids: set<nat>)
    requires IsRun(w, events) && OldWrites(w, bound, ids)
    ensures OldWrites(After(w, events), bound, ids)
    decreases |events|
  {
    if events != [] {
      OldWritesOnlyLand(Apply(w, events[0]), events[1..], bound, ids);
    }
  }

  lemma OutlivedWasAirborne(w: World, events: seq<Event>, id: nat)
    requires w.writes == map[] && OutlivedBy(w, events, id)
    ensures id in w.airborne
  {
    OldWritesOnlyLand(w, events, w.nextWrite, w.airborne.Keys);
  }

  lemma NextOwnerComesFirst(w: World, id: nat)
    requires Invariant(w) && w.lock.None? && id in w.airborne
    ensures OutlivedBy(w, [TryLock], id)
  {
    var next := Apply(w, TryLock);
    assert Forwarded(id, w.airborne[id]) in w.log;
    assert [TryLock][1..] == [] && IsRun(next, []) && After(next, []) == next;
  }

  /** What the log says of a write that may yet reach the controller: handed over, not returned and not
      arrived. */
  ghost predicate OnTheWay(log: seq<Entry>, write: nat) {
    Sent(log, write) && !Arrived(log, write) && !Returned(log, write)
  }

  ghost predicate WaysOk(w: World) {
    && (forall id :: id in w.airborne <==> OnTheWay(w.log, id))
    && (forall id | id in w.writes :: !Returned(w.log, id))
  }

  /** How an entry changes what is on its way. */
  lemma WaysAfterEntry(w: World, next: World, e: Entry)
    requires WaysOk(w) && next.log == w.log + [e]
    requires !e.HeartbeatFailed? ==> forall id | id != e.write :: id in next.airborne <==> id in w.airborne
    requires e.HeartbeatFailed? || e.Checked? || e.Intended? ==> next.airborne == w.airborne
    requires e.Reached? || e.Finished? ==> e.write !in next.airborne
    requires e.Forwarded? ==> e.write in next.airborne && !Arrived(w.log, e.write) && !Returned(w.log, e.write)
    requires forall id | id in next.writes :: !Returned(w.log, id) && (e.Finished? ==> id != e.write)
    ensures WaysOk(next)
  {
    forall id
      ensures id in next.airborne <==> OnTheWay(next.log, id)
      ensures id in next.writes ==> !Returned(next.log, id)
    {
      TrailAppend(w.log, e, id);
    }
  }

  lemma WaysUnchanged(w: World, next: World)
    requires WaysOk(w) && next.log == w.log && next.airborne == w.airborne
    requires forall id | id in next.writes :: id in w.writes
    ensures WaysOk(next)
  {
  }

  lemma StepKeepsWays(w: World, e: Event)
    requires Invariant(w) && WaysOk(w) && Enabled(w, e)
    ensures WaysOk(Apply(w, e))
  {
    match e {
      case StartWrite(owner) => if !w.guards[owner].heartbeatFailed { WaysThroughStart(w, owner); }
      case Forward(id) => WaysThroughForward(w, id);
      case _ => WaysThroughOthers(w, e);
    }
  }

  lemma WaysThroughOthers(w: World, e: Event)
    requires WaysOk(w) && Enabled(w, e) && !e.StartWrite? && !e.Forward?
    ensures WaysOk(Apply(w, e))
  {
    var next := Apply(w, e);
    if next.log == w.log {
      WaysUnchanged(w, next);
    } else {
      WaysAfterEntry(w, next, next.log[|w.log|]);
    }
  }

  lemma WaysThroughStart(w: World, owner: nat)
    requires OwnersOk(w) && WaysOk(w) && Owns(w, owner) && !w.guards[owner].heartbeatFailed
    ensures WaysOk(Apply(w, StartWrite(owner)))
  {
    NotReturnedYet(w);
    WaysAfterEntry(w, Apply(w, StartWrite(owner)), Checked(w.nextWrite, owner));
  }

  lemma NotReturnedYet(w: World)
    requires OwnersOk(w)
    ensures !Returned(w.log, w.nextWrite)
  {
  }

  lemma WaysThroughForward(w: World, id: nat)
    requires Invariant(w) && WaysOk(w) && Enabled(w, Forward(id))
    ensures WaysOk(Apply(w, Forward(id)))
  {
    assert WriteOk(w, id);
    if Arrived(w.log, id) {
      ArrivedWasSent(w.log, id);
    }
    WaysAfterEntry(w, Apply(w, Forward(id)), Forwarded(id, w.writes[id].0));
  }

  lemma {:induction false} RunsKeepWays(w: World, events: seq<Event>)
    requires Invariant(w) && WaysOk(w) && IsRun(w, events)
    ensures WaysOk(After(w, events))
    decreases |events|
  {
    if events != [] {
      StepKeepsInvariant(w, events[0]);
      StepKeepsWays(w, events[0]);
      RunsKeepWays(Apply(w, events[0]), events[1..]);
    }
  }

  /** If write `id` is on its way for `owner`, it is waited for; and whoever is waited for owns its claim. */
  ghost predicate WaitedFor(w: World, id: nat, owner: nat) {
    && (id in w.airborne && w.airborne[id] == owner ==> id in w.writes && w.writes[id].0 == owner)
    && (id in w.writes && w.writes[id].0 == owner ==> Owns(w, owner))
  }

  lemma NotYetAirborne(w: World, id: nat)
    requires Invariant(w) && id in w.writes && w.writes[id].1.IsChecked?
    ensures id !in w.airborne
  {
    assert WriteOk(w, id);
    assert id in w.airborne ==> Forwarded(id, w.airborne[id]) in w.log && Sent(w.log, id);
  }

  lemma NewWriteIsNotAirborne(w: World)
    requires OwnersOk(w) && AirborneOk(w)
    ensures w.nextWrite !in w.airborne
  {
    assert forall id | id in w.airborne :: Forwarded(id, w.airborne[id]) in w.log && id < w.nextWrite;
  }

  /** Only the write's own abandonment and its owner's death end the waiting for it. */
  lemma WaitingStep(w: World, e: Event, id: nat, owner: nat)
    requires Invariant(w) && WaitedFor(w, id, owner) && Enabled(w, e) && e != Abandon(id) && e != Die(owner)
    ensures WaitedFor(Apply(w, e), id, owner)
  {
    NewWriteIsNotAirborne(w);
    if e.BeginIntent? {
      NotYetAirborne(w, e.write);
    }
    if e.Claim? || e.Release? || e.Die? {
      WaitingThroughDrop(w, e, id, owner);
    } else {
      WaitingThroughWrites(w, e, id, owner);
    }
  }

  lemma WaitingThroughDrop(w: World, e: Event, id: nat, owner: nat)
    requires WaitedFor(w, id, owner) && Enabled(w, e) && (e.Claim? || e.Release? || e.Die?) && e != Die(owner)
    ensures WaitedFor(Apply(w, e), id, owner)
  {
    assert e.Release? && id in w.writes ==> w.writes[id].0 != e.owner;
  }

  lemma WaitingThroughWrites(w: World, e: Event, id: nat, owner: nat)
    requires WaitedFor(w, id, owner) && Enabled(w, e) && !e.Claim? && !e.Release? && !e.Die? && e != Abandon(id)
    requires w.nextWrite !in w.airborne && (e.BeginIntent? ==> e.write !in w.airborne)
    requires w.lock.None? ==> w.guards == map[]
    ensures WaitedFor(Apply(w, e), id, owner)
  {
  }

  lemma {:induction false} WaitingLasts(w: World, events: seq<Event>, id: nat, owner: nat)
    requires Invariant(w) && WaitedFor(w, id, owner) && IsRun(w, events)
    requires Abandon(id) !in events && Die(owner) !in events
    ensures WaitedFor(After(w, events), id, owner)
    decreases |events|
  {
    if events != [] {
      assert events[0] in events;
      StepKeepsInvariant(w, events[0]);
      WaitingStep(w, events[0], id, owner);
      WaitingLasts(Apply(w, events[0]), events[1..], id, owner);
    }
  }

  /** A write that is on its way while nobody holds the lock was abandoned, or its owner has died. */
  lemma AirborneWasAbandoned(events: seq<Event>, id: nat)
    requires IsRun(START, events) && After(START, events).lock.None? && id in After(START, events).airborne
    ensures Abandon(id) in events || Die(After(START, events).airborne[id]) in events
  {
    var w := After(START, events);
    RunsKeepInvariant(START, events);
    if Abandon(id) !in events && Die(w.airborne[id]) !in events {
      WaitingLasts(START, events, id, w.airborne[id]);
    }
  }

  /** The owner that handed a write over, as the log has it. */
  ghost predicate SentBy(log: seq<Entry>, write: nat, owner: nat) {
    Forwarded(write, owner) in log
  }

  /** After any run that leaves the lock free, a write can reach the controller under a later owner if and
      only if it was handed over and has neither returned nor arrived; and such a write was abandoned, or
      the owner that handed it over died. */
  lemma LateArrivalIsExact(events: seq<Event>, id: nat)
    requires IsRun(START, events) && After(START, events).lock.None?
    ensures var w := After(START, events);
      && ((exists more :: OutlivedBy(w, more, id)) <==> OnTheWay(w.log, id))
      && (OnTheWay(w.log, id) ==>
            Abandon(id) in events || exists owner :: SentBy(w.log, id, owner) && Die(owner) in events)
  {
    var w := After(START, events);
    RunsKeepInvariant(START, events);
    RunsKeepWays(START, events);
    if id in w.airborne {
      NextOwnerComesFirst(w, id);
      AirborneWasAbandoned(events, id);
      assert SentBy(w.log, id, w.airborne[id]);
    }
    forall more | OutlivedBy(w, more, id) ensures id in w.airborne {
      OutlivedWasAirborne(w, more, id);
    }
  }

  /** As long as no write is abandoned and no owner dies, nothing is on its way between two owners. */
  lemma WaitedForRunsAreQuiet(events: seq<Event>)
    requires IsRun(START, events) && forall e | e in events :: !e.Abandon? && !e.Die?
    ensures After(START, events).lock.None? ==> forall id :: !OnTheWay(After(START, events).log, id)
  {
    var w := After(START, events);
    if w.lock.None? {
      forall id ensures !OnTheWay(w.log, id) {
        LateArrivalIsExact(events, id);
      }
    }
  }

  lemma RunFrom(w: World, e: Event, rest: seq<Event>)
    requires Enabled(w, e) && IsRun(Apply(w, e), rest)
    ensures IsRun(w, [e] + rest) && After(w, [e] + rest) == After(Apply(w, e), rest)
  {
    assert ([e] + rest)[1..] == rest;
  }

  /** A healthy owner whose write times out after it was handed over: the next owner holds the lock when
      the write arrives. */
  lemma AbandonedWriteArrivesLate(key: Key)
    ensures var events := [TryLock, Claim(0, key), StartWrite(0), BeginIntent(0, true), Forward(0), Abandon(0),
                            Release(0, true)];
      && IsRun(START, events)
      && After(START, events).lock.None? && OnTheWay(After(START, events).log, 0)
      && OutlivedBy(After(START, events), [TryLock], 0)
  {
    var w1 := Apply(START, TryLock);
    var w2 := Apply(w1, Claim(0, key));
    var w3 := Apply(w2, StartWrite(0));
    var w4 := Apply(w3, BeginIntent(0, true));
    var w5 := Apply(w4, Forward(0));
    var w6 := Apply(w5, Abandon(0));
    var w7 := Apply(w6, Release(0, true));
    RunFrom(w6, Release(0, true), []);
    RunFrom(w5, Abandon(0), [Release(0, true)]);
    RunFrom(w4, Forward(0), [Abandon(0), Release(0, true)]);
    RunFrom(w3, BeginIntent(0, true), [Forward(0), Abandon(0), Release(0, true)]);
    RunFrom(w2, StartWrite(0), [BeginIntent(0, true), Forward(0), Abandon(0), Release(0, true)]);
    RunFrom(w1, Claim(0, key), [StartWrite(0), BeginIntent(0, true), Forward(0), Abandon(0), Release(0, true)]);
    RunFrom(START, TryLock,
            [Claim(0, key), StartWrite(0), BeginIntent(0, true), Forward(0), Abandon(0), Release(0, true)]);
    var events := [TryLock, Claim(0, key), StartWrite(0), BeginIntent(0, true), Forward(0), Abandon(0),
                   Release(0, true)];
    assert After(START, events) == w7;
    RunsKeepInvariant(START, events);
    RunsKeepWays(START, events);
    NextOwnerComesFirst(w7, 0);
  }

  // ----- Claims and health over runs -----

  /** The lock is free, and whoever takes it next can claim the resource. */
  ghost predicate NextCanClaim(w: World, key: Key) {
    var locked := Apply(w, TryLock);
    && w.lock.None?
    && Enabled(locked, Claim(w.nextOwner, key))
    && Owns(Apply(locked, Claim(w.nextOwner, key)), w.nextOwner)
  }

  /** An owner's end frees the lock, and its resource with it if and only if it is a release that the
      database records, by an owner whose heartbeat has not failed. No other claim changes. */
  lemma ReleaseIsExact(w: World, owner: nat, e: Event, key: Key)
    requires Invariant(w) && Owns(w, owner) && w.guards[owner].claim == Some(key) && Enabled(w, e)
    requires e == Die(owner) || (e.Release? && e.owner == owner)
    ensures var freed := Apply(w, e);
      && freed.lock.None? && freed.guards == map[]
      && (NextCanClaim(freed, key) <==> e == Release(owner, true) && !w.guards[owner].heartbeatFailed)
      && (forall k | k != key :: k in freed.claims <==> k in w.claims)
      && (forall k | k != key && k in w.claims :: freed.claims[k] == w.claims[k])
  {
    DropStep(w, owner);
    ClaimsAfterEnd(w, owner, e, key);
    FreeClaimsSucceed(Apply(w, e), key);
  }

  lemma ClaimsAfterEnd(w: World, owner: nat, e: Event, key: Key)
    requires OwnersOk(w) && Owns(w, owner) && w.guards[owner].claim == Some(key) && Enabled(w, e)
    requires e == Die(owner) || (e.Release? && e.owner == owner)
    ensures key in Apply(w, e).claims <==> !(e == Release(owner, true) && !w.guards[owner].heartbeatFailed)
    ensures forall k | k != key :: k in Apply(w, e).claims <==> k in w.claims
    ensures forall k | k != key && k in w.claims :: Apply(w, e).claims[k] == w.claims[k]
  {
  }

  lemma FreeClaimsSucceed(w: World, key: Key)
    requires w.lock.None? && w.guards == map[]
    ensures NextCanClaim(w, key) <==> key !in w.claims
  {
  }

  /** A claim that is refused ends the attempt: the lock is free again and all claims are as they were. */
  lemma RefusedClaimFreesTheLock(w: World, owner: nat, key: Key)
    requires Invariant(w) && Enabled(w, Claim(owner, key)) && key in w.claims
    ensures var next := Apply(w, Claim(owner, key));
      next.lock.None? && next.guards == map[] && next.claims == w.claims
  {
    DropStep(w, owner);
  }

  /** The log tells of every failed heartbeat and of no other. */
  lemma {:induction false} FailuresAreLogged(w: World, events: seq<Event>, owner: nat)
    requires IsRun(w, events)
    ensures HeartbeatFailed(owner) in After(w, events).log
      <==> HeartbeatFailed(owner) in w.log || Heartbeat(owner, false) in events
    decreases |events|
  {
    if events != [] {
      FailureIsLogged(w, events[0], owner);
      FailuresAreLogged(Apply(w, events[0]), events[1..], owner);
      assert events == [events[0]] + events[1..];
    }
  }

  lemma FailureIsLogged(w: World, e: Event, owner: nat)
    requires Enabled(w, e)
    ensures HeartbeatFailed(owner) in Apply(w, e).log
      <==> HeartbeatFailed(owner) in w.log || e == Heartbeat(owner, false)
  {
    var next := Apply(w, e);
    assert next.log == w.log || next.log == w.log + [next.log[|w.log|]];
  }

  /** Over any run: an owner starts a write if and only if none of its heartbeats has failed so far; a
      failed one is for good, as long as that owner lives. */
  lemma HealthIsForGood(events: seq<Event>, owner: nat)
    requires IsRun(START, events) && Owns(After(START, events), owner)
    ensures var w := After(START, events);
      var next := Apply(w, StartWrite(owner));
      if Heartbeat(owner, false) in events then next == w
      else w.nextWrite !in w.writes && w.nextWrite in next.writes && next.writes[w.nextWrite] == (owner, IsChecked)
  {
    RunsKeepInvariant(START, events);
    FailuresAreLogged(START, events, owner);
    var w := After(START, events);
    assert w.nextWrite in w.writes ==> WriteOk(w, w.nextWrite);
  }

  /** Over any run: the resource is free for the next owner exactly after a release that is recorded and
      was preceded by no failed heartbeat of its owner. */
  lemma ReleaseOverRuns(events: seq<Event>, owner: nat, e: Event, key: Key)
    requires IsRun(START, events) && Owns(After(START, events), owner)
    requires After(START, events).guards[owner].claim == Some(key) && Enabled(After(START, events), e)
    requires e == Die(owner) || (e.Release? && e.owner == owner)
    ensures NextCanClaim(Apply(After(START, events), e), key)
      <==> e == Release(owner, true) && Heartbeat(owner, false) !in events
  {
    RunsKeepInvariant(START, events);
    FailuresAreLogged(START, events, owner);
    ReleaseIsExact(After(START, events), owner, e, key);
  }

  /** A known write that nobody waits for and that was never handed over. */
  ghost predicate Gone(w: World, id: nat) {
    id < w.nextWrite && id !in w.writes && !Sent(w.log, id)
  }

  lemma {:induction false} GoneStaysGone(w: World, events: seq<Event>, id: nat)
    requires Gone(w, id) && IsRun(w, events)
    ensures Gone(After(w, events), id)
    decreases |events|
  {
    if events != [] {
      GoneStep(w, events[0], id);
      GoneStaysGone(Apply(w, events[0]), events[1..], id);
    }
  }

  lemma GoneStep(w: World, e: Event, id: nat)
    requires Gone(w, id) && Enabled(w, e)
    ensures Gone(Apply(w, e), id)
  {
    var next := Apply(w, e);
    if next.log != w.log {
      TrailAppend(w.log, next.log[|w.log|], id);
      assert next.log == w.log + [next.log[|w.log|]];
    }
  }

  /** A write whose intent cannot be recorded, or that is abandoned before it was handed over, is never
      handed over. */
  lemma DroppedIsNeverSent(w: World, id: nat, e: Event, events: seq<Event>)
    requires Invariant(w) && id in w.writes && Enabled(w, e) && IsRun(Apply(w, e), events)
    requires e == BeginIntent(id, false) || (e == Abandon(id) && !w.writes[id].1.IsForwarded?)
    ensures !Sent(After(Apply(w, e), events).log, id)
  {
    assert WriteOk(w, id);
    GoneStaysGone(Apply(w, e), events, id);
  }

  /** An owner that dies, or is released while unhealthy, leaves its claim behind: nobody can take the
      resource over until it is recovered. */
  lemma ClaimOutlivesItsOwner(w: World, owner: nat, e: Event, key: Key)
    requires Invariant(w) && Owns(w, owner) && w.guards[owner].claim == Some(key)
    requires || e == Die(owner)
             || (e.Release? && e.owner == owner && Enabled(w, e) && (!e.works || w.guards[owner].heartbeatFailed))
    ensures var freed := Apply(w, e);
      var locked := Apply(freed, TryLock);
      && freed.lock.None? && Enabled(locked, Claim(w.nextOwner, key))
      && !Owns(Apply(locked, Claim(w.nextOwner, key)), w.nextOwner)
  {
    DropStep(w, owner);
  }
}
