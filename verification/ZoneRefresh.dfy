/**
 The zone-cache refresh protocol under concurrency.

 Threads change the backend and notify the cache afterwards; a notification is one add or
 remove call with two locked sections, first the log, then the shard.  The refresher sets
 the pending flag, reads backend rows one by one, and replaces the shards one by one while
 it holds the lock of the log.  Notifications of one zone come in the order of its backend
 changes and do not overlap; everything else interleaves freely.
 */
module ZoneRefresh {
  import opened Results
  import opened ZoneNames
  import opened ZoneCache

  datatype Phase =
    | Idle
    | Collecting(rows: map<Zone, Option<int>>)
    | Swapping(merged: map<Zone, Option<int>>, todo: set<nat>)

  /**
   `queue`: values of backend changes whose call has not begun; `calls`: calls between their
   two locked sections; `synced`: some replace has completed.
   */
  datatype State = State(
    backend: map<Zone, Option<int>>,
    cache: map<Zone, Option<int>>,
    queue: map<Zone, seq<Option<int>>>,
    calls: map<Zone, Option<int>>,
    log: seq<Update>,
    phase: Phase,
    synced: bool)

  datatype Step =
    | Change(zone: Zone, id: Option<int>)
    | CallLog(zone: Zone)
    | CallStore(zone: Zone)
    | SetPending
    | ReadRow(zone: Zone)
    | BeginReplace
    | SwapShard(shard: nat)
    | EndReplace

  /** The zones that exist in a run and the number of shards. */
  datatype World = World(zones: set<Zone>, count: nat)

  predicate Typed(w: World, s: State) {
    && w.count > 0
    && s.backend.Keys == w.zones && s.cache.Keys == w.zones && s.queue.Keys == w.zones
    && s.calls.Keys <= w.zones
    && (s.phase.Collecting? ==> s.phase.rows.Keys <= w.zones)
    && (s.phase.Swapping? ==> s.phase.merged.Keys == w.zones && forall i :: i in s.phase.todo ==> i < w.count)
  }

  /** The pending flag of the source is set exactly outside Idle. */
  predicate Pending(s: State) {
    !s.phase.Idle?
  }

  function AllShards(count: nat): (r: set<nat>)
    ensures forall i: nat :: i in r <==> i < count
  {
    if count == 0 then {} else {count - 1} + AllShards(count - 1)
  }

  predicate Enabled(w: World, s: State, step: Step)
    requires Typed(w, s)
  {
    match step
    case Change(zone, _) => zone in w.zones
    case CallLog(zone) => zone in w.zones && s.queue[zone] != [] && zone !in s.calls && !s.phase.Swapping?
    case CallStore(zone) => zone in s.calls
    case SetPending => !s.phase.Swapping?
    case ReadRow(zone) => zone in w.zones && s.phase.Collecting?
    case BeginReplace => s.phase.Collecting? && s.phase.rows.Keys == w.zones
    case SwapShard(shard) => s.phase.Swapping? && shard in s.phase.todo
    case EndReplace => s.phase.Swapping? && s.phase.todo == {}
  }

  function Do(w: World, s: State, step: Step): State
    requires Typed(w, s) && Enabled(w, s, step)
  {
    match step
    case Change(zone, id) =>
      s.(backend := s.backend[zone := id], queue := s.queue[zone := s.queue[zone] + [id]])
    case CallLog(zone) =>
      var id := s.queue[zone][0];
      s.(queue := s.queue[zone := s.queue[zone][1..]], calls := s.calls[zone := id],
         log := if Pending(s) then s.log + [Update(zone, id)] else s.log)
    case CallStore(zone) =>
      s.(cache := s.cache[zone := s.calls[zone]], calls := s.calls - {zone})
    case SetPending => s.(phase := Collecting(map[]), log := [])
    case ReadRow(zone) => s.(phase := Collecting(s.phase.rows[zone := s.backend[zone]]))
    case BeginReplace =>
      var merged := map z | z in w.zones :: Replay(s.phase.rows[z], s.log, z);
      s.(phase := Swapping(merged, AllShards(w.count)))
    case SwapShard(shard) =>
      var cache := map z | z in w.zones :: if IndexOf(z, w.count) == shard then s.phase.merged[z] else s.cache[z];
      s.(cache := cache, phase := s.phase.(todo := s.phase.todo - {shard}))
    case EndReplace => s.(phase := Idle, log := [], synced := true)
  }

  /** No call for the zone is owed or under way. */
  predicate Settled(s: State, z: Zone)
    requires z in s.queue
  {
    s.queue[z] == [] && z !in s.calls
  }

  // ---------------------------------------------------------------- invariant

  predicate Logged(log: seq<Update>, z: Zone) {
    exists i :: 0 <= i < |log| && log[i].zone == z
  }

  predicate Refreshed(w: World, s: State, z: Zone)
    requires w.count > 0
  {
    s.synced || (s.phase.Swapping? && IndexOf(z, w.count) !in s.phase.todo)
  }

  /** What every step keeps for one zone. */
  predicate ZoneOk(w: World, s: State, z: Zone)
    requires Typed(w, s) && z in w.zones
  {
    && (s.queue[z] != [] ==> s.queue[z][|s.queue[z]| - 1] == s.backend[z])
    && (s.queue[z] == [] && z in s.calls ==> s.calls[z] == s.backend[z])
    && (s.queue[z] == [] && Pending(s) && Logged(s.log, z) ==> Replay(None, s.log, z) == s.backend[z])
    && (s.queue[z] == [] && s.phase.Collecting? && z in s.phase.rows ==>
          Replay(s.phase.rows[z], s.log, z) == s.backend[z])
    && (s.queue[z] == [] && s.phase.Swapping? ==> s.phase.merged[z] == s.backend[z])
    && (Settled(s, z) && Refreshed(w, s, z) ==> s.cache[z] == s.backend[z])
  }

  predicate Inv(w: World, s: State) {
    Typed(w, s) && forall z :: z in w.zones ==> ZoneOk(w, s, z)
  }

  lemma {:induction false} ReplayLogged(v: Option<int>, log: seq<Update>, z: Zone)
    ensures Replay(v, log, z) == if Logged(log, z) then Replay(None, log, z) else v
  {
    if log != [] {
      var rest := log[..|log| - 1];
      ReplayLogged(v, rest, z);
      if Logged(rest, z) {
        var i :| 0 <= i < |rest| && rest[i].zone == z;
        assert log[i].zone == z;
      }
      if Logged(log, z) && log[|log| - 1].zone != z {
        var i :| 0 <= i < |log| && log[i].zone == z;
        assert rest[i].zone == z;
      }
    }
  }

  lemma ChangeKeeps(w: World, s: State, zone: Zone, id: Option<int>, z: Zone)
    requires Typed(w, s) && z in w.zones && ZoneOk(w, s, z)
    requires Enabled(w, s, Change(zone, id)) && Typed(w, Do(w, s, Change(zone, id)))
    ensures ZoneOk(w, Do(w, s, Change(zone, id)), z)
  {
    hide IndexOf, Replay, Logged;
  }

  lemma CallLogKeeps(w: World, s: State, zone: Zone, z: Zone)
    requires Typed(w, s) && z in w.zones && ZoneOk(w, s, z)
    requires Enabled(w, s, CallLog(zone)) && Typed(w, Do(w, s, CallLog(zone)))
    ensures ZoneOk(w, Do(w, s, CallLog(zone)), z)
  {
    hide IndexOf, Replay, Logged;
    var u := Update(zone, s.queue[zone][0]);
    if zone != z { LoggedSnoc(s.log, u, z); }
    ReplaySnoc(None, s.log, u, z);
    if s.phase.Collecting? && z in s.phase.rows { ReplaySnoc(s.phase.rows[z], s.log, u, z); }
  }

  lemma CallStoreKeeps(w: World, s: State, zone: Zone, z: Zone)
    requires Typed(w, s) && z in w.zones && ZoneOk(w, s, z)
    requires Enabled(w, s, CallStore(zone)) && Typed(w, Do(w, s, CallStore(zone)))
    ensures ZoneOk(w, Do(w, s, CallStore(zone)), z)
  {
    hide IndexOf, Replay, Logged;
  }

  lemma SetPendingKeeps(w: World, s: State, z: Zone)
    requires Typed(w, s) && z in w.zones && ZoneOk(w, s, z)
    requires Enabled(w, s, SetPending) && Typed(w, Do(w, s, SetPending))
    ensures ZoneOk(w, Do(w, s, SetPending), z)
  {
    hide IndexOf, Replay, Logged;
    NothingLogged(z);
  }

  lemma ReadRowKeeps(w: World, s: State, zone: Zone, z: Zone)
    requires Typed(w, s) && z in w.zones && ZoneOk(w, s, z)
    requires Enabled(w, s, ReadRow(zone)) && Typed(w, Do(w, s, ReadRow(zone)))
    ensures ZoneOk(w, Do(w, s, ReadRow(zone)), z)
  {
    hide IndexOf, Replay, Logged;
    ReplayLogged(s.backend[z], s.log, z);
  }

  lemma BeginReplaceKeeps(w: World, s: State, z: Zone)
    requires Typed(w, s) && z in w.zones && ZoneOk(w, s, z)
    requires Enabled(w, s, BeginReplace) && Typed(w, Do(w, s, BeginReplace))
    ensures ZoneOk(w, Do(w, s, BeginReplace), z)
  {
    hide IndexOf, Replay, Logged;
    assert IndexOf(z, w.count) in AllShards(w.count);
  }

  lemma SwapShardKeeps(w: World, s: State, shard: nat, z: Zone)
    requires Typed(w, s) && z in w.zones && ZoneOk(w, s, z)
    requires Enabled(w, s, SwapShard(shard)) && Typed(w, Do(w, s, SwapShard(shard)))
    ensures ZoneOk(w, Do(w, s, SwapShard(shard)), z)
  {
    hide IndexOf, Replay, Logged;
  }

  lemma EndReplaceKeeps(w: World, s: State, z: Zone)
    requires Typed(w, s) && z in w.zones && ZoneOk(w, s, z)
    requires Enabled(w, s, EndReplace) && Typed(w, Do(w, s, EndReplace))
    ensures ZoneOk(w, Do(w, s, EndReplace), z)
  {
    hide IndexOf, Replay, Logged;
  }

  lemma NothingLogged(z: Zone)
    ensures !Logged([], z)
  {
  }

  lemma LoggedSnoc(log: seq<Update>, u: Update, z: Zone)
    requires u.zone != z
    ensures Logged(log + [u], z) <==> Logged(log, z)
  {
    if i :| 0 <= i < |log| && log[i].zone == z { assert (log + [u])[i].zone == z; }
  }

  lemma StepKeepsZone(w: World, s: State, step: Step, z: Zone)
    requires Typed(w, s) && z in w.zones && ZoneOk(w, s, z)
    requires Enabled(w, s, step) && Typed(w, Do(w, s, step))
    ensures ZoneOk(w, Do(w, s, step), z)
  {
    hide ZoneOk, Typed, Do, Enabled;
    match step
    case Change(zone, id) => ChangeKeeps(w, s, zone, id, z);
    case CallLog(zone) => CallLogKeeps(w, s, zone, z);
    case CallStore(zone) => CallStoreKeeps(w, s, zone, z);
    case SetPending => SetPendingKeeps(w, s, z);
    case ReadRow(zone) => ReadRowKeeps(w, s, zone, z);
    case BeginReplace => BeginReplaceKeeps(w, s, z);
    case SwapShard(shard) => SwapShardKeeps(w, s, shard, z);
    case EndReplace => EndReplaceKeeps(w, s, z);
  }

  lemma StepKeepsTyped(w: World, s: State, step: Step)
    requires Typed(w, s) && Enabled(w, s, step)
    ensures Typed(w, Do(w, s, step))
  {
    hide IndexOf, Replay;
  }

  lemma StepKeepsInv(w: World, s: State, step: Step)
    requires Inv(w, s) && Enabled(w, s, step)
    ensures Inv(w, Do(w, s, step))
  {
    StepKeepsTyped(w, s, step);
    hide ZoneOk, Typed, Do, Enabled;
    forall z | z in w.zones ensures ZoneOk(w, Do(w, s, step), z) {
      StepKeepsZone(w, s, step, z);
    }
  }

  // ---------------------------------------------------------------- runs

  /** Before any notification is owed, with a cache of any content. */
  predicate Init(w: World, s: State) {
    && Typed(w, s) && s.phase.Idle? && !s.synced && s.calls == map[]
    && forall z :: z in w.zones ==> s.queue[z] == []
  }

  /** States and the steps between them. */
  ghost predicate IsRun(w: World, states: seq<State>, steps: seq<Step>) {
    && |states| == |steps| + 1
    && Init(w, states[0])
    && forall i :: 0 <= i < |steps| ==>
         Typed(w, states[i]) && Enabled(w, states[i], steps[i]) && states[i + 1] == Do(w, states[i], steps[i])
  }

  lemma {:induction false} RunKeepsInv(w: World, states: seq<State>, steps: seq<Step>, i: nat)
    requires IsRun(w, states, steps) && i < |states|
    ensures Inv(w, states[i])
  {
    if i > 0 {
      RunKeepsInv(w, states, steps, i - 1);
      StepKeepsInv(w, states[i - 1], steps[i - 1]);
    }
  }

  /** The next notification of a zone can be delivered unless shards are being replaced, and takes effect. */
  lemma NotificationProceeds(w: World, s: State, z: Zone)
    requires Typed(w, s) && z in w.zones && s.queue[z] != [] && z !in s.calls && !s.phase.Swapping?
    ensures Enabled(w, s, CallLog(z)) && Typed(w, Do(w, s, CallLog(z)))
    ensures var next := Do(w, s, CallLog(z));
            && Enabled(w, next, CallStore(z))
            && var done := Do(w, next, CallStore(z));
            && done.queue == s.queue[z := s.queue[z][1..]] && done.calls == s.calls - {z}
            && done.cache == s.cache[z := s.queue[z][0]] && done.backend == s.backend
  {
    hide IndexOf, Replay;
    StepKeepsTyped(w, s, CallLog(z));
    assert s.calls[z := s.queue[z][0]] - {z} == s.calls - {z};
  }

  /** A refresh can always go on: read another zone, begin to replace, replace another shard, or end. */
  lemma RefreshProceeds(w: World, s: State)
    requires Typed(w, s) && Pending(s)
    ensures || (exists z :: Enabled(w, s, ReadRow(z)) && z !in s.phase.rows)
            || Enabled(w, s, BeginReplace)
            || (exists i :: Enabled(w, s, SwapShard(i)))
            || Enabled(w, s, EndReplace)
  {
    if s.phase.Collecting? && s.phase.rows.Keys != w.zones {
      var z :| z in w.zones && z !in s.phase.rows;
      assert Enabled(w, s, ReadRow(z));
    }
    if s.phase.Swapping? && s.phase.todo != {} {
      var i :| i in s.phase.todo;
      assert Enabled(w, s, SwapShard(i));
    }
  }

  /** Once a replace has completed, cache and backend differ only where a notification is outstanding. */
  lemma RefreshConverges(w: World, states: seq<State>, steps: seq<Step>, i: nat, z: Zone)
    requires IsRun(w, states, steps) && i < |states| && z in w.zones
    requires exists j :: 0 <= j < i && steps[j] == EndReplace
    ensures Typed(w, states[i])
    ensures Settled(states[i], z) ==> states[i].cache[z] == states[i].backend[z]
  {
    var j :| 0 <= j < i && steps[j] == EndReplace;
    StaysSynced(w, states, steps, j, i);
    RunKeepsInv(w, states, steps, i);
    assert ZoneOk(w, states[i], z);
  }

  lemma {:induction false} StaysSynced(w: World, states: seq<State>, steps: seq<Step>, j: nat, i: nat)
    requires IsRun(w, states, steps) && j < i < |states| && steps[j] == EndReplace
    ensures states[i].synced
    decreases i
  {
    hide IndexOf, Replay, Typed;
    assert states[i] == Do(w, states[i - 1], steps[i - 1]);
    if j < i - 1 { StaysSynced(w, states, steps, j, i - 1); }
  }

  // ---------------------------------------------------------------- the cache object takes these steps

  /**
   The object is in the abstract state; `rows` is the listing so far, and `merged` the new shards while they are
   being put in place.
   */
  ghost predicate Abstracts(w: World, s: State, c: AuthZoneCache, rows: seq<(Zone, int)>, merged: seq<map<Zone, int>>)
    reads c
  {
    && Typed(w, s) && c.refreshInterval > 0 && |c.maps| == w.count
    && c.replacePending == Pending(s) && c.pendingUpdates == s.log
    && Holds(w, c.maps, s.cache)
    && (s.phase.Collecting? ==> forall z :: z in w.zones ==> Listed(rows, z) == ReadSoFar(s.phase.rows, z))
    && (s.phase.Swapping? ==> |merged| == w.count && Holds(w, merged, s.phase.merged))
  }

  ghost predicate Holds(w: World, shards: seq<map<Zone, int>>, values: map<Zone, Option<int>>)
    requires shards != []
  {
    forall z :: z in w.zones ==> z in values && Get(shards, z) == values[z]
  }

  /** A zone that is not read yet, or is not there, has no row. */
  function ReadSoFar(rows: map<Zone, Option<int>>, z: Zone): Option<int> {
    if z in rows then rows[z] else None
  }

  /** Changing the backend does not touch the cache. */
  lemma ChangeStep(w: World, s: State, c: AuthZoneCache, rows: seq<(Zone, int)>,
                   merged: seq<map<Zone, int>>, zone: Zone, id: Option<int>)
    requires Abstracts(w, s, c, rows, merged) && Enabled(w, s, Change(zone, id))
    ensures Abstracts(w, Do(w, s, Change(zone, id)), c, rows, merged)
  {
    hide Get, Listed;
    StepKeepsTyped(w, s, Change(zone, id));
  }

  /** Reading a zone for the first time adds its row to the listing if it exists. */
  lemma ReadRowStep(w: World, s: State, c: AuthZoneCache, rows: seq<(Zone, int)>,
                    merged: seq<map<Zone, int>>, zone: Zone)
    requires Abstracts(w, s, c, rows, merged) && Enabled(w, s, ReadRow(zone)) && zone !in s.phase.rows
    ensures var id := s.backend[zone];
            Abstracts(w, Do(w, s, ReadRow(zone)), c, if id.Some? then rows + [(zone, id.value)] else rows, merged)
  {
    hide Get, Listed, Holds;
    StepKeepsTyped(w, s, ReadRow(zone));
    var id := s.backend[zone];
    var more := if id.Some? then rows + [(zone, id.value)] else rows;
    forall z | z in w.zones ensures Listed(more, z) == ReadSoFar(s.phase.rows[zone := id], z) {
      if id.Some? { ListedSnoc(rows, (zone, id.value), z); }
    }
  }

  method LogStep(w: World, ghost s: State, c: AuthZoneCache, ghost rows: seq<(Zone, int)>,
                 ghost merged: seq<map<Zone, int>>, u: Update)
    requires Abstracts(w, s, c, rows, merged) && Enabled(w, s, CallLog(u.zone)) && u.id == s.queue[u.zone][0]
    modifies c
    ensures Abstracts(w, Do(w, s, CallLog(u.zone)), c, rows, merged)
  {
    hide Get, Listed;
    StepKeepsTyped(w, s, CallLog(u.zone));
    c.LogUpdate(u);
  }

  method StoreStep(w: World, ghost s: State, c: AuthZoneCache, ghost rows: seq<(Zone, int)>,
                   ghost merged: seq<map<Zone, int>>, u: Update)
    requires Abstracts(w, s, c, rows, merged) && Enabled(w, s, CallStore(u.zone)) && u.id == s.calls[u.zone]
    modifies c
    ensures Abstracts(w, Do(w, s, CallStore(u.zone)), c, rows, merged)
  {
    hide Get, Listed;
    StepKeepsTyped(w, s, CallStore(u.zone));
    c.StoreUpdate(u);
  }

  method SetPendingStep(w: World, ghost s: State, c: AuthZoneCache, ghost rows: seq<(Zone, int)>,
                        ghost merged: seq<map<Zone, int>>)
    requires Abstracts(w, s, c, rows, merged) && Enabled(w, s, SetPending)
    modifies c
    ensures Abstracts(w, Do(w, s, SetPending), c, [], merged)
  {
    hide Get;
    StepKeepsTyped(w, s, SetPending);
    c.SetReplacePending();
  }

  method BeginReplaceStep(w: World, ghost s: State, c: AuthZoneCache, rows: seq<(Zone, int)>,
                          ghost merged: seq<map<Zone, int>>)
    returns (newMaps: seq<map<Zone, int>>, total: int)
    requires Abstracts(w, s, c, rows, merged) && Enabled(w, s, BeginReplace)
    ensures Abstracts(w, Do(w, s, BeginReplace), c, rows, newMaps)
    ensures NoDuplicates(rows) ==> total == Entries(newMaps)
  {
    hide Get, Listed, Replay, NoDuplicates, Entries;
    StepKeepsTyped(w, s, BeginReplace);
    newMaps, total := c.Merge(rows);
  }

  method SwapShardStep(w: World, ghost s: State, c: AuthZoneCache, ghost rows: seq<(Zone, int)>,
                       merged: seq<map<Zone, int>>, shard: nat)
    requires Abstracts(w, s, c, rows, merged) && Enabled(w, s, SwapShard(shard))
    modifies c
    ensures Abstracts(w, Do(w, s, SwapShard(shard)), c, rows, merged)
  {
    hide Get, Listed, IndexOf;
    StepKeepsTyped(w, s, SwapShard(shard));
    forall z { GetInstalled(c.maps, merged, shard, z); }
    c.InstallShard(shard, merged[shard]);
  }

  lemma GetInstalled(shards: seq<map<Zone, int>>, merged: seq<map<Zone, int>>, i: nat, z: Zone)
    requires |shards| == |merged| && i < |shards|
    ensures Get(shards[i := merged[i]], z) == if IndexOf(z, |shards|) == i then Get(merged, z) else Get(shards, z)
  {
    hide IndexOf;
  }

  method EndReplaceStep(w: World, ghost s: State, c: AuthZoneCache, ghost rows: seq<(Zone, int)>,
                        ghost merged: seq<map<Zone, int>>, total: int)
    requires Abstracts(w, s, c, rows, merged) && Enabled(w, s, EndReplace)
    modifies c
    ensures Abstracts(w, Do(w, s, EndReplace), c, rows, merged)
  {
    hide Get, Listed;
    StepKeepsTyped(w, s, EndReplace);
    c.FinishReplace(total);
  }
}
