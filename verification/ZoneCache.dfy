/**
 AuthZoneCache: zone name to zone id, sharded by hash.

 A refresh marks itself pending, lists the backend zone by zone, and then replaces the
 whole cache.  Updates that arrive in between are logged and replayed over the listing.
 */
module ZoneCache {
  import opened Results
  import opened Wire
  import opened Burtle
  import opened ZoneNames

  /** An add (Some id) or a remove (None) of one zone. */
  datatype Update = Update(zone: Zone, id: Option<int>)

  /** ZoneName::hash: the variant seeds the hash of the name. */
  function ZoneHash(z: Zone): bv32
    requires LabelsOk(z.name)
  {
    Hash(LowerAll(Encode(z.name)), if z.variant == [] then 0 else Hash(LowerAll(z.variant), 0))
  }

  function IndexOf(z: Zone, count: nat): (r: nat)
    requires count > 0
    ensures r < count
  {
    if LabelsOk(z.name) then ZoneHash(z) as nat % count else 0
  }

  // ---------------------------------------------------------------- replaying updates

  /** The value of z after the updates, starting from v. */
  function Replay(v: Option<int>, updates: seq<Update>, z: Zone): Option<int> {
    if updates == [] then v
    else
      var last := updates[|updates| - 1];
      if last.zone == z then last.id else Replay(v, updates[..|updates| - 1], z)
  }

  /** The value of z in a listing; a later row wins. */
  function Listed(rows: seq<(Zone, int)>, z: Zone): Option<int> {
    if rows == [] then None
    else
      var last := rows[|rows| - 1];
      if last.0 == z then Some(last.1) else Listed(rows[..|rows| - 1], z)
  }

  lemma ReplaySnoc(v: Option<int>, updates: seq<Update>, u: Update, z: Zone)
    ensures Replay(v, updates + [u], z) == if u.zone == z then u.id else Replay(v, updates, z)
  {
    assert (updates + [u])[..|updates|] == updates;
  }

  lemma ListedSnoc(rows: seq<(Zone, int)>, row: (Zone, int), z: Zone)
    ensures Listed(rows + [row], z) == if row.0 == z then Some(row.1) else Listed(rows, z)
  {
    assert (rows + [row])[..|rows|] == rows;
  }

  // ---------------------------------------------------------------- shards

  function Get(shards: seq<map<Zone, int>>, z: Zone): Option<int>
    requires shards != []
  {
    var m := shards[IndexOf(z, |shards|)];
    if z in m then Some(m[z]) else None
  }

  function Entries(shards: seq<map<Zone, int>>): nat {
    if shards == [] then 0 else |shards[0]| + Entries(shards[1..])
  }

  /** Storing an update in the shard of its zone. */
  function Stored(shards: seq<map<Zone, int>>, u: Update): (r: seq<map<Zone, int>>)
    requires shards != []
    ensures |r| == |shards|
  {
    var i := IndexOf(u.zone, |shards|);
    shards[i := if u.id.Some? then shards[i][u.zone := u.id.value] else shards[i] - {u.zone}]
  }

  lemma GetStored(shards: seq<map<Zone, int>>, u: Update, z: Zone)
    requires shards != []
    ensures Get(Stored(shards, u), z) == if z == u.zone then u.id else Get(shards, z)
  {
    hide IndexOf;
  }

  lemma {:induction false} EntriesUpdate(shards: seq<map<Zone, int>>, i: nat, m: map<Zone, int>)
    requires i < |shards|
    ensures Entries(shards[i := m]) == Entries(shards) - |shards[i]| + |m|
  {
    if i == 0 {
      assert shards[0 := m][1..] == shards[1..];
    } else {
      assert shards[i := m][1..] == shards[1..][i - 1 := m];
      EntriesUpdate(shards[1..], i - 1, m);
    }
  }

  /** An update changes the number of entries by what its zone gains or loses. */
  lemma EntriesStored(shards: seq<map<Zone, int>>, u: Update)
    requires shards != []
    ensures Entries(Stored(shards, u)) ==
            Entries(shards) + (if u.id.Some? then 1 else 0) - (if Get(shards, u.zone).Some? then 1 else 0)
  {
    var i := IndexOf(u.zone, |shards|);
    var m := shards[i];
    hide IndexOf;
    EntriesUpdate(shards, i, if u.id.Some? then m[u.zone := u.id.value] else m - {u.zone});
    if u.zone in m {
      assert (m - {u.zone}).Keys == m.Keys - {u.zone};
      assert u.id.Some? ==> m[u.zone := u.id.value].Keys == m.Keys;
    } else {
      assert m - {u.zone} == m;
      assert u.id.Some? ==> m[u.zone := u.id.value].Keys == m.Keys + {u.zone};
    }
  }

  /** The shards hold the listing with the updates replayed over it. */
  ghost predicate Shows(shards: seq<map<Zone, int>>, rows: seq<(Zone, int)>, updates: seq<Update>) {
    shards != [] && forall z :: Get(shards, z) == Replay(Listed(rows, z), updates, z)
  }

  lemma ShowsUpdate(shards: seq<map<Zone, int>>, rows: seq<(Zone, int)>, updates: seq<Update>, u: Update)
    requires Shows(shards, rows, updates)
    ensures Shows(Stored(shards, u), rows, updates + [u])
  {
    forall z ensures Get(Stored(shards, u), z) == Replay(Listed(rows, z), updates + [u], z) {
      GetStored(shards, u, z);
      ReplaySnoc(Listed(rows, z), updates, u, z);
    }
  }

  lemma ShowsRow(shards: seq<map<Zone, int>>, rows: seq<(Zone, int)>, row: (Zone, int))
    requires Shows(shards, rows, [])
    ensures Shows(Stored(shards, Update(row.0, Some(row.1))), rows + [row], [])
  {
    var u := Update(row.0, Some(row.1));
    forall z ensures Get(Stored(shards, u), z) == Listed(rows + [row], z) {
      GetStored(shards, u, z);
      ListedSnoc(rows, row, z);
      assert Get(shards, z) == Replay(Listed(rows, z), [], z);
    }
  }

  // ---------------------------------------------------------------- the object

  class AuthZoneCache {
    var maps: seq<map<Zone, int>>
    var pendingUpdates: seq<Update>
    var replacePending: bool
    var count: int
    const refreshInterval: nat

    ghost predicate Valid()
      reads this
    {
      maps != []
    }

    constructor (mapsCount: nat, interval: nat)
      requires mapsCount > 0
      ensures Valid() && refreshInterval == interval && |maps| == mapsCount && !replacePending && pendingUpdates == [] && count == 0
      ensures forall z :: Get(maps, z) == None
    {
      maps := seq(mapsCount, _ => map[]);
      pendingUpdates, replacePending, count, refreshInterval := [], false, 0, interval;
    }

    method GetEntry(zone: Zone) returns (r: Option<int>)
      requires Valid()
      ensures r == Get(maps, zone)
    {
      var map_ := maps[IndexOf(zone, |maps|)];
      if zone in map_ { return Some(map_[zone]); }
      return None;
    }

    /** The first locked section of add and remove. */
    method LogUpdate(u: Update)
      modifies this
      ensures pendingUpdates == if replacePending then old(pendingUpdates) + [u] else old(pendingUpdates)
      ensures maps == old(maps) && replacePending == old(replacePending) && count == old(count)
    {
      if replacePending {
        pendingUpdates := pendingUpdates + [u];
      }
    }

    /** The second locked section of add and remove. */
    method StoreUpdate(u: Update)
      requires Valid()
      modifies this
      ensures Valid() && |maps| == |old(maps)|
      ensures forall z :: Get(maps, z) == if z == u.zone then u.id else Get(old(maps), z)
      ensures pendingUpdates == old(pendingUpdates) && replacePending == old(replacePending)
      ensures count - Entries(maps) == old(count) - Entries(old(maps))
    {
      var i := IndexOf(u.zone, |maps|);
      var found := u.zone in maps[i];
      forall z { GetStored(maps, u, z); }
      EntriesStored(maps, u);
      hide IndexOf, Entries;
      maps := Stored(maps, u);
      if u.id.Some? {
        if !found { count := count + 1; }
      } else if found {
        count := count - 1;
      }
    }

    /** add and remove: log first, then store, each under its own lock. */
    method Apply(u: Update)
      requires Valid()
      modifies this
      ensures Valid() && replacePending == old(replacePending)
      ensures refreshInterval == 0 ==> maps == old(maps) && pendingUpdates == old(pendingUpdates) && count == old(count)
      ensures refreshInterval > 0 ==>
                && (forall z :: Get(maps, z) == if z == u.zone then u.id else Get(old(maps), z))
                && pendingUpdates == (if replacePending then old(pendingUpdates) + [u] else old(pendingUpdates))
                && count - Entries(maps) == old(count) - Entries(old(maps))
    {
      if refreshInterval == 0 { return; }
      LogUpdate(u);
      StoreUpdate(u);
    }

    method SetReplacePending()
      modifies this
      ensures maps == old(maps) && count == old(count)
      ensures if refreshInterval == 0 then replacePending == old(replacePending) && pendingUpdates == old(pendingUpdates)
              else replacePending && pendingUpdates == []
    {
      if refreshInterval == 0 { return; }
      replacePending := true;
      pendingUpdates := [];
    }

    /** The shards a replace puts in place: the listing with the logged updates replayed over it. */
    method Merge(rows: seq<(Zone, int)>) returns (newMaps: seq<map<Zone, int>>, total: int)
      requires Valid()
      ensures |newMaps| == |maps| && forall z :: Get(newMaps, z) == Replay(Listed(rows, z), pendingUpdates, z)
      ensures NoDuplicates(rows) ==> total == Entries(newMaps)
    {
      newMaps := BuildMaps(rows, |maps|);
      newMaps, total := ReplayLog(newMaps, pendingUpdates, rows);
    }

    /** One shard changes under its own lock. */
    method InstallShard(i: nat, m: map<Zone, int>)
      requires Valid() && i < |maps|
      modifies this
      ensures maps == old(maps)[i := m]
      ensures pendingUpdates == old(pendingUpdates) && replacePending == old(replacePending) && count == old(count)
    {
      maps := maps[i := m];
    }

    /** The end of a replace, still under the lock of the log. */
    method FinishReplace(total: int)
      modifies this
      ensures maps == old(maps) && pendingUpdates == [] && !replacePending && count == total
    {
      pendingUpdates := [];
      replacePending := false;
      count := total;
    }

    /** replace with a zone list. */
    method Replace(rows: seq<(Zone, int)>)
      requires Valid() && (refreshInterval > 0 ==> replacePending)
      modifies this
      ensures Valid() && |maps| == |old(maps)|
      ensures refreshInterval == 0 ==> maps == old(maps) && count == old(count)
      ensures refreshInterval > 0 ==>
                && (forall z :: Get(maps, z) == Replay(Listed(rows, z), old(pendingUpdates), z))
                && !replacePending && pendingUpdates == []
                && (NoDuplicates(rows) ==> count == Entries(maps))
    {
      if refreshInterval == 0 { return; }
      var newMaps, total := Merge(rows);
      hide Get, Replay, Listed, Entries, NoDuplicates;
      for i := 0 to |maps|
        invariant |maps| == |newMaps| == |old(maps)| && forall j :: 0 <= j < i ==> maps[j] == newMaps[j]
        invariant pendingUpdates == old(pendingUpdates) && replacePending == old(replacePending)
      {
        InstallShard(i, newMaps[i]);
      }
      assert maps == newMaps;
      FinishReplace(total);
    }
  }

  ghost predicate NoDuplicates(rows: seq<(Zone, int)>) {
    forall i, j :: 0 <= i < j < |rows| ==> rows[i].0 != rows[j].0
  }

  /** The new shards of replace, before the log is replayed. */
  method BuildMaps(rows: seq<(Zone, int)>, mapsCount: nat) returns (newMaps: seq<map<Zone, int>>)
    requires mapsCount > 0
    ensures |newMaps| == mapsCount && Shows(newMaps, rows, [])
    ensures NoDuplicates(rows) ==> |rows| == Entries(newMaps)
  {
    hide IndexOf, Entries, Shows, Stored, Get, Listed;
    newMaps := seq(mapsCount, _ => map[]);
    EmptyEntries(newMaps);
    var i := 0;
    while i < |rows|
      invariant 0 <= i <= |rows| && |newMaps| == mapsCount
      invariant Shows(newMaps, rows[..i], [])
      invariant NoDuplicates(rows) ==> i == Entries(newMaps)
    {
      var u := Update(rows[i].0, Some(rows[i].1));
      ShowsRow(newMaps, rows[..i], rows[i]);
      EntriesStored(newMaps, u);
      if NoDuplicates(rows) { NewZone(newMaps, rows[..i], u.zone); }
      assert rows[..i + 1] == rows[..i] + [rows[i]];
      newMaps := Stored(newMaps, u);
      i := i + 1;
    }
    assert rows[..i] == rows;
  }

  /** The second half of replace: updates logged during the listing, and the entry count. */
  method ReplayLog(built: seq<map<Zone, int>>, updates: seq<Update>, rows: seq<(Zone, int)>)
    returns (newMaps: seq<map<Zone, int>>, total: int)
    requires Shows(built, rows, [])
    requires NoDuplicates(rows) ==> |rows| == Entries(built)
    ensures |newMaps| == |built| && Shows(newMaps, rows, updates)
    ensures NoDuplicates(rows) ==> total == Entries(newMaps)
  {
    hide IndexOf, Entries, Listed, Replay, NoDuplicates;
    newMaps, total := built, |rows|;
    var i := 0;
    while i < |updates|
      invariant 0 <= i <= |updates| && |newMaps| == |built|
      invariant Shows(newMaps, rows, updates[..i])
      invariant NoDuplicates(rows) ==> total == Entries(newMaps)
    {
      var u := updates[i];
      var found := u.zone in newMaps[IndexOf(u.zone, |newMaps|)];
      ShowsUpdate(newMaps, rows, updates[..i], u);
      EntriesStored(newMaps, u);
      assert updates[..i + 1] == updates[..i] + [u];
      newMaps := Stored(newMaps, u);
      if found && u.id.None? {
        total := total - 1;
      } else if !found && u.id.Some? {
        total := total + 1;
      }
      i := i + 1;
    }
    assert updates[..i] == updates;
  }

  lemma NewZone(shards: seq<map<Zone, int>>, rows: seq<(Zone, int)>, z: Zone)
    requires Shows(shards, rows, []) && forall i :: 0 <= i < |rows| ==> rows[i].0 != z
    ensures Get(shards, z) == None
  {
    NotListed(rows, z);
    assert Get(shards, z) == Replay(Listed(rows, z), [], z);
  }

  lemma {:induction false} NotListed(rows: seq<(Zone, int)>, z: Zone)
    requires forall i :: 0 <= i < |rows| ==> rows[i].0 != z
    ensures Listed(rows, z) == None
  {
    if rows != [] { NotListed(rows[..|rows| - 1], z); }
  }

  lemma {:induction false} EmptyEntries(shards: seq<map<Zone, int>>)
    requires forall i :: 0 <= i < |shards| ==> shards[i] == map[]
    ensures Entries(shards) == 0
    ensures shards != [] ==> Shows(shards, [], [])
  {
    if shards != [] { EmptyEntries(shards[1..]); }
  }
}
