/**
 AuthQueryCache: answers sharded by name hash, each shard a container with a unique hash
 index on (name, type, zone), a name index and a sequence index.

 The simple map it refines is `latest`: the last accepted insert per key that no later
 purge covered.  `evicted` holds the keys of `latest` that were pushed out for lack of room.
 */
module QueryCache {
  import opened Results
  import opened Wire
  import opened Burtle
  import opened CacheCleaner
  import opened CacheTrimmer

  /** A hash key; the name is lower-cased because names compare up to case. */
  datatype Key = Key(name: Name, qtype: int, zoneId: int)

  datatype Stored = Stored(records: seq<string>, ttd: int)

  datatype View = View(latest: map<Key, Stored>, evicted: set<Key>, clock: int)

  function MakeKey(qname: Name, qtype: int, zoneId: int): Key {
    Key(LowerName(qname), qtype, zoneId)
  }

  function KeyOf(e: Entry): Key {
    MakeKey(e.qname, e.qtype, e.zoneId)
  }

  ghost predicate UniqueKeys(s: seq<Entry>) {
    forall i, j :: 0 <= i < j < |s| ==> KeyOf(s[i]) != KeyOf(s[j])
  }

  ghost predicate Held(s: seq<Entry>, k: Key) {
    exists e :: e in s && KeyOf(e) == k
  }

  // ---------------------------------------------------------------- the invariant

  ghost predicate KeyOk(k: Key) {
    LabelsOk(k.name) && LowerName(k.name) == k.name
  }

  /** Every entry of shard i belongs there and is the latest answer for its key. */
  ghost predicate EntryOk(e: Entry, i: nat, count: nat, v: View)
    requires count > 0
  {
    && LabelsOk(e.qname) && ShardOf(e.qname, count) == i
    && KeyOf(e) in v.latest && v.latest[KeyOf(e)] == Stored(e.records, e.ttd)
    && KeyOf(e) !in v.evicted
  }

  ghost predicate In(shards: seq<seq<Entry>>, i: nat, e: Entry) {
    i < |shards| && e in shards[i]
  }

  ghost predicate AllUnique(shards: seq<seq<Entry>>) {
    forall i :: 0 <= i < |shards| ==> UniqueKeys(shards[i])
  }

  ghost predicate AllPlaced(shards: seq<seq<Entry>>, v: View)
    requires shards != []
  {
    forall i, e :: In(shards, i, e) ==> EntryOk(e, i, |shards|, v)
  }

  ghost predicate KeyHeld(shards: seq<seq<Entry>>, k: Key)
    requires shards != [] && LabelsOk(k.name)
  {
    exists e :: In(shards, ShardOf(k.name, |shards|), e) && KeyOf(e) == k
  }

  /** Answers that are neither evicted nor expired are there. */
  ghost predicate Complete(shards: seq<seq<Entry>>, v: View)
    requires shards != []
  {
    forall k :: k in v.latest ==>
      KeyOk(k) && (k !in v.evicted && v.latest[k].ttd >= v.clock ==> KeyHeld(shards, k))
  }

  ghost predicate Consistent(shards: seq<seq<Entry>>, v: View) {
    && shards != []
    && AllUnique(shards)
    && AllPlaced(shards, v)
    && Complete(shards, v)
    && v.evicted <= v.latest.Keys
  }

  lemma KeyShard(e: Entry, count: nat)
    requires LabelsOk(e.qname) && count > 0
    ensures KeyOk(KeyOf(e)) && ShardOf(KeyOf(e).name, count) == ShardOf(e.qname, count)
  {
    LowerIdempotent(e.qname);
    LowerBody(e.qname);
    SpellingsShareShard(LowerName(e.qname), e.qname, count);
  }

  lemma EntryIn(shards: seq<seq<Entry>>, v: View, i: nat, e: Entry)
    requires Consistent(shards, v) && In(shards, i, e)
    ensures EntryOk(e, i, |shards|, v)
    ensures KeyOk(KeyOf(e)) && ShardOf(KeyOf(e).name, |shards|) == i
  {
    assert EntryOk(e, i, |shards|, v);
    KeyShard(e, |shards|);
  }

  /** The entry behind a key that is neither evicted nor expired. */
  lemma HeldEntry(shards: seq<seq<Entry>>, v: View, k: Key) returns (e: Entry)
    requires Consistent(shards, v) && k in v.latest && k !in v.evicted && v.latest[k].ttd >= v.clock
    ensures KeyOk(k) && In(shards, ShardOf(k.name, |shards|), e) && KeyOf(e) == k && e.ttd == v.latest[k].ttd
  {
    assert KeyHeld(shards, k);
    e :| In(shards, ShardOf(k.name, |shards|), e) && KeyOf(e) == k;
    EntryIn(shards, v, ShardOf(k.name, |shards|), e);
  }

  // ---------------------------------------------------------------- removals

  lemma {:induction false} KeepUnique(s: seq<Entry>, sel: Selection)
    requires UniqueKeys(s)
    ensures UniqueKeys(Keep(s, sel))
  {
    if s != [] {
      KeepUnique(s[1..], sel);
      var r := Keep(s[1..], sel);
      forall j | 0 <= j < |r| ensures KeyOf(r[j]) != KeyOf(s[0]) {
        assert r[j] in s[1..];
      }
    }
  }

  lemma ScannedUnique(s: seq<Entry>, k: nat, now: int)
    requires UniqueKeys(s)
    ensures UniqueKeys(Scanned(s, k, now))
    ensures forall e :: e in Scanned(s, k, now) ==> e in s
    ensures forall e :: e in s && e.ttd >= now ==> e in Scanned(s, k, now)
  {
    var k' := if k < |s| then k else |s|;
    var a, b := s[..k'], s[k'..];
    assert s == a + b;
    assert forall e, f :: e in a && f in b ==> KeyOf(e) != KeyOf(f);
    KeepUnique(a, StaleAt(now));
    hide Keep;
    UniqueConcat(Keep(a, StaleAt(now)), b);
  }

  lemma UniqueConcat(a: seq<Entry>, b: seq<Entry>)
    requires UniqueKeys(a) && UniqueKeys(b) && forall e, f :: e in a && f in b ==> KeyOf(e) != KeyOf(f)
    ensures UniqueKeys(a + b)
  {
    hide KeyOf;
  }

  /**
   Entries may be dropped from the shards when the view forgets their keys or the clock has
   passed them.
   */
  lemma Restrict(shards: seq<seq<Entry>>, v: View, after: seq<seq<Entry>>, w: View)
    requires Consistent(shards, v) && |after| == |shards| && AllUnique(after)
    requires forall i, e :: In(after, i, e) ==> In(shards, i, e) && KeyOf(e) in w.latest
    requires forall i, e :: In(shards, i, e) && KeyOf(e) in w.latest && e.ttd >= w.clock ==> In(after, i, e)
    requires forall k :: k in w.latest ==> k in v.latest && w.latest[k] == v.latest[k]
    requires w.evicted == v.evicted * w.latest.Keys && v.clock <= w.clock
    ensures Consistent(after, w)
  {
    assert after != [];
    hide ShardOf, AllUnique, LowerName, LabelsOk, In, Consistent;
    assert Complete(after, w) by {
      forall k | k in w.latest
        ensures KeyOk(k) && (k !in w.evicted && w.latest[k].ttd >= w.clock ==> KeyHeld(after, k))
      {
        LatestKeyOk(shards, v, k);
        if k !in w.evicted && w.latest[k].ttd >= w.clock {
          var e := HeldEntry(shards, v, k);
          assert In(after, ShardOf(k.name, |after|), e);
        }
      }
    }
    assert AllPlaced(after, w) by {
      forall i, e | In(after, i, e) ensures EntryOk(e, i, |after|, w) {
        EntryIn(shards, v, i, e);
      }
    }
    IntroConsistent(after, w);
  }

  lemma IntroConsistent(shards: seq<seq<Entry>>, v: View)
    requires shards != [] && AllUnique(shards) && AllPlaced(shards, v) && Complete(shards, v)
    requires v.evicted <= v.latest.Keys
    ensures Consistent(shards, v)
  {
  }

  lemma UniqueAt(shards: seq<seq<Entry>>, v: View, i: nat)
    requires Consistent(shards, v) && i < |shards|
    ensures UniqueKeys(shards[i])
  {
  }

  lemma LatestKeyOk(shards: seq<seq<Entry>>, v: View, k: Key)
    requires Consistent(shards, v) && k in v.latest
    ensures KeyOk(k)
  {
  }

  /** Forgetting the selected keys. */
  function Forget(v: View, sel: Selection): View {
    var kept := map k | k in v.latest && !Selected(Entry(k.name, k.qtype, k.zoneId, [], 0), sel) :: v.latest[k];
    View(kept, v.evicted * kept.Keys, v.clock)
  }

  /** Purging by name looks at names up to case. */
  lemma SelectedByKey(e: Entry, sel: Selection)
    requires sel.Under? || sel.Named?
    ensures Selected(e, sel) <==> Selected(Entry(KeyOf(e).name, KeyOf(e).qtype, KeyOf(e).zoneId, [], 0), sel)
  {
    var low := LowerName(e.qname);
    LowerIdempotent(e.qname);
    match sel
    case Under(z) =>
      if |z| <= |low| {
        LowerSlice(e.qname, |low| - |z|, |low|);
        LowerSlice(low, |low| - |z|, |low|);
      }
    case Named(n) =>
  }

  lemma PurgeConsistent(shards: seq<seq<Entry>>, v: View, after: seq<seq<Entry>>, sel: Selection)
    requires Consistent(shards, v) && |after| == |shards| && (sel.Under? || sel.Named?)
    requires forall i :: 0 <= i < |after| ==> after[i] == Keep(shards[i], sel)
    ensures Consistent(after, Forget(v, sel))
  {
    var w := Forget(v, sel);
    forall i | 0 <= i < |after| ensures UniqueKeys(after[i]) {
      KeepUnique(shards[i], sel);
    }
    forall i, e | In(shards, i, e) ensures In(after, i, e) <==> KeyOf(e) in w.latest {
      EntryIn(shards, v, i, e);
      SelectedByKey(e, sel);
    }
    Restrict(shards, v, after, w);
  }

  /** All spellings of a name live in one shard, so the others lose nothing. */
  lemma NamedElsewhere(shards: seq<seq<Entry>>, v: View, n: Name, i: nat)
    requires Consistent(shards, v) && LabelsOk(n) && i < |shards| && i != ShardOf(n, |shards|)
    ensures Keep(shards[i], Named(n)) == shards[i]
  {
    forall x | 0 <= x < |shards[i]| ensures !SameName(shards[i][x].qname, n) {
      var e := shards[i][x];
      assert In(shards, i, e);
      EntryIn(shards, v, i, e);
      if SameName(e.qname, n) { SpellingsShareShard(e.qname, n, |shards|); }
    }
    KeepAll(shards[i], Named(n));
  }

  /** Questions share an entry iff they ask for the same name, up to case, the same type and the same zone. */
  lemma SameKey(a: Name, b: Name, qtypeA: int, qtypeB: int, zoneA: int, zoneB: int)
    ensures MakeKey(a, qtypeA, zoneA) == MakeKey(b, qtypeB, zoneB) <==> SameName(a, b) && qtypeA == qtypeB && zoneA == zoneB
  {
  }

  // ---------------------------------------------------------------- inserting

  /** Where the entry of a key stands. */
  function KeyAt(s: seq<Entry>, k: Key): set<int> {
    set x | 0 <= x < |s| && KeyOf(s[x]) == k
  }

  /** All other entries stay, in order. */
  lemma {:induction false} WithoutKeyLeaves(s: seq<Entry>, k: Key)
    ensures Leaves(s, KeyAt(s, k), WithoutKey(s, k))
  {
    if s == [] {
      LeavesNothing();
      assert KeyAt(s, k) == {};
    } else {
      hide KeyOf, Leaves, WithoutKey, KeyAt;
      var n := |s| - 1;
      var t, e := s[..n], s[n];
      assert s == t + [e];
      WithoutKeyLeaves(t, k);
      WithoutKeySnoc(t, e, k);
      KeyAtSnoc(t, e, k);
      LeavesSnoc(t, KeyAt(t, k), WithoutKey(t, k), e);
    }
  }

  lemma {:induction false} WithoutKeySnoc(t: seq<Entry>, e: Entry, k: Key)
    ensures WithoutKey(t + [e], k) == if KeyOf(e) == k then WithoutKey(t, k) else WithoutKey(t, k) + [e]
  {
    hide KeyOf;
    if t == [] {
      assert [e][1..] == [] && [] + [e] == [e];
    } else {
      assert (t + [e])[1..] == t[1..] + [e];
      WithoutKeySnoc(t[1..], e, k);
    }
  }

  lemma KeyAtSnoc(t: seq<Entry>, e: Entry, k: Key)
    ensures KeyAt(t + [e], k) == if KeyOf(e) == k then KeyAt(t, k) + {|t|} else KeyAt(t, k)
  {
    hide KeyOf;
    var s := t + [e];
    assert forall x :: 0 <= x < |t| ==> s[x] == t[x];
  }

  function WithoutKey(s: seq<Entry>, k: Key): (r: seq<Entry>)
    ensures forall e :: e in r <==> e in s && KeyOf(e) != k
  {
    if s == [] then [] else (if KeyOf(s[0]) == k then [] else [s[0]]) + WithoutKey(s[1..], k)
  }

  lemma {:induction false} WithoutKeyUnique(s: seq<Entry>, k: Key)
    requires UniqueKeys(s)
    ensures UniqueKeys(WithoutKey(s, k))
    ensures |WithoutKey(s, k)| == if Held(s, k) then |s| - 1 else |s|
  {
    hide KeyOf;
    if s != [] {
      WithoutKeyUnique(s[1..], k);
      var r := WithoutKey(s[1..], k);
      forall j | 0 <= j < |r| ensures KeyOf(r[j]) != KeyOf(s[0]) {
        assert r[j] in s[1..];
      }
      if KeyOf(s[0]) == k {
        assert s[0] in s;
        assert forall e :: e in s[1..] ==> KeyOf(e) != k;
      } else if Held(s, k) {
        var e :| e in s && KeyOf(e) == k;
        assert e in s[1..];
      }
    }
  }

  /** The sequence index of a shard after inserting e: at the back, replacing an entry with its key. */
  function Pushed(s: seq<Entry>, e: Entry): seq<Entry> {
    WithoutKey(s, KeyOf(e)) + [e]
  }

  function Remember(v: View, e: Entry, now: int): View {
    View(v.latest[KeyOf(e) := Stored(e.records, e.ttd)], v.evicted - {KeyOf(e)}, now)
  }

  lemma PushConsistent(shards: seq<seq<Entry>>, v: View, i: nat, e: Entry, now: int)
    requires Consistent(shards, v) && LabelsOk(e.qname) && i == ShardOf(e.qname, |shards|) && v.clock <= now
    ensures Consistent(shards[i := Pushed(shards[i], e)], Remember(v, e, now))
  {
    var after, w := shards[i := Pushed(shards[i], e)], Remember(v, e, now);
    assert AllUnique(after) by {
      WithoutKeyUnique(shards[i], KeyOf(e));
      PushedUnique(shards[i], e);
    }
    PushPlaced(shards, v, i, e, now);
    PushComplete(shards, v, i, e, now);
    hide AllUnique, AllPlaced, Complete;
    IntroConsistent(after, w);
  }

  lemma PushPlaced(shards: seq<seq<Entry>>, v: View, i: nat, e: Entry, now: int)
    requires Consistent(shards, v) && LabelsOk(e.qname) && i == ShardOf(e.qname, |shards|)
    ensures AllPlaced(shards[i := Pushed(shards[i], e)], Remember(v, e, now))
  {
    var after := shards[i := Pushed(shards[i], e)];
    forall x, f | In(after, x, f) ensures EntryOk(f, x, |after|, Remember(v, e, now)) {
      if x == i && f == e {
        KeyShard(e, |shards|);
      } else {
        assert In(shards, x, f);
        KeepsPlace(shards, v, x, f, e, now);
      }
    }
  }

  /** Remembering an answer leaves the entries of other keys in order. */
  lemma KeepsPlace(shards: seq<seq<Entry>>, v: View, x: nat, f: Entry, e: Entry, now: int)
    requires Consistent(shards, v) && In(shards, x, f) && LabelsOk(e.qname)
    requires KeyOf(f) != KeyOf(e) || x != ShardOf(e.qname, |shards|)
    ensures EntryOk(f, x, |shards|, Remember(v, e, now))
  {
    KeyShard(e, |shards|);
    EntryIn(shards, v, x, f);
  }

  lemma PushedHeld(shards: seq<seq<Entry>>, i: nat, e: Entry)
    requires shards != [] && LabelsOk(e.qname) && i == ShardOf(e.qname, |shards|)
    ensures KeyOk(KeyOf(e)) && KeyHeld(shards[i := Pushed(shards[i], e)], KeyOf(e))
  {
    hide ShardOf, LowerName, LabelsOk, WithoutKey;
    KeyShard(e, |shards|);
    assert In(shards[i := Pushed(shards[i], e)], i, e);
  }

  lemma PushComplete(shards: seq<seq<Entry>>, v: View, i: nat, e: Entry, now: int)
    requires Consistent(shards, v) && LabelsOk(e.qname) && i == ShardOf(e.qname, |shards|) && v.clock <= now
    ensures Complete(shards[i := Pushed(shards[i], e)], Remember(v, e, now))
  {
    hide ShardOf, LowerName, LabelsOk, Consistent, WithoutKey, KeyHeld, Pushed;
    var after, w := shards[i := Pushed(shards[i], e)], Remember(v, e, now);
    PushedHeld(shards, i, e);
    forall k | k in w.latest
      ensures KeyOk(k) && (k !in w.evicted && w.latest[k].ttd >= w.clock ==> KeyHeld(after, k))
    {
      if k != KeyOf(e) {
        LatestKeyOk(shards, v, k);
        if k !in w.evicted && w.latest[k].ttd >= w.clock {
          StillHeld(shards, v, i, e, k);
        }
      }
    }
  }

  lemma StillHeld(shards: seq<seq<Entry>>, v: View, i: nat, e: Entry, k: Key)
    requires Consistent(shards, v) && i < |shards| && k != KeyOf(e)
    requires k in v.latest && k !in v.evicted && v.latest[k].ttd >= v.clock
    ensures KeyOk(k) && KeyHeld(shards[i := Pushed(shards[i], e)], k)
  {
    var f := HeldEntry(shards, v, k);
    hide ShardOf, LowerName, Consistent, WithoutKey;
    assert In(shards[i := Pushed(shards[i], e)], ShardOf(k.name, |shards|), f);
  }

  lemma PushedUnique(s: seq<Entry>, e: Entry)
    requires UniqueKeys(WithoutKey(s, KeyOf(e)))
    ensures UniqueKeys(Pushed(s, e))
  {
    var r := WithoutKey(s, KeyOf(e));
    forall j | 0 <= j < |r| ensures KeyOf(r[j]) != KeyOf(e) { assert r[j] in r; }
  }

  /** Making room: the entry least recently inserted or replaced in the shard goes. */
  lemma PopConsistent(shards: seq<seq<Entry>>, v: View, i: nat)
    requires Consistent(shards, v) && i < |shards| && shards[i] != []
    ensures Consistent(shards[i := shards[i][1..]], v.(evicted := v.evicted + {KeyOf(shards[i][0])}))
  {
    var first := shards[i][0];
    var after, w := shards[i := shards[i][1..]], v.(evicted := v.evicted + {KeyOf(first)});
    assert In(shards, i, first);
    EntryIn(shards, v, i, first);
    assert AllUnique(after);
    PopPlaced(shards, v, i);
    PopComplete(shards, v, i);
    hide AllUnique, AllPlaced, Complete;
    IntroConsistent(after, w);
  }

  lemma PopPlaced(shards: seq<seq<Entry>>, v: View, i: nat)
    requires Consistent(shards, v) && i < |shards| && shards[i] != []
    ensures AllPlaced(shards[i := shards[i][1..]], v.(evicted := v.evicted + {KeyOf(shards[i][0])}))
  {
    var first := shards[i][0];
    var after := shards[i := shards[i][1..]];
    assert forall f :: f in after[i] ==> KeyOf(f) != KeyOf(first) by { assert UniqueKeys(shards[i]); }
    assert In(shards, i, first);
    hide ShardOf, LowerName, Consistent, UniqueKeys;
    EntryIn(shards, v, i, first);
    forall x, f | In(after, x, f) ensures EntryOk(f, x, |after|, v.(evicted := v.evicted + {KeyOf(first)})) {
      assert In(shards, x, f);
      EntryIn(shards, v, x, f);
    }
  }

  lemma PopComplete(shards: seq<seq<Entry>>, v: View, i: nat)
    requires Consistent(shards, v) && i < |shards| && shards[i] != []
    ensures Complete(shards[i := shards[i][1..]], v.(evicted := v.evicted + {KeyOf(shards[i][0])}))
  {
    var after, w := shards[i := shards[i][1..]], v.(evicted := v.evicted + {KeyOf(shards[i][0])});
    hide ShardOf, LowerName, Consistent;
    forall k | k in w.latest
      ensures KeyOk(k) && (k !in w.evicted && w.latest[k].ttd >= w.clock ==> KeyHeld(after, k))
    {
      LatestKeyOk(shards, v, k);
      if k !in w.evicted && w.latest[k].ttd >= w.clock {
        var f := HeldEntry(shards, v, k);
        StaysBehind(shards, i, ShardOf(k.name, |after|), f);
      }
    }
  }

  lemma StaysBehind(shards: seq<seq<Entry>>, i: nat, x: nat, f: Entry)
    requires i < |shards| && shards[i] != [] && In(shards, x, f) && f != shards[i][0]
    ensures In(shards[i := shards[i][1..]], x, f)
  {
    if x == i { assert shards[i] == [shards[i][0]] + shards[i][1..]; }
  }

  // ---------------------------------------------------------------- the object

  /** What a lookup must find. */
  ghost function Answer(v: View, k: Key, now: int): Option<seq<string>> {
    if k in v.latest && k !in v.evicted && v.latest[k].ttd >= now then Some(v.latest[k].records) else None
  }

  lemma LookupExact(shards: seq<seq<Entry>>, v: View, qname: Name, qtype: int, zoneId: int, now: int)
    requires Consistent(shards, v) && LabelsOk(qname) && v.clock <= now
    ensures var k, s := MakeKey(qname, qtype, zoneId), shards[ShardOf(qname, |shards|)];
            && (forall e :: e in s && KeyOf(e) == k && e.ttd >= now ==> Answer(v, k, now) == Some(e.records))
            && (forall e :: e in s && KeyOf(e) == k && e.ttd < now ==> Answer(v, k, now) == None)
            && ((forall e :: e in s ==> KeyOf(e) != k) ==> Answer(v, k, now) == None)
  {
    var k, i := MakeKey(qname, qtype, zoneId), ShardOf(qname, |shards|);
    KeyShard(Entry(qname, qtype, zoneId, [], 0), |shards|);
    hide ShardOf, LowerName, Consistent;
    forall e | e in shards[i] && KeyOf(e) == k
      ensures Answer(v, k, now) == if e.ttd >= now then Some(e.records) else None
    {
      assert In(shards, i, e);
      EntryIn(shards, v, i, e);
    }
    if Answer(v, k, now).Some? {
      var e := HeldEntry(shards, v, k);
    }
  }

  class AuthQueryCache {
    const maps: array<seq<Entry>>
    var entries: nat
    var maxEntries: nat
    ghost var view: View
    ghost var history: seq<Event>

    ghost predicate Valid()
      reads this, maps
    {
      && maps.Length > 0 && Consistent(maps[..], view) && entries == Total(maps[..])
      && view.latest == After(history).latest
    }

    constructor (mapsCount: nat, max: nat)
      requires mapsCount > 0
      ensures Valid() && fresh(maps) && entries == 0 && history == [] && maxEntries == max && maps.Length == mapsCount
    {
      maps := new seq<Entry>[mapsCount](_ => []);
      entries := 0;
      maxEntries := max;
      view := View(map[], {}, 0);
      history := [];
      new;
      EmptyShards(maps[..]);
    }

    /** getMap: the shard of a name. */
    method MapOf(qname: Name) returns (i: nat)
      requires LabelsOk(qname) && maps.Length > 0
      ensures i == ShardOf(qname, maps.Length) < maps.Length
    {
      var h := HashCI(Encode(qname), 0);
      i := h as nat % maps.Length;
    }

    /** getEntry; `owns` tells whether the shard lock was free. */
    method GetEntry(qname: Name, qtype: int, zoneId: int, now: int, owns: bool) returns (r: Option<seq<string>>)
      requires Valid() && LabelsOk(qname) && view.clock <= now
      ensures r == if owns then Answer(view, MakeKey(qname, qtype, zoneId), now) else None
      ensures r.Some? ==>
                var last := LastInsert(history, MakeKey(qname, qtype, zoneId));
                last.Some? && last.value.records == r.value && last.value.ttd >= now
    {
      LatestIsLastInsert(history, MakeKey(qname, qtype, zoneId));
      hide LastInsert, After;
      var i := MapOf(qname);
      if !owns { return None; }
      LookupExact(maps[..], view, qname, qtype, zoneId, now);
      var place := Find(maps[i], MakeKey(qname, qtype, zoneId));
      assert maps[..][i] == maps[i];
      if place == |maps[i]| { return None; }
      if maps[i][place].ttd < now { return None; }
      return Some(maps[i][place].records);
    }

    /** insert: replaces the entry with the same key, else makes room when the cache is full. */
    method Insert(qname: Name, qtype: int, records: seq<string>, ttl: nat, zoneId: int, now: int, owns: bool)
      requires Valid() && LabelsOk(qname) && view.clock <= now
      modifies this, maps
      ensures Valid() && maxEntries == old(maxEntries)
      ensures entries <= old(entries) || entries <= maxEntries
      ensures var e := Entry(qname, qtype, zoneId, records, now + ttl);
              var i := ShardOf(qname, maps.Length);
              if ttl == 0 || !owns then view == old(view) && history == old(history) && entries == old(entries)
              else
                history == old(history) + [Inserted(e, now)] &&
                var room := Held(old(maps[i]), KeyOf(e)) || old(entries) < maxEntries;
                view == if room then Remember(old(view), e, now) else Evict(Remember(old(view), e, now), old(maps[i]), e)
      ensures var e := Entry(qname, qtype, zoneId, records, now + ttl);
              var i := ShardOf(qname, maps.Length);
              && (forall x :: 0 <= x < maps.Length && (x != i || ttl == 0 || !owns) ==> maps[x] == old(maps[x]))
              && (ttl > 0 && owns ==>
                    maps[i] == if Held(old(maps[i]), KeyOf(e)) || old(entries) < maxEntries
                               then WithoutKey(old(maps[i]), KeyOf(e)) + [e] else (old(maps[i]) + [e])[1..])
    {
      hide Consistent, Total, ShardOf, LowerName, WithoutKey, After;
      if ttl == 0 { return; }
      var e := Entry(qname, qtype, zoneId, records, now + ttl);
      var i := MapOf(qname);
      if !owns { return; }
      ghost var before := maps[..];
      var place := Find(maps[i], KeyOf(e));
      assert before[i] == maps[i];
      PushConsistent(before, view, i, e, now);
      UniqueAt(before, view, i);
      WithoutKeyUnique(maps[i], KeyOf(e));
      view := Remember(view, e, now);
      AfterOne(history, Inserted(e, now));
      history := history + [Inserted(e, now)];
      if place < |maps[i]| {
        TotalUpdate(before, i, Pushed(maps[i], e));
        assert maps[i][place] in maps[i];
        maps[i] := Pushed(maps[i], e);
        assert maps[..] == before[i := Pushed(before[i], e)];
      } else {
        WithoutKeyAbsent(maps[i], KeyOf(e));
        ghost var pushed := before[i := Pushed(before[i], e)];
        TotalUpdate(before, i, Pushed(before[i], e));
        maps[i] := maps[i] + [e];
        assert maps[..] == pushed;
        if entries >= maxEntries {
          PopConsistent(pushed, view, i);
          TotalUpdate(pushed, i, pushed[i][1..]);
          view := Evict(view, before[i], e);
          maps[i] := maps[i][1..];
          assert maps[..] == pushed[i := pushed[i][1..]];
        } else {
          entries := entries + 1;
        }
      }
    }

    /** purge() */
    method Purge() returns (delcount: nat)
      requires Valid()
      modifies this, maps
      ensures Valid() && maxEntries == old(maxEntries)
      ensures entries == 0 && delcount == old(entries) && view == View(map[], {}, old(view.clock))
      ensures history == old(history) + [PurgedAll]
    {
      AfterOne(history, PurgedAll);
      hide After, Total;
      history := history + [PurgedAll];
      entries := 0;
      delcount := PurgeAll(maps);
      view := View(map[], {}, view.clock);
      EmptyShards(maps[..]);
    }

    /** purge with a suffix: every answer under it is forgotten, and nothing else. */
    method PurgeUnder(z: Name) returns (delcount: nat)
      requires Valid()
      modifies this, maps
      ensures Valid() && maxEntries == old(maxEntries)
      ensures view == Forget(old(view), Under(z)) && delcount == old(entries) - entries
      ensures forall i :: 0 <= i < maps.Length ==> maps[i] == Keep(old(maps[i]), Under(z))
      ensures history == old(history) + [Purged(Under(z))]
    {
      hide Consistent, Total, Keep, Forget, After, Selected, LowerName, PartOf, SameName;
      AfterOne(history, Purged(Under(z)));
      ForgetLatest(view, After(history), Under(z));
      history := history + [Purged(Under(z))];
      ghost var before := maps[..];
      delcount := PurgeSuffix(maps, z);
      PurgeConsistent(before, view, maps[..], Under(z));
      view := Forget(view, Under(z));
      entries := entries - delcount;
    }

    /** purgeExact: only the shard of the name is touched. */
    method PurgeExact(qname: Name) returns (delcount: nat)
      requires Valid() && LabelsOk(qname)
      modifies this, maps
      ensures Valid() && maxEntries == old(maxEntries)
      ensures view == Forget(old(view), Named(qname)) && delcount == old(entries) - entries
      ensures forall i :: 0 <= i < maps.Length ==> maps[i] == Keep(old(maps[i]), Named(qname))
      ensures history == old(history) + [Purged(Named(qname))]
    {
      hide Consistent, Total, Keep, Forget, ShardOf, After, Selected, LowerName, PartOf, SameName;
      AfterOne(history, Purged(Named(qname)));
      ForgetLatest(view, After(history), Named(qname));
      history := history + [Purged(Named(qname))];
      ghost var before := maps[..];
      var i := MapOf(qname);
      var kept, gone := PurgeExactShard(maps[i], qname);
      TotalUpdate(before, i, kept);
      maps[i] := kept;
      assert maps[..] == before[i := kept];
      forall x | 0 <= x < |before| ensures maps[..][x] == Keep(before[x], Named(qname)) {
        if x != i { NamedElsewhere(before, view, qname, x); }
      }
      PurgeConsistent(before, view, maps[..], Named(qname));
      view := Forget(view, Named(qname));
      entries := entries - gone;
      delcount := gone;
    }

    /** cleanup: expired entries go; no answer that could still be given is lost. */
    method Cleanup(now: int)
      requires Valid() && view.clock <= now
      modifies this, maps
      ensures Valid() && maxEntries == old(maxEntries)
      ensures view == old(view).(clock := now) && history == old(history) + [Tick(now)]
      ensures forall i :: 0 <= i < maps.Length ==>
                var was := old(maps[i]);
                Leaves(was, (set x | 0 <= x < |was| && x < (|was| + 9) / 10 && was[x].ttd < now), maps[i])
      ensures entries == old(entries) - StaleTenths(old(maps[..]), now)
    {
      hide Total, Scanned, Consistent, After, Leaves, StaleTenths;
      AfterOne(history, Tick(now));
      history := history + [Tick(now)];
      ghost var before := maps[..];
      var totErased := PruneLocked(maps, now);
      CleanupConsistent(before, view, maps[..], now);
      view := view.(clock := now);
      entries := entries - totErased;
      forall i | 0 <= i < maps.Length ensures Leaves(before[i], StaleAmong(before[i], (|before[i]| + 9) / 10, now), maps[i]) {
        ScannedLeaves(before[i], (|before[i]| + 9) / 10, now);
      }
      TenthsGone(before, maps[..], now);
    }
  }

  /** How many stale entries stand in the first tenth of their shards, rounded up. */
  function StaleTenths(shards: seq<seq<Entry>>, now: int): nat {
    if shards == [] then 0
    else
      var s := shards[0];
      |set x | 0 <= x < |s| && x < (|s| + 9) / 10 && s[x].ttd < now| + StaleTenths(shards[1..], now)
  }

  lemma {:induction false} TenthsGone(before: seq<seq<Entry>>, after: seq<seq<Entry>>, now: int)
    requires |after| == |before|
    requires forall i :: 0 <= i < |before| ==> Leaves(before[i], StaleAmong(before[i], (|before[i]| + 9) / 10, now), after[i])
    ensures Total(after) == Total(before) - StaleTenths(before, now)
  {
    if before != [] {
      TenthsGone(before[1..], after[1..], now);
      assert |after[0]| == |before[0]| - |StaleAmong(before[0], (|before[0]| + 9) / 10, now)|;
    }
  }

  lemma CleanupConsistent(shards: seq<seq<Entry>>, v: View, after: seq<seq<Entry>>, now: int)
    requires Consistent(shards, v) && |after| == |shards| && v.clock <= now
    requires forall i :: 0 <= i < |after| ==> after[i] == Scanned(shards[i], (|shards[i]| + 9) / 10, now)
    ensures Consistent(after, v.(clock := now))
  {
    hide Scanned, UniqueKeys, LowerName, ShardOf;
    forall i | 0 <= i < |after|
      ensures UniqueKeys(after[i])
      ensures forall e :: In(after, i, e) ==> In(shards, i, e)
      ensures forall e :: In(shards, i, e) && e.ttd >= now ==> In(after, i, e)
    {
      UniqueAt(shards, v, i);
      ScannedUnique(shards[i], (|shards[i]| + 9) / 10, now);
    }
    forall i, e | In(shards, i, e) ensures KeyOf(e) in v.latest {
      EntryIn(shards, v, i, e);
    }
    hide Consistent;
    Restrict(shards, v, after, v.(clock := now));
  }

  /** Pushing out the oldest entry of the shard, the new one included. */
  ghost function Evict(v: View, s: seq<Entry>, e: Entry): View {
    v.(evicted := v.evicted + {KeyOf((s + [e])[0])})
  }

  method Find(s: seq<Entry>, k: Key) returns (place: nat)
    ensures place <= |s|
    ensures place < |s| ==> KeyOf(s[place]) == k
    ensures place == |s| ==> forall e :: e in s ==> KeyOf(e) != k
  {
    place := 0;
    while place < |s| && KeyOf(s[place]) != k
      invariant place <= |s|
      invariant forall i :: 0 <= i < place ==> KeyOf(s[i]) != k
    {
      place := place + 1;
    }
  }

  lemma {:induction false} WithoutKeyAbsent(s: seq<Entry>, k: Key)
    requires forall e :: e in s ==> KeyOf(e) != k
    ensures WithoutKey(s, k) == s
  {
    if s != [] { WithoutKeyAbsent(s[1..], k); }
  }

  lemma {:induction false} EmptyShards(shards: seq<seq<Entry>>)
    requires forall i :: 0 <= i < |shards| ==> shards[i] == []
    ensures Total(shards) == 0
    ensures forall clock :: shards != [] ==> Consistent(shards, View(map[], {}, clock))
  {
    if shards != [] { EmptyShards(shards[1..]); }
  }

  // ---------------------------------------------------------------- histories

  datatype Event = Inserted(e: Entry, now: int) | Purged(sel: Selection) | PurgedAll | Tick(now: int)

  predicate Covers(sel: Selection, k: Key) {
    Selected(Entry(k.name, k.qtype, k.zoneId, [], 0), sel)
  }

  /** What the operations of a run, in order, turn the view into; evictions do not touch `latest`. */
  ghost function After(history: seq<Event>): View {
    if history == [] then View(map[], {}, 0)
    else Step(After(history[..|history| - 1]), history[|history| - 1])
  }

  ghost function Step(v: View, event: Event): View {
    match event
    case Inserted(e, now) => Remember(v, e, now)
    case Purged(sel) => Forget(v, sel)
    case PurgedAll => View(map[], {}, v.clock)
    case Tick(now) => v.(clock := now)
  }

  lemma AfterOne(history: seq<Event>, event: Event)
    ensures After(history + [event]) == Step(After(history), event)
  {
    assert (history + [event])[..|history|] == history;
  }

  lemma ForgetLatest(v: View, w: View, sel: Selection)
    requires v.latest == w.latest
    ensures Forget(v, sel).latest == Forget(w, sel).latest
  {
  }

  /** Searching a history backwards for the last insert of a key that no later purge covers. */
  function LastInsert(history: seq<Event>, k: Key): Option<Stored> {
    if history == [] then None
    else
      var before := history[..|history| - 1];
      match history[|history| - 1]
      case Inserted(e, _) => if KeyOf(e) == k then Some(Stored(e.records, e.ttd)) else LastInsert(before, k)
      case Purged(sel) => if Covers(sel, k) then None else LastInsert(before, k)
      case PurgedAll => None
      case Tick(_) => LastInsert(before, k)
  }

  lemma {:induction false} LatestIsLastInsert(history: seq<Event>, k: Key)
    ensures LastInsert(history, k) ==
            if k in After(history).latest then Some(After(history).latest[k]) else None
  {
    if history != [] {
      hide Selected, LowerName;
      LatestIsLastInsert(history[..|history| - 1], k);
    }
  }
}
