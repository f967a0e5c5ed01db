/**
 Applying incremental zone transfers (RFC 1995) set by set: the updates of a delta are grouped by name and
 type, and each touched set is read, edited and replaced as a whole.

 Names are relative to the zone and case-folded, contents lower-cased, so that equality is the equality of
 records.  A zone holds no empty sets.
 */
module Ixfr {
  import opened Results
  import opened Wire
  import opened ZoneNames

  const SOA: nat := 6
  const LUA: nat := 65402

  /** `serial` is the serial number an SOA content spells. */
  datatype Record = Record(name: Name, qtype: nat, content: string, serial: nat)

  datatype SetKey = SetKey(name: Name, qtype: nat)

  datatype Delta = Delta(remove: seq<Record>, add: seq<Record>)

  type Records = map<SetKey, seq<Record>>

  function KeyOf(r: Record): SetKey { SetKey(r.name, r.qtype) }

  function Get(z: Records, k: SetKey): seq<Record> {
    if k in z then z[k] else []
  }

  /** replaceRRSet: an empty replacement deletes the set. */
  function Put(z: Records, k: SetKey, rs: seq<Record>): Records {
    if rs == [] then z - {k} else z[k := rs]
  }

  predicate NoEmptySets(z: Records) {
    forall k :: k in z ==> z[k] != []
  }

  // ---------------------------------------------------------------- record by record

  /** s without every copy of r. */
  function Without(s: seq<Record>, r: Record): seq<Record> {
    if s == [] then [] else if s[0] == r then Without(s[1..], r) else [s[0]] + Without(s[1..], r)
  }

  function RemoveRecord(z: Records, r: Record): Records {
    Put(z, KeyOf(r), Without(Get(z, KeyOf(r)), r))
  }

  function AddRecord(z: Records, r: Record): Records {
    Put(z, KeyOf(r), Get(z, KeyOf(r)) + [r])
  }

  function RemoveAll(z: Records, rs: seq<Record>): Records {
    if rs == [] then z else RemoveRecord(RemoveAll(z, rs[..|rs| - 1]), rs[|rs| - 1])
  }

  function AddAll(z: Records, rs: seq<Record>): Records {
    if rs == [] then z else AddRecord(AddAll(z, rs[..|rs| - 1]), rs[|rs| - 1])
  }

  /** The meaning of a delta: its removals one by one, then its additions one by one. */
  function OneByOne(z: Records, d: Delta): Records {
    AddAll(RemoveAll(z, d.remove), d.add)
  }

  function AllOneByOne(z: Records, ds: seq<Delta>): Records {
    if ds == [] then z else OneByOne(AllOneByOne(z, ds[..|ds| - 1]), ds[|ds| - 1])
  }

  // ---------------------------------------------------------------- set by set

  /** The records of one set, in order. */
  function Of(rs: seq<Record>, k: SetKey): seq<Record> {
    if rs == [] then []
    else
      var s := Of(rs[..|rs| - 1], k);
      if KeyOf(rs[|rs| - 1]) == k then s + [rs[|rs| - 1]] else s
  }

  /** s without the records in gone. */
  function Minus(s: seq<Record>, gone: seq<Record>): seq<Record> {
    if s == [] then [] else if s[0] in gone then Minus(s[1..], gone) else [s[0]] + Minus(s[1..], gone)
  }

  function Replacement(z: Records, d: Delta, k: SetKey): seq<Record> {
    Minus(Get(z, k), Of(d.remove, k)) + Of(d.add, k)
  }

  // ---------------------------------------------------------------- both agree

  lemma {:induction false} WithoutMinus(s: seq<Record>, gone: seq<Record>, r: Record)
    ensures Without(Minus(s, gone), r) == Minus(s, gone + [r])
  {
    if s != [] { WithoutMinus(s[1..], gone, r); }
  }

  lemma {:induction false} MinusNothing(s: seq<Record>)
    ensures Minus(s, []) == s
  {
    if s != [] { MinusNothing(s[1..]); }
  }

  lemma {:induction false} RemovedOneByOne(z: Records, rs: seq<Record>, k: SetKey)
    ensures Get(RemoveAll(z, rs), k) == Minus(Get(z, k), Of(rs, k))
  {
    if rs == [] {
      MinusNothing(Get(z, k));
    } else {
      var n := |rs| - 1;
      RemovedOneByOne(z, rs[..n], k);
      WithoutMinus(Get(z, k), Of(rs[..n], k), rs[n]);
    }
  }

  lemma {:induction false} AddedOneByOne(z: Records, rs: seq<Record>, k: SetKey)
    ensures Get(AddAll(z, rs), k) == Get(z, k) + Of(rs, k)
  {
    if rs != [] {
      var n := |rs| - 1;
      AddedOneByOne(z, rs[..n], k);
    }
  }

  /** Replacing each touched set is applying the delta record by record. */
  lemma GroupedMeansOneByOne(z: Records, d: Delta, k: SetKey)
    ensures Get(OneByOne(z, d), k) == Replacement(z, d, k)
  {
    RemovedOneByOne(z, d.remove, k);
    AddedOneByOne(RemoveAll(z, d.remove), d.add, k);
  }

  lemma {:induction false} OfNothing(rs: seq<Record>, k: SetKey)
    requires forall r :: r in rs ==> KeyOf(r) != k
    ensures Of(rs, k) == []
  {
    if rs != [] { OfNothing(rs[..|rs| - 1], k); }
  }

  /** Sets no update names stay as they are. */
  lemma UntouchedStays(z: Records, d: Delta, k: SetKey)
    requires forall r :: r in d.remove || r in d.add ==> KeyOf(r) != k
    ensures Replacement(z, d, k) == Get(z, k)
  {
    OfNothing(d.remove, k);
    OfNothing(d.add, k);
    MinusNothing(Get(z, k));
  }

  lemma {:induction false} MinusIn(s: seq<Record>, gone: seq<Record>, r: Record)
    ensures r in Minus(s, gone) <==> r in s && r !in gone
  {
    if s != [] { MinusIn(s[1..], gone, r); }
  }

  lemma {:induction false} OfIn(rs: seq<Record>, k: SetKey, r: Record)
    ensures r in Of(rs, k) <==> r in rs && KeyOf(r) == k
  {
    if rs != [] { OfIn(rs[..|rs| - 1], k, r); }
  }

  /** A record is in its set. */
  predicate Holds(z: Records, r: Record) {
    r in Get(z, KeyOf(r))
  }

  /** A delta leaves what it adds, and what was there and is not removed. */
  lemma HeldAfter(z: Records, d: Delta, r: Record)
    ensures Holds(OneByOne(z, d), r) <==> r in d.add || (Holds(z, r) && r !in d.remove)
  {
    hide OneByOne, Get;
    var k := KeyOf(r);
    GroupedMeansOneByOne(z, d, k);
    MinusIn(Get(z, k), Of(d.remove, k), r);
    OfIn(d.remove, k, r);
    OfIn(d.add, k, r);
  }

  lemma SameSets(a: Records, b: Records)
    requires NoEmptySets(a) && NoEmptySets(b) && forall k :: Get(a, k) == Get(b, k)
    ensures a == b
  {
    forall k ensures (k in a <==> k in b) && (k in a ==> a[k] == b[k]) {
      assert Get(a, k) == Get(b, k);
    }
  }

  lemma {:induction false} NoEmptySetsKept(z: Records, rs: seq<Record>)
    requires NoEmptySets(z)
    ensures NoEmptySets(RemoveAll(z, rs)) && NoEmptySets(AddAll(z, rs))
  {
    if rs != [] { NoEmptySetsKept(z, rs[..|rs| - 1]); }
  }

  // ---------------------------------------------------------------- the serial

  /** The order of the map of groups. */
  predicate KeyLess(a: SetKey, b: SetKey) {
    ZoneLess(Zone(a.name, []), Zone(b.name, [])) || (a.name == b.name && a.qtype < b.qtype)
  }

  lemma KeyTrichotomy(a: SetKey, b: SetKey)
    ensures KeyLess(a, b) ==> !KeyLess(b, a) && a != b
    ensures !KeyLess(a, b) && !KeyLess(b, a) <==> a == b
  {
    hide ZoneLess;
    ZoneTrichotomy(Zone(a.name, []), Zone(b.name, []));
  }

  lemma KeyLessTransitive(a: SetKey, b: SetKey, c: SetKey)
    requires KeyLess(a, b) && KeyLess(b, c)
    ensures KeyLess(a, c)
  {
    hide ZoneLess;
    var x, y, z := Zone(a.name, []), Zone(b.name, []), Zone(c.name, []);
    if ZoneLess(x, y) && ZoneLess(y, z) { ZoneLessTransitive(x, y, z); }
  }

  predicate Least(keys: set<SetKey>, k: SetKey) {
    k in keys && forall x :: x in keys && x != k ==> KeyLess(k, x)
  }

  lemma {:induction false} SomeLeast(keys: set<SetKey>) returns (k: SetKey)
    requires keys != {}
    ensures Least(keys, k)
    decreases keys
  {
    hide KeyLess;
    var x :| x in keys;
    var rest := keys - {x};
    assert keys == rest + {x};
    if rest == {} {
      k := x;
    } else {
      var y := SomeLeast(rest);
      KeyTrichotomy(x, y);
      k := if KeyLess(x, y) then x else y;
      forall z | z in keys && z != k ensures KeyLess(k, z) {
        if k == x && z != y { KeyLessTransitive(x, y, z); }
      }
    }
  }

  /** The serial of the last SOA record of a set. */
  function LastSerial(rs: seq<Record>): Option<nat> {
    if rs == [] then None
    else if rs[|rs| - 1].qtype == SOA then Some(rs[|rs| - 1].serial)
    else LastSerial(rs[..|rs| - 1])
  }

  /** The sets a delta names. */
  function Touched(d: Delta): set<SetKey> {
    (set r | r in d.remove :: KeyOf(r)) + (set r | r in d.add :: KeyOf(r))
  }

  /** The replaced sets that end up with an SOA record, and the serial of its last one. */
  function SoaSets(z: Records, d: Delta): map<SetKey, nat> {
    map k | k in Touched(d) && LastSerial(Replacement(z, d, k)).Some? :: LastSerial(Replacement(z, d, k)).value
  }

  /** The serial after these sets: that of the last one, or the one before when there is none. */
  ghost predicate IsSerial(sets: map<SetKey, nat>, was: nat, now: nat) {
    if sets.Keys == {} then now == was
    else exists k :: k in sets && sets[k] == now && forall x :: x in sets && x != k ==> KeyLess(x, k)
  }

  /** It is determined. */
  lemma SerialUnique(sets: map<SetKey, nat>, was: nat, a: nat, b: nat)
    requires IsSerial(sets, was, a) && IsSerial(sets, was, b)
    ensures a == b
  {
    hide KeyLess;
    if sets.Keys != {} {
      var k :| k in sets && sets[k] == a && forall x :: x in sets && x != k ==> KeyLess(x, k);
      var m :| m in sets && sets[m] == b && forall x :: x in sets && x != m ==> KeyLess(x, m);
      KeyTrichotomy(k, m);
    }
  }

  /** A further set, after all others in order. */
  lemma SerialStep(sets: map<SetKey, nat>, k: SetKey, serial: nat, was: nat, now: nat)
    requires IsSerial(sets, was, now) && forall x :: x in sets ==> x != k && KeyLess(x, k)
    ensures IsSerial(sets[k := serial], was, serial)
  {
    hide KeyLess;
    var more := sets[k := serial];
    assert k in more.Keys;
    assert k in more && more[k] == serial && forall x :: x in more && x != k ==> KeyLess(x, k);
  }

  /** A zone whose sets hold records of their own name and type. */
  ghost predicate WellKeyed(z: Records) {
    forall k, r :: k in z && r in z[k] ==> KeyOf(r) == k
  }

  /**
   With SOA updates at the apex only, as section 4 of RFC 1995 has them, the serial is that of the SOA record
   the zone ends up with.
   */
  lemma SerialOfNewSoa(z: Records, d: Delta, was: nat, now: nat)
    requires WellKeyed(z) && IsSerial(SoaSets(z, d), was, now)
    requires forall k :: k in Touched(d) && k.qtype == SOA ==> k.name == []
    requires SetKey([], SOA) in Touched(d) && Get(OneByOne(z, d), SetKey([], SOA)) != []
    ensures var rs := Get(OneByOne(z, d), SetKey([], SOA));
            rs[|rs| - 1].serial == now
  {
    hide OneByOne, LastSerial, KeyLess, Replacement, Touched, WellKeyed;
    var apex, sets := SetKey([], SOA), SoaSets(z, d);
    GroupedMeansOneByOne(z, d, apex);
    forall k | k in Touched(d) ensures k in sets <==> k == apex {
      SetSerial(z, d, k);
    }
    SetSerial(z, d, apex);
    assert apex in sets.Keys;
  }

  lemma SetSerial(z: Records, d: Delta, k: SetKey)
    requires WellKeyed(z)
    ensures var rs := Replacement(z, d, k);
            LastSerial(rs) == if rs == [] || k.qtype != SOA then None else Some(rs[|rs| - 1].serial)
  {
    hide Replacement;
    var rs := Replacement(z, d, k);
    forall r | r in rs ensures r.qtype == k.qtype { KeyedReplacement(z, d, k, r); }
    if rs != [] {
      assert rs[|rs| - 1] in rs;
      if k.qtype != SOA { NoSoa(rs); }
    }
  }

  lemma KeyedReplacement(z: Records, d: Delta, k: SetKey, r: Record)
    requires WellKeyed(z) && r in Replacement(z, d, k)
    ensures KeyOf(r) == k
  {
    hide Minus, Of;
    assert r in Minus(Get(z, k), Of(d.remove, k)) || r in Of(d.add, k);
    MinusIn(Get(z, k), Of(d.remove, k), r);
    OfIn(d.add, k, r);
  }

  lemma WellKeyedKept(z: Records, d: Delta)
    requires WellKeyed(z)
    ensures WellKeyed(OneByOne(z, d))
  {
    hide OneByOne, Replacement;
    var next := OneByOne(z, d);
    forall k, r | k in next && r in next[k] ensures KeyOf(r) == k {
      GroupedMeansOneByOne(z, d, k);
      KeyedReplacement(z, d, k, r);
    }
  }

  lemma {:induction false} NoSoa(rs: seq<Record>)
    requires forall r :: r in rs ==> r.qtype != SOA
    ensures LastSerial(rs) == None
  {
    if rs != [] { NoSoa(rs[..|rs| - 1]); }
  }

  // ---------------------------------------------------------------- the loops

  type Groups = map<SetKey, Delta>

  function Group(g: Groups, k: SetKey): Delta {
    if k in g then g[k] else Delta([], [])
  }

  /** The updates grouped by name and type. */
  method GroupUpdates(d: Delta) returns (grouped: Groups)
    ensures forall k :: Group(grouped, k) == Delta(Of(d.remove, k), Of(d.add, k))
    ensures grouped.Keys == Touched(d)
  {
    grouped := map[];
    var i := 0;
    while i < |d.remove|
      invariant 0 <= i <= |d.remove|
      invariant forall k :: Group(grouped, k) == Delta(Of(d.remove[..i], k), [])
      invariant forall k :: k in grouped ==> exists r :: r in d.remove && KeyOf(r) == k
    {
      var x := d.remove[i];
      var g := Group(grouped, KeyOf(x));
      assert x in d.remove;
      assert d.remove[..i + 1][..i] == d.remove[..i];
      grouped := grouped[KeyOf(x) := g.(remove := g.remove + [x])];
      i := i + 1;
    }
    assert d.remove[..i] == d.remove;
    i := 0;
    while i < |d.add|
      invariant 0 <= i <= |d.add|
      invariant forall k :: Group(grouped, k) == Delta(Of(d.remove, k), Of(d.add[..i], k))
      invariant forall k :: k in grouped ==> exists r :: (r in d.remove || r in d.add) && KeyOf(r) == k
    {
      var x := d.add[i];
      var g := Group(grouped, KeyOf(x));
      assert x in d.add;
      assert d.add[..i + 1][..i] == d.add[..i];
      grouped := grouped[KeyOf(x) := g.(add := g.add + [x])];
      i := i + 1;
    }
    assert d.add[..i] == d.add;
    NamesGrouped(d, grouped);
    assert grouped.Keys <= Touched(d);
  }

  lemma NamesGrouped(d: Delta, grouped: Groups)
    requires forall k :: Group(grouped, k) == Delta(Of(d.remove, k), Of(d.add, k))
    ensures Touched(d) <= grouped.Keys
  {
    hide Of;
    forall r | r in d.remove || r in d.add ensures KeyOf(r) in grouped {
      var k := KeyOf(r);
      OfIn(d.remove, k, r);
      OfIn(d.add, k, r);
      assert Group(grouped, k) == Delta(Of(d.remove, k), Of(d.add, k));
    }
  }

  lemma {:induction false} MinusConcat(a: seq<Record>, b: seq<Record>, gone: seq<Record>)
    ensures Minus(a + b, gone) == Minus(a, gone) + Minus(b, gone)
  {
    if a == [] {
      assert a + b == b;
    } else {
      assert (a + b)[1..] == a[1..] + b;
      MinusConcat(a[1..], b, gone);
    }
  }

  /** One set without the removed records, with the added ones at its end. */
  method EditSet(was: seq<Record>, g: Delta) returns (rrset: seq<Record>)
    ensures rrset == Minus(was, g.remove) + g.add
  {
    rrset := [];
    var i := 0;
    while i < |was|
      invariant 0 <= i <= |was| && rrset == Minus(was[..i], g.remove)
    {
      if was[i] !in g.remove { rrset := rrset + [was[i]]; }
      assert was[..i + 1] == was[..i] + [was[i]];
      MinusConcat(was[..i], [was[i]], g.remove);
      i := i + 1;
    }
    assert was[..i] == was;
    i := 0;
    while i < |g.add|
      invariant 0 <= i <= |g.add| && rrset == Minus(was, g.remove) + g.add[..i]
    {
      rrset := rrset + [g.add[i]];
      i := i + 1;
    }
    assert g.add[..i] == g.add;
  }

  lemma PutGet(z: Records, k: SetKey, rs: seq<Record>)
    ensures Get(Put(z, k, rs), k) == rs && forall j :: j != k ==> Get(Put(z, k, rs), j) == Get(z, j)
    ensures NoEmptySets(z) ==> NoEmptySets(Put(z, k, rs))
  {
  }

  lemma AllReplaced(z: Records, d: Delta, grouped: Groups, r: Records)
    requires NoEmptySets(z) && NoEmptySets(r)
    requires forall k :: Group(grouped, k) == Delta(Of(d.remove, k), Of(d.add, k))
    requires forall k :: Get(r, k) == if k in grouped then Replacement(z, d, k) else Get(z, k)
    ensures r == OneByOne(z, d)
  {
    hide Of, Minus, Get, NoEmptySets, RemoveAll, AddAll;
    forall k ensures Get(r, k) == Get(OneByOne(z, d), k) {
      GroupedMeansOneByOne(z, d, k);
      if k !in grouped {
        assert Group(grouped, k) == Delta(Of(d.remove, k), Of(d.add, k));
        MinusNothing(Get(z, k));
      }
    }
    NoEmptySetsKept(z, d.remove);
    NoEmptySetsKept(RemoveAll(z, d.remove), d.add);
    SameSets(r, OneByOne(z, d));
  }

  /** The serial as the records of a replaced set go by. */
  method ReadSerial(rrset: seq<Record>, was: nat) returns (serial: nat)
    ensures serial == if LastSerial(rrset).Some? then LastSerial(rrset).value else was
  {
    serial := was;
    var i := 0;
    while i < |rrset|
      invariant 0 <= i <= |rrset|
      invariant serial == if LastSerial(rrset[..i]).Some? then LastSerial(rrset[..i]).value else was
    {
      assert rrset[..i + 1][..i] == rrset[..i];
      if rrset[i].qtype == SOA { serial := rrset[i].serial; }
      i := i + 1;
    }
    assert rrset[..i] == rrset;
  }

  /** The sets with an SOA record among those in keys. */
  function Within(sets: map<SetKey, nat>, keys: set<SetKey>): map<SetKey, nat> {
    map k | k in sets && k in keys :: sets[k]
  }

  lemma WithinGrows(z: Records, d: Delta, keys: set<SetKey>, k: SetKey)
    requires k in Touched(d) && k !in keys
    ensures var sets, last := SoaSets(z, d), LastSerial(Replacement(z, d, k));
            Within(sets, keys + {k}) == if last.Some? then Within(sets, keys)[k := last.value] else Within(sets, keys)
  {
    hide LastSerial, Replacement, Touched;
  }

  method ApplyDelta(z: Records, d: Delta, was: nat) returns (r: Records, serial: nat)
    requires NoEmptySets(z)
    ensures r == OneByOne(z, d) && NoEmptySets(r)
    ensures IsSerial(SoaSets(z, d), was, serial)
  {
    hide Of, Minus, Get, Put, NoEmptySets, OneByOne, KeyLess, LastSerial, IsSerial, Touched, SoaSets;
    var grouped := GroupUpdates(d);
    r, serial := z, was;
    var todo := grouped.Keys;
    ghost var done: set<SetKey>, sets := {}, SoaSets(z, d);
    assert IsSerial(Within(sets, done), was, serial) by { NoSerial(sets, was); }
    while todo != {}
      invariant done !! todo && done + todo == grouped.Keys && NoEmptySets(r)
      invariant forall k :: k in done ==> Get(r, k) == Replacement(z, d, k)
      invariant forall k :: k !in done ==> Get(r, k) == Get(z, k)
      invariant forall x, k :: x in done && k in todo ==> KeyLess(x, k)
      invariant IsSerial(Within(sets, done), was, serial)
      decreases todo
    {
      ghost var least := SomeLeast(todo);
      assert exists k :: Least(todo, k);
      var k :| k in todo && Least(todo, k);
      assert Group(grouped, k) == Delta(Of(d.remove, k), Of(d.add, k));
      var rrset := EditSet(Get(r, k), grouped[k]);
      WithinGrows(z, d, done, k);
      if LastSerial(rrset).Some? { SerialStep(Within(sets, done), k, LastSerial(rrset).value, was, serial); }
      serial := ReadSerial(rrset, serial);
      PutGet(r, k, rrset);
      r := Put(r, k, rrset);
      todo := todo - {k};
      done := done + {k};
    }
    assert Within(sets, done) == sets by { WithinAll(z, d); }
    AllReplaced(z, d, grouped, r);
  }

  lemma NoSerial(sets: map<SetKey, nat>, was: nat)
    ensures IsSerial(Within(sets, {}), was, was)
  {
  }

  lemma WithinAll(z: Records, d: Delta)
    ensures Within(SoaSets(z, d), Touched(d)) == SoaSets(z, d)
  {
    hide LastSerial, Replacement, Touched;
  }

  predicate MentionsLua(rs: seq<Record>) {
    exists r :: r in rs && r.qtype == LUA
  }

  predicate LuaUpdates(ds: seq<Delta>) {
    exists d :: d in ds && (MentionsLua(d.remove) || MentionsLua(d.add))
  }

  method FindLua(rs: seq<Record>) returns (found: bool)
    ensures found <==> MentionsLua(rs)
  {
    found := false;
    var i := 0;
    while i < |rs| && !found
      invariant 0 <= i <= |rs| && (found <==> MentionsLua(rs[..i]))
    {
      assert forall r :: r in rs[..i + 1] <==> r in rs[..i] || r == rs[i];
      found := rs[i].qtype == LUA;
      i := i + 1;
    }
    if found {
      var r :| r in rs[..i] && r.qtype == LUA;
      assert r in rs;
    } else {
      assert rs[..i] == rs;
    }
  }

  method FindLuaUpdates(ds: seq<Delta>) returns (found: bool)
    ensures found <==> LuaUpdates(ds)
  {
    hide MentionsLua;
    found := false;
    var i := 0;
    while i < |ds| && !found
      invariant 0 <= i <= |ds| && (found <==> LuaUpdates(ds[..i]))
    {
      assert forall d :: d in ds[..i + 1] <==> d in ds[..i] || d == ds[i];
      found := FindLua(ds[i].remove);
      if !found { found := FindLua(ds[i].add); }
      i := i + 1;
    }
    if found {
      var d :| d in ds[..i] && (MentionsLua(d.remove) || MentionsLua(d.add));
      assert d in ds;
    } else {
      assert ds[..i] == ds;
    }
  }

  /** The deltas before the first one without removals; that one is a full transfer. */
  function Incremental(ds: seq<Delta>): seq<Delta> {
    if ds == [] || ds[0].remove == [] then [] else [ds[0]] + Incremental(ds[1..])
  }

  lemma {:induction false} IncrementalStops(ds: seq<Delta>, n: nat)
    requires n <= |ds| && forall i :: 0 <= i < n ==> ds[i].remove != []
    requires n < |ds| ==> ds[n].remove == []
    ensures Incremental(ds) == ds[..n]
  {
    if n > 0 {
      IncrementalStops(ds[1..], n - 1);
      assert ds[..n] == [ds[0]] + ds[1..][..n - 1];
    }
  }

  /** The serials that the deltas leave one after the other. */
  ghost predicate AreSerials(z: Records, ds: seq<Delta>, serials: seq<nat>) {
    && |serials| == |ds| + 1
    && forall i :: 0 <= i < |ds| ==> IsSerial(SoaSets(AllOneByOne(z, ds[..i]), ds[i]), serials[i], serials[i + 1])
  }

  /** Applies the deltas; a full transfer among them ends the run and is handed back. */
  method ApplyDeltas(z: Records, ds: seq<Delta>, allowLua: bool, was: nat)
    returns (r: Records, axfr: Option<seq<Record>>, serial: nat, ghost serials: seq<nat>)
    requires NoEmptySets(z)
    ensures NoEmptySets(r)
    ensures !allowLua && LuaUpdates(ds) ==> r == z && axfr == None && serial == was
    ensures allowLua || !LuaUpdates(ds) ==>
              var done := Incremental(ds);
              && |done| <= |ds|
              && r == AllOneByOne(z, done)
              && axfr == (if |done| == |ds| then None else Some(ds[|done|].add))
              && AreSerials(z, done, serials) && serials[0] == was && serials[|done|] == serial
  {
    hide OneByOne, LuaUpdates, IsSerial, SoaSets;
    r, axfr, serial, serials := z, None, was, [was];
    if !allowLua {
      var found := FindLuaUpdates(ds);
      if found { return; }
    }
    var i := 0;
    while i < |ds|
      invariant 0 <= i <= |ds| && NoEmptySets(r) && r == AllOneByOne(z, ds[..i])
      invariant forall j :: 0 <= j < i ==> ds[j].remove != []
      invariant AreSerials(z, ds[..i], serials) && serials[0] == was && serials[i] == serial
    {
      if ds[i].remove == [] {
        axfr := Some(ds[i].add);
        break;
      }
      ghost var before, last := serials, serial;
      r, serial := ApplyDelta(r, ds[i], serial);
      assert ds[..i + 1][..i] == ds[..i];
      serials := serials + [serial];
      SerialsGrow(z, ds, i, before, serial);
      i := i + 1;
    }
    IncrementalStops(ds, i);
  }

  lemma SerialsGrow(z: Records, ds: seq<Delta>, n: nat, serials: seq<nat>, next: nat)
    requires n < |ds| && AreSerials(z, ds[..n], serials)
    requires IsSerial(SoaSets(AllOneByOne(z, ds[..n]), ds[n]), serials[n], next)
    ensures AreSerials(z, ds[..n + 1], serials + [next])
  {
    hide AllOneByOne, IsSerial, SoaSets;
    var more, all := ds[..n + 1], serials + [next];
    forall i | 0 <= i < |more| ensures IsSerial(SoaSets(AllOneByOne(z, more[..i]), more[i]), all[i], all[i + 1]) {
      assert more[..i] == ds[..n][..i] || i == n;
      assert i == n ==> more[..i] == ds[..n];
    }
  }

  // ---------------------------------------------------------------- whole runs

  /** Whether a record is there after a run is decided by the last delta that names it. */
  function HeldAfterAll(held: bool, ds: seq<Delta>, r: Record): bool {
    if ds == [] then held
    else
      var d := ds[|ds| - 1];
      if r in d.add then true else if r in d.remove then false else HeldAfterAll(held, ds[..|ds| - 1], r)
  }

  lemma {:induction false} RunKeepsMeaning(z: Records, ds: seq<Delta>, r: Record)
    ensures Holds(AllOneByOne(z, ds), r) == HeldAfterAll(Holds(z, r), ds, r)
  {
    hide OneByOne, Holds;
    if ds != [] {
      var n := |ds| - 1;
      RunKeepsMeaning(z, ds[..n], r);
      HeldAfter(AllOneByOne(z, ds[..n]), ds[n], r);
    }
  }
}
