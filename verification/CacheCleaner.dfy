/**
 Removing entries from sharded caches.

 A shard is a multi-index container.  It is kept here as its sequence index, oldest
 entry first; the name index is the same entries in canonical name order.
 */
module CacheCleaner {
  import opened Wire
  import opened Canon

  datatype Entry = Entry(qname: Name, qtype: int, zoneId: int, records: seq<string>, ttd: int)

  /** What a purge or a cleanup asks to be removed. */
  datatype Selection = Under(suffix: Name) | Named(name: Name) | StaleAt(now: int)

  predicate Selected(e: Entry, sel: Selection) {
    match sel
    case Under(suffix) => PartOf(e.qname, suffix)
    case Named(name) => SameName(e.qname, name)
    case StaleAt(now) => e.ttd < now
  }

  /** The entries that are not selected, in order. */
  function Keep(s: seq<Entry>, sel: Selection): (r: seq<Entry>)
    ensures |r| <= |s|
    ensures forall e :: e in r <==> e in s && !Selected(e, sel)
  {
    if s == [] then []
    else (if Selected(s[0], sel) then [] else [s[0]]) + Keep(s[1..], sel)
  }

  function Total<T>(shards: seq<seq<T>>): nat {
    if shards == [] then 0 else |shards[0]| + Total(shards[1..])
  }

  // ---------------------------------------------------------------- the name index

  function InsertByName(e: Entry, s: seq<Entry>): (r: seq<Entry>)
    ensures multiset(r) == multiset{e} + multiset(s)
  {
    if s == [] then [e]
    else if CompareNames(e.qname, s[0].qname) <= 0 then [e] + s
    else
      assert s == [s[0]] + s[1..];
      [s[0]] + InsertByName(e, s[1..])
  }

  /** The ordered, non-unique index over the entries of a shard. */
  function NameIndex(s: seq<Entry>): (r: seq<Entry>)
    ensures multiset(r) == multiset(s)
  {
    if s == [] then []
    else
      assert s == [s[0]] + s[1..];
      InsertByName(s[0], NameIndex(s[1..]))
  }

  ghost predicate SortedByName(s: seq<Entry>) {
    forall i, j :: 0 <= i < j < |s| ==> CompareNames(s[i].qname, s[j].qname) <= 0
  }

  lemma {:induction false} InsertKeepsSorted(e: Entry, s: seq<Entry>)
    requires SortedByName(s)
    ensures SortedByName(InsertByName(e, s))
  {
    hide CompareNames;
    if s != [] {
      if CompareNames(e.qname, s[0].qname) <= 0 {
        forall j | 0 <= j < |s| ensures CompareNames(e.qname, s[j].qname) <= 0 {
          if j > 0 { NamesTransitive(e.qname, s[0].qname, s[j].qname); }
        }
      } else {
        InsertKeepsSorted(e, s[1..]);
        NamesAntisymmetric(e.qname, s[0].qname);
        var r := InsertByName(e, s[1..]);
        forall j | 0 <= j < |r| ensures CompareNames(s[0].qname, r[j].qname) <= 0 {
          assert r[j] in multiset(r);
          assert r[j] == e || r[j] in multiset(s[1..]);
        }
      }
    }
  }

  lemma {:induction false} NameIndexSorted(s: seq<Entry>)
    ensures SortedByName(NameIndex(s))
  {
    if s != [] {
      NameIndexSorted(s[1..]);
      InsertKeepsSorted(s[0], NameIndex(s[1..]));
    }
  }

  /** Positions start to stop of the index hold exactly the selected entries. */
  ghost predicate ExactRange(idx: seq<Entry>, sel: Selection, start: nat, stop: nat) {
    && start <= stop <= |idx|
    && forall i :: 0 <= i < |idx| ==> (start <= i < stop <==> Selected(idx[i], sel))
  }

  /** lower_bound: the first entry whose name does not sort before z. */
  method LowerBound(idx: seq<Entry>, z: Name) returns (start: nat)
    requires SortedByName(idx)
    ensures start <= |idx|
    ensures forall i :: 0 <= i < start ==> CompareNames(idx[i].qname, z) < 0
    ensures forall i :: start <= i < |idx| ==> CompareNames(idx[i].qname, z) >= 0
  {
    hide CompareNames;
    start := 0;
    while start < |idx| && CompareNames(idx[start].qname, z) < 0
      invariant start <= |idx|
      invariant forall i :: 0 <= i < start ==> CompareNames(idx[i].qname, z) < 0
    {
      start := start + 1;
    }
    forall i | start <= i < |idx| ensures CompareNames(idx[i].qname, z) >= 0 {
      if i > start && CompareNames(idx[i].qname, z) < 0 {
        NamesTransitive(idx[start].qname, idx[i].qname, z);
      }
    }
  }

  /** Scanning from the suffix to the first name outside it meets exactly the names under it. */
  lemma SuffixRangeExact(idx: seq<Entry>, z: Name, start: nat, stop: nat)
    requires SortedByName(idx) && start <= stop <= |idx|
    requires forall i :: 0 <= i < start ==> CompareNames(idx[i].qname, z) < 0
    requires forall i :: start <= i < |idx| ==> CompareNames(idx[i].qname, z) >= 0
    requires forall i :: start <= i < stop ==> PartOf(idx[i].qname, z)
    requires stop < |idx| ==> !PartOf(idx[stop].qname, z)
    ensures ExactRange(idx, Under(z), start, stop)
  {
    hide CompareNames, PartOf;
    forall i | 0 <= i < |idx| && PartOf(idx[i].qname, z) ensures start <= i < stop {
      SuffixFirst(idx[i].qname, z);
      NamesAntisymmetric(idx[i].qname, z);
      if stop < i {
        NamesAntisymmetric(idx[stop].qname, z);
        SuffixInterval(z, idx[stop].qname, idx[i].qname);
      }
    }
  }

  /** equal_range meets exactly the spellings of the name. */
  lemma NameRangeExact(idx: seq<Entry>, n: Name, start: nat, stop: nat)
    requires SortedByName(idx) && start <= stop <= |idx|
    requires forall i :: 0 <= i < start ==> CompareNames(idx[i].qname, n) < 0
    requires forall i :: start <= i < |idx| ==> CompareNames(idx[i].qname, n) >= 0
    requires forall i :: start <= i < stop ==> CompareNames(idx[i].qname, n) == 0
    requires stop < |idx| ==> CompareNames(idx[stop].qname, n) != 0
    ensures ExactRange(idx, Named(n), start, stop)
  {
    hide CompareNames;
    forall i | 0 <= i < |idx| ensures start <= i < stop <==> SameName(idx[i].qname, n) {
      NamesZero(idx[i].qname, n);
      if stop < i && CompareNames(idx[i].qname, n) == 0 {
        NamesTransitive(idx[stop].qname, idx[i].qname, n);
      }
    }
  }

  // ---------------------------------------------------------------- erasing

  /** Erasing entries through one index erases them from the others. */
  function Without(s: seq<Entry>, gone: seq<Entry>): seq<Entry> {
    if s == [] then []
    else (if s[0] in gone then [] else [s[0]]) + Without(s[1..], gone)
  }

  lemma {:induction false} WithoutIsKeep(s: seq<Entry>, gone: seq<Entry>, sel: Selection)
    requires forall e :: e in s ==> (e in gone <==> Selected(e, sel))
    ensures Without(s, gone) == Keep(s, sel)
  {
    if s != [] { WithoutIsKeep(s[1..], gone, sel); }
  }

  lemma {:induction false} KeepConcat(a: seq<Entry>, b: seq<Entry>, sel: Selection)
    ensures Keep(a + b, sel) == Keep(a, sel) + Keep(b, sel)
  {
    if a == [] {
      assert a + b == b;
    } else {
      var t := a[1..];
      KeepConcat(t, b, sel);
      KeepHead(a[0], t + b, sel);
      KeepHead(a[0], t, sel);
      hide Selected, Keep;
      Assoc([a[0]], t, b);
      assert a == [a[0]] + t;
      Assoc(if Selected(a[0], sel) then [] else [a[0]], Keep(t, sel), Keep(b, sel));
    }
  }

  lemma Assoc<T>(a: seq<T>, b: seq<T>, c: seq<T>)
    ensures (a + b) + c == a + (b + c)
  {
  }

  lemma KeepHead(e: Entry, s: seq<Entry>, sel: Selection)
    ensures Keep([e] + s, sel) == (if Selected(e, sel) then [] else [e]) + Keep(s, sel)
  {
    hide Selected;
    assert ([e] + s)[1..] == s;
  }

  lemma {:induction false} KeepAll(s: seq<Entry>, sel: Selection)
    requires forall i :: 0 <= i < |s| ==> !Selected(s[i], sel)
    ensures Keep(s, sel) == s
  {
    if s != [] { KeepAll(s[1..], sel); }
  }

  lemma {:induction false} KeepNone(s: seq<Entry>, sel: Selection)
    requires forall i :: 0 <= i < |s| ==> Selected(s[i], sel)
    ensures Keep(s, sel) == []
  {
    if s != [] { KeepNone(s[1..], sel); }
  }

  lemma {:induction false} KeepMultiplicity(s: seq<Entry>, sel: Selection, e: Entry)
    ensures multiset(Keep(s, sel))[e] == if Selected(e, sel) then 0 else multiset(s)[e]
  {
    if s != [] {
      hide Selected;
      KeepMultiplicity(s[1..], sel, e);
      assert s == [s[0]] + s[1..];
      assert multiset(s) == multiset{s[0]} + multiset(s[1..]);
      var head := if Selected(s[0], sel) then [] else [s[0]];
      assert multiset(Keep(s, sel)) == multiset(head) + multiset(Keep(s[1..], sel));
    }
  }

  // ---------------------------------------------------------------- what is left, position by position

  /** The entries of r stand in s at the positions `at`, in order, and these are all but the ones that are gone. */
  ghost predicate Picks(s: seq<Entry>, gone: set<int>, r: seq<Entry>, at: seq<int>) {
    && |at| == |r|
    && (forall i, j :: 0 <= i < j < |at| ==> at[i] < at[j])
    && (forall j :: 0 <= j < |at| ==> 0 <= at[j] < |s| && r[j] == s[at[j]])
    && (forall x :: 0 <= x < |s| ==> (x in at <==> x !in gone))
  }

  /** r is s without the entries at these positions, the others in order. */
  ghost predicate Leaves(s: seq<Entry>, gone: set<int>, r: seq<Entry>) {
    && (forall x :: x in gone ==> 0 <= x < |s|)
    && |r| == |s| - |gone|
    && exists at :: Picks(s, gone, r, at)
  }

  lemma LeavesNothing()
    ensures Leaves([], {}, [])
  {
    assert Picks([], {}, [], []);
  }

  /** One entry more at the end, which stays or goes. */
  lemma LeavesSnoc(s: seq<Entry>, gone: set<int>, r: seq<Entry>, e: Entry)
    requires Leaves(s, gone, r)
    ensures Leaves(s + [e], gone, r + [e]) && Leaves(s + [e], gone + {|s|}, r)
  {
    var at :| Picks(s, gone, r, at);
    PicksSnoc(s, gone, r, e, at);
    assert |gone + {|s|}| == |gone| + 1;
  }

  lemma PicksSnoc(s: seq<Entry>, gone: set<int>, r: seq<Entry>, e: Entry, at: seq<int>)
    requires Picks(s, gone, r, at) && forall x :: x in gone ==> 0 <= x < |s|
    ensures Picks(s + [e], gone + {|s|}, r, at) && Picks(s + [e], gone, r + [e], at + [|s|])
  {
    assert forall x :: x in at ==> 0 <= x < |s|;
    assert forall x :: x in at + [|s|] <==> x in at || x == |s|;
  }

  /** Keeping leaves exactly the entries that are not selected. */
  lemma {:induction false} KeepLeaves(s: seq<Entry>, sel: Selection)
    ensures Leaves(s, SelectedAt(s, sel), Keep(s, sel))
  {
    if s == [] {
      LeavesNothing();
      assert SelectedAt(s, sel) == {};
    } else {
      hide Selected, Leaves, Keep, SelectedAt;
      var n := |s| - 1;
      var t, e := s[..n], s[n];
      assert s == t + [e];
      KeepLeaves(t, sel);
      LeavesSnoc(t, SelectedAt(t, sel), Keep(t, sel), e);
      KeepSnoc(t, e, sel);
      SelectedAtSnoc(t, e, sel);
    }
  }

  lemma KeepSnoc(t: seq<Entry>, e: Entry, sel: Selection)
    ensures Keep(t + [e], sel) == if Selected(e, sel) then Keep(t, sel) else Keep(t, sel) + [e]
  {
    hide Selected;
    assert [e][1..] == [];
    assert Keep([e], sel) == if Selected(e, sel) then [] else [e];
    hide Keep;
    KeepConcat(t, [e], sel);
  }

  lemma SelectedAtSnoc(t: seq<Entry>, e: Entry, sel: Selection)
    ensures SelectedAt(t + [e], sel) == if Selected(e, sel) then SelectedAt(t, sel) + {|t|} else SelectedAt(t, sel)
  {
    hide Selected;
    var s := t + [e];
    assert forall x :: 0 <= x < |t| ==> s[x] == t[x];
  }

  /** Where the selected entries stand. */
  function SelectedAt(s: seq<Entry>, sel: Selection): set<int> {
    set x | 0 <= x < |s| && Selected(s[x], sel)
  }

  /** How many entries stay does not depend on their order. */
  lemma KeepLength(a: seq<Entry>, b: seq<Entry>, sel: Selection)
    requires multiset(a) == multiset(b)
    ensures |Keep(a, sel)| == |Keep(b, sel)|
  {
    forall e ensures multiset(Keep(a, sel))[e] == multiset(Keep(b, sel))[e] {
      KeepMultiplicity(a, sel, e);
      KeepMultiplicity(b, sel, e);
    }
    assert multiset(Keep(a, sel)) == multiset(Keep(b, sel));
    assert |multiset(Keep(a, sel))| == |Keep(a, sel)|;
    assert |multiset(Keep(b, sel))| == |Keep(b, sel)|;
  }

  lemma KeepAround(a: seq<Entry>, b: seq<Entry>, c: seq<Entry>, sel: Selection)
    requires forall i :: 0 <= i < |a| ==> !Selected(a[i], sel)
    requires forall i :: 0 <= i < |b| ==> Selected(b[i], sel)
    requires forall i :: 0 <= i < |c| ==> !Selected(c[i], sel)
    ensures Keep(a + b + c, sel) == a + c
  {
    hide Keep, Selected;
    KeepConcat(a + b, c, sel);
    KeepConcat(a, b, sel);
    KeepAll(a, sel);
    KeepNone(b, sel);
    KeepAll(c, sel);
  }

  lemma KeepOfRange(idx: seq<Entry>, sel: Selection, start: nat, stop: nat)
    requires ExactRange(idx, sel, start, stop)
    ensures Keep(idx, sel) == idx[..start] + idx[stop..]
  {
    hide Keep, Selected;
    var a, b, c := idx[..start], idx[start..stop], idx[stop..];
    assert a + b + c == idx;
    KeepAround(a, b, c, sel);
  }

  /** Erasing an exact range of the name index leaves the unselected entries and counts the others. */
  method EraseRange(s: seq<Entry>, start: nat, stop: nat, ghost sel: Selection) returns (r: seq<Entry>, delcount: nat)
    requires ExactRange(NameIndex(s), sel, start, stop)
    ensures r == Keep(s, sel) && delcount == |s| - |r|
  {
    var idx := NameIndex(s);
    var gone := idx[start..stop];
    forall e | e in s ensures e in gone <==> Selected(e, sel) {
      assert e in multiset(idx);
      var k :| 0 <= k < |idx| && idx[k] == e;
      if start <= k < stop { assert gone[k - start] == e; }
    }
    WithoutIsKeep(s, gone, sel);
    KeepOfRange(idx, sel, start, stop);
    KeepLength(s, idx, sel);
    assert |multiset(idx)| == |idx| && |multiset(s)| == |s|;
    r := Without(s, gone);
    delcount := stop - start;
  }

  // ---------------------------------------------------------------- purging

  /** One shard of purgeLockedCollectionsVector with a suffix. */
  method PurgeShard(s: seq<Entry>, z: Name) returns (r: seq<Entry>, delcount: nat)
    ensures r == Keep(s, Under(z)) && delcount == |s| - |r|
  {
    var idx := NameIndex(s);
    NameIndexSorted(s);
    hide NameIndex, SortedByName, PartOf, CompareNames;
    var start := LowerBound(idx, z);
    var iter := start;
    while iter < |idx| && PartOf(idx[iter].qname, z)
      invariant start <= iter <= |idx|
      invariant forall i :: start <= i < iter ==> PartOf(idx[i].qname, z)
    {
      iter := iter + 1;
    }
    SuffixRangeExact(idx, z, start, iter);
    r, delcount := EraseRange(s, start, iter, Under(z));
  }

  /** purgeExactLockedCollection */
  method PurgeExactShard(s: seq<Entry>, n: Name) returns (r: seq<Entry>, delcount: nat)
    ensures r == Keep(s, Named(n)) && delcount == |s| - |r|
  {
    var idx := NameIndex(s);
    NameIndexSorted(s);
    hide NameIndex, SortedByName, CompareNames;
    var start := LowerBound(idx, n);
    var iter := start;
    while iter < |idx| && CompareNames(idx[iter].qname, n) == 0
      invariant start <= iter <= |idx|
      invariant forall i :: start <= i < iter ==> CompareNames(idx[i].qname, n) == 0
    {
      iter := iter + 1;
    }
    NameRangeExact(idx, n, start, iter);
    r, delcount := EraseRange(s, start, iter, Named(n));
  }

  /** purgeLockedCollectionsVector without a suffix: every shard is emptied, and its size counted. */
  method PurgeAll(maps: array<seq<Entry>>) returns (delcount: nat)
    modifies maps
    ensures forall i :: 0 <= i < maps.Length ==> maps[i] == []
    ensures delcount == Total(old(maps[..])) && Total(maps[..]) == 0
  {
    hide Total;
    delcount := 0;
    ghost var before := maps[..];
    var i := 0;
    while i < maps.Length
      invariant 0 <= i <= maps.Length
      invariant forall k :: 0 <= k < i ==> maps[k] == []
      invariant delcount == Total(before) - Total(maps[..])
    {
      TotalUpdate(maps[..], i, []);
      ghost var next := maps[..][i := []];
      delcount := delcount + |maps[i]|;
      maps[i] := [];
      assert maps[..] == next;
      i := i + 1;
    }
    TotalEmpty(maps[..]);
  }

  lemma {:induction false} TotalEmpty<T>(shards: seq<seq<T>>)
    requires forall i :: 0 <= i < |shards| ==> shards[i] == []
    ensures Total(shards) == 0
  {
    if shards != [] { TotalEmpty(shards[1..]); }
  }

  /** purgeLockedCollectionsVector with a suffix: every shard loses exactly what is under it. */
  method PurgeSuffix(maps: array<seq<Entry>>, z: Name) returns (delcount: nat)
    modifies maps
    ensures forall i :: 0 <= i < maps.Length ==> maps[i] == Keep(old(maps[i]), Under(z))
    ensures delcount == Total(old(maps[..])) - Total(maps[..])
  {
    hide Keep, Total;
    delcount := 0;
    ghost var before := maps[..];
    var i := 0;
    while i < maps.Length
      invariant 0 <= i <= maps.Length
      invariant forall k :: 0 <= k < i ==> maps[k] == Keep(before[k], Under(z))
      invariant forall k :: i <= k < maps.Length ==> maps[k] == before[k]
      invariant delcount == Total(before) - Total(maps[..])
    {
      var kept, gone := PurgeShard(maps[i], z);
      TotalUpdate(maps[..], i, kept);
      ghost var next := maps[..][i := kept];
      maps[i] := kept;
      assert maps[..] == next;
      delcount := delcount + gone;
      i := i + 1;
    }
  }

  lemma {:induction false} TotalUpdate<T>(shards: seq<seq<T>>, i: nat, s: seq<T>)
    requires i < |shards|
    ensures Total(shards[i := s]) == Total(shards) - |shards[i]| + |s|
  {
    if i == 0 {
      assert shards[0 := s][1..] == shards[1..];
    } else {
      assert shards[i := s][1..] == shards[1..][i - 1 := s];
      TotalUpdate(shards[1..], i - 1, s);
    }
  }
}
