/**
 The empty non-terminals a rectified zone gets.  Owners are visited in the order of their name set, each walk
 goes up to the apex, or to the root from a name outside the zone, and the first visit with the allowance used up
 makes the code give up.
 */
module EmptyNonTerminals {
  import opened Wire
  import opened ZoneNames
  import opened ZoneTree

  // ---------------------------------------------------------------- visits

  /** The ancestors without records that the walk up from one owner meets, in order. */
  function EntWalk(zone: Name, owners: set<Name>, n: Name): seq<Name> {
    if n == zone || n == [] then []
    else (if n[1..] in owners then [] else [n[1..]]) + EntWalk(zone, owners, n[1..])
  }

  /** The same for several owners. */
  function Visits(zone: Name, owners: set<Name>, names: seq<Name>): seq<Name> {
    if names == [] then [] else Visits(zone, owners, names[..|names| - 1]) + EntWalk(zone, owners, names[|names| - 1])
  }

  function Met(visits: seq<Name>): set<Name> {
    set n | n in visits
  }

  /** No visit finds the allowance used up by different names met before it. */
  ghost predicate Affords(visits: seq<Name>, limit: nat) {
    forall t :: 0 <= t < |visits| ==> |Met(visits[..t])| < limit
  }

  lemma MetGrows(visits: seq<Name>, n: Name)
    ensures Met(visits + [n]) == Met(visits) + {n}
  {
  }

  lemma MetConcat(a: seq<Name>, b: seq<Name>)
    ensures Met(a + b) == Met(a) + Met(b)
    ensures Met([]) == {}
  {
  }

  lemma MetSomething(visits: seq<Name>)
    ensures visits != [] ==> Met(visits) != {}
  {
    if visits != [] { assert visits[0] in Met(visits); }
  }

  lemma {:induction false} WalkMeets(zone: Name, owners: set<Name>, n: Name)
    ensures Met(EntWalk(zone, owners, n)) == Ancestors(zone, n) - owners
  {
    if n != zone && n != [] {
      WalkMeets(zone, owners, n[1..]);
      var head := if n[1..] in owners then [] else [n[1..]];
      MetConcat(head, EntWalk(zone, owners, n[1..]));
      assert Met(head) == {n[1..]} - owners;
    }
  }

  /** All owners together meet exactly the empty non-terminals. */
  lemma {:induction false} VisitsMeet(zone: Name, owners: set<Name>, names: seq<Name>)
    ensures Met(Visits(zone, owners, names)) == Ents(zone, owners, Met(names))
  {
    hide EntWalk, Ancestors, Ents;
    if names == [] {
      MetConcat([], []);
      NoEnts(zone, owners);
    } else {
      var k := |names| - 1;
      MetConcat(Visits(zone, owners, names[..k]), EntWalk(zone, owners, names[k]));
      VisitsMeet(zone, owners, names[..k]);
      WalkMeets(zone, owners, names[k]);
      EntsGrow(zone, owners, Met(names[..k]), names[k]);
      assert names == names[..k] + [names[k]];
      MetGrows(names[..k], names[k]);
    }
  }

  lemma AffordsPrefix(visits: seq<Name>, more: seq<Name>, limit: nat)
    requires Affords(visits + more, limit)
    ensures Affords(visits, limit)
  {
    forall t | 0 <= t < |visits| ensures |Met(visits[..t])| < limit {
      assert (visits + more)[..t] == visits[..t];
    }
  }

  /** Below the limit every order of names is affordable, above it none. */
  lemma LimitDecides(visits: seq<Name>, limit: nat)
    ensures |Met(visits)| < limit ==> Affords(visits, limit)
    ensures |Met(visits)| > limit ==> !Affords(visits, limit)
  {
    forall t | 0 <= t < |visits| ensures |Met(visits[..t])| <= |Met(visits)| {
      SubsetSize(Met(visits[..t]), Met(visits));
    }
    if visits != [] {
      var k := |visits| - 1;
      assert visits == visits[..k] + [visits[k]];
      MetGrows(visits[..k], visits[k]);
    }
  }

  /** At the limit it depends on the last visit: it has to be the first one to its name. */
  lemma LastVisitDecides(visits: seq<Name>, limit: nat)
    requires |Met(visits)| == limit && visits != []
    ensures Affords(visits, limit) <==> visits[|visits| - 1] !in visits[..|visits| - 1]
  {
    var k := |visits| - 1;
    assert visits == visits[..k] + [visits[k]];
    MetGrows(visits[..k], visits[k]);
    if visits[k] in visits[..k] {
      assert Met(visits[..k]) == Met(visits);
    } else {
      forall t | 0 <= t < |visits| ensures |Met(visits[..t])| < limit {
        SubsetSize(Met(visits[..t]), Met(visits[..k]));
      }
    }
  }

  // ---------------------------------------------------------------- the order of the visits decides

  /** DNSName::operator<: storage bytes from the end. */
  predicate NameLess(a: Name, b: Name) {
    ZoneLess(Zone(a, []), Zone(b, []))
  }

  lemma NameTrichotomy(a: Name, b: Name)
    ensures NameLess(a, b) ==> !NameLess(b, a) && a != b
    ensures !NameLess(a, b) && !NameLess(b, a) <==> a == b
  {
    hide ZoneLess;
    ZoneTrichotomy(Zone(a, []), Zone(b, []));
  }

  lemma NameLessTransitive(a: Name, b: Name, c: Name)
    requires NameLess(a, b) && NameLess(b, c)
    ensures NameLess(a, c)
  {
    hide ZoneLess;
    ZoneLessTransitive(Zone(a, []), Zone(b, []), Zone(c, []));
  }

  ghost predicate InOrder(names: seq<Name>) {
    forall i, j :: 0 <= i < j < |names| ==> NameLess(names[i], names[j])
  }

  predicate Least(names: set<Name>, n: Name) {
    n in names && forall x :: x in names && x != n ==> NameLess(n, x)
  }

  lemma {:induction false} SomeLeast(names: set<Name>) returns (n: Name)
    requires names != {}
    ensures Least(names, n)
    decreases names
  {
    hide NameLess;
    var x :| x in names;
    var rest := names - {x};
    assert names == rest + {x};
    if rest == {} {
      n := x;
    } else {
      var y := SomeLeast(rest);
      NameTrichotomy(x, y);
      n := if NameLess(x, y) then x else y;
      forall z | z in names && z != n ensures NameLess(n, z) {
        if n == x && z != y { NameLessTransitive(x, y, z); }
      }
    }
  }

  /** The ancestors of n that own nothing. */
  function Above(zone: Name, owners: set<Name>, n: Name): set<Name> {
    Ancestors(zone, n) - owners
  }

  /** The last owner with an empty non-terminal above it. */
  ghost predicate LastOwner(zone: Name, owners: set<Name>, n: Name) {
    && n in owners && Above(zone, owners, n) != {}
    && forall m :: m in owners && Above(zone, owners, m) != {} && m != n ==> NameLess(m, n)
  }

  /** The empty non-terminal closest to the apex above n. */
  ghost predicate Topmost(zone: Name, owners: set<Name>, n: Name, e: Name) {
    e in Above(zone, owners, n) && forall x :: x in Above(zone, owners, n) ==> |e| <= |x|
  }

  /** The topmost empty non-terminal of the last owner that has one has no other owner below it. */
  ghost predicate LastVisitNew(zone: Name, owners: set<Name>) {
    exists n, e :: LastOwner(zone, owners, n) && Topmost(zone, owners, n, e) && OnlyBelow(zone, owners, n, e)
  }

  ghost predicate OnlyBelow(zone: Name, owners: set<Name>, n: Name, e: Name) {
    forall m :: m in owners && e in Ancestors(zone, m) ==> m == n
  }

  /** Exactly when rectifying keeps empty non-terminals. */
  ghost predicate Completes(zone: Name, owners: set<Name>, limit: nat) {
    var ents := Ents(zone, owners, owners);
    |ents| < limit || ents == {} || (|ents| == limit && LastVisitNew(zone, owners))
  }

  /** Each visit of a walk is closer to the apex than the one before. */
  lemma {:induction false} WalkShrinks(zone: Name, owners: set<Name>, n: Name)
    ensures forall i, j :: 0 <= i < j < |EntWalk(zone, owners, n)| ==> |EntWalk(zone, owners, n)[j]| < |EntWalk(zone, owners, n)[i]|
    ensures forall i :: 0 <= i < |EntWalk(zone, owners, n)| ==> |EntWalk(zone, owners, n)[i]| < |n|
  {
    if n != zone && n != [] { WalkShrinks(zone, owners, n[1..]); }
  }

  /** An ancestor is determined by its length. */
  lemma SameAncestor(zone: Name, n: Name, a: Name, b: Name)
    requires a in Ancestors(zone, n) && b in Ancestors(zone, n) && |a| == |b|
    ensures a == b
  {
    AncestorsAre(zone, n, a);
    AncestorsAre(zone, n, b);
  }

  /** The last walk that meets anything. */
  lemma {:induction false} LastWalk(zone: Name, owners: set<Name>, names: seq<Name>) returns (k: nat)
    requires Visits(zone, owners, names) != []
    ensures k < |names| && EntWalk(zone, owners, names[k]) != []
    ensures forall j :: k < j < |names| ==> EntWalk(zone, owners, names[j]) == []
    ensures Visits(zone, owners, names) == Visits(zone, owners, names[..k]) + EntWalk(zone, owners, names[k])
  {
    hide EntWalk;
    var l := |names| - 1;
    if EntWalk(zone, owners, names[l]) != [] {
      k := l;
    } else {
      k := LastWalk(zone, owners, names[..l]);
      assert names[..l][..k] == names[..k];
      forall j | k < j < |names| ensures EntWalk(zone, owners, names[j]) == [] {
        if j < l { assert names[..l][j] == names[j]; }
      }
    }
  }

  /** The last visit of a walk is to the topmost empty non-terminal, and it is the walk's only visit to it. */
  lemma WalkEndsTopmost(zone: Name, owners: set<Name>, n: Name)
    requires EntWalk(zone, owners, n) != []
    ensures var w := EntWalk(zone, owners, n);
            Topmost(zone, owners, n, w[|w| - 1]) && w[|w| - 1] !in w[..|w| - 1]
  {
    hide EntWalk, Ancestors;
    var w := EntWalk(zone, owners, n);
    WalkMeets(zone, owners, n);
    WalkShrinks(zone, owners, n);
    var e := w[|w| - 1];
    assert e in Met(w);
    forall x | x in Above(zone, owners, n) ensures |e| <= |x| {
      assert x in Met(w);
    }
  }

  lemma LastOwnerIs(zone: Name, owners: set<Name>, names: seq<Name>, k: nat)
    requires InOrder(names) && Met(names) == owners && k < |names|
    requires EntWalk(zone, owners, names[k]) != []
    requires forall j :: k < j < |names| ==> EntWalk(zone, owners, names[j]) == []
    ensures LastOwner(zone, owners, names[k])
  {
    hide EntWalk, Ancestors, NameLess;
    WalkMeets(zone, owners, names[k]);
    assert EntWalk(zone, owners, names[k])[0] in Met(EntWalk(zone, owners, names[k]));
    assert names[k] in Met(names);
    forall m | m in owners && Above(zone, owners, m) != {} && m != names[k] ensures NameLess(m, names[k]) {
      var j :| 0 <= j < |names| && names[j] == m;
      WalkMeets(zone, owners, m);
      if j > k { MetConcat([], []); }
    }
  }

  /** Whether the name of the last visit was visited by an earlier owner. */
  lemma EarlierVisit(zone: Name, owners: set<Name>, names: seq<Name>, k: nat, e: Name)
    requires k <= |names| && e !in owners
    ensures e in Visits(zone, owners, names[..k]) <==> exists j :: 0 <= j < k && e in Ancestors(zone, names[j])
  {
    hide Visits, Ancestors;
    var before := names[..k];
    VisitsMeet(zone, owners, before);
    assert e in Visits(zone, owners, before) <==> e in Met(Visits(zone, owners, before));
    if e in Ents(zone, owners, Met(before)) {
      var n :| n in Met(before) && e in Ancestors(zone, n);
      var j :| 0 <= j < |before| && before[j] == n;
      assert names[j] == n;
    }
    if j :| 0 <= j < k && e in Ancestors(zone, names[j]) {
      assert before[j] in Met(before);
    }
  }

  lemma NewIfOnlyBelow(zone: Name, owners: set<Name>, names: seq<Name>, k: nat, e: Name)
    requires InOrder(names) && Met(names) == owners && k < |names|
    requires LastOwner(zone, owners, names[k]) && Topmost(zone, owners, names[k], e)
    requires forall j :: k < j < |names| ==> e !in Ancestors(zone, names[j])
    ensures e !in Visits(zone, owners, names[..k]) <==> OnlyBelow(zone, owners, names[k], e)
  {
    hide Visits, Ancestors, NameLess, LastOwner;
    EarlierVisit(zone, owners, names, k, e);
    if OnlyBelow(zone, owners, names[k], e) {
      forall j | 0 <= j < k ensures e !in Ancestors(zone, names[j]) {
        NameTrichotomy(names[j], names[k]);
        assert names[j] in Met(names);
      }
    } else {
      var m :| m in owners && e in Ancestors(zone, m) && m != names[k];
      var j :| 0 <= j < |names| && names[j] == m;
    }
  }

  lemma LastVisitNewIff(zone: Name, owners: set<Name>, n: Name, e: Name)
    requires LastOwner(zone, owners, n) && Topmost(zone, owners, n, e)
    ensures LastVisitNew(zone, owners) <==> OnlyBelow(zone, owners, n, e)
  {
    hide Ancestors, NameLess, OnlyBelow;
    if LastVisitNew(zone, owners) {
      var m, x :| LastOwner(zone, owners, m) && Topmost(zone, owners, m, x) && OnlyBelow(zone, owners, m, x);
      NameTrichotomy(m, n);
      assert m == n;
      SameAncestor(zone, n, x, e);
    }
  }

  /** At the limit rectifying goes through iff the last visit is the first to its name. */
  lemma AtTheLimit(zone: Name, owners: set<Name>, names: seq<Name>, limit: nat)
    requires InOrder(names) && Met(names) == owners && |Ents(zone, owners, owners)| == limit > 0
    ensures Affords(Visits(zone, owners, names), limit) <==> LastVisitNew(zone, owners)
  {
    hide EntWalk, Ancestors, NameLess, Affords, Ents, InOrder, LastOwner, Topmost, OnlyBelow, LastVisitNew, Visits;
    var visits := Visits(zone, owners, names);
    VisitsMeet(zone, owners, names);
    var k := LastWalk(zone, owners, names);
    var w := EntWalk(zone, owners, names[k]);
    var e := w[|w| - 1];
    LastOwnerIs(zone, owners, names, k);
    WalkEndsTopmost(zone, owners, names[k]);
    LastVisitNewIff(zone, owners, names[k], e);
    LastVisitDecides(visits, limit);
    NoneAfter(zone, owners, names, k, e);
    NewIfOnlyBelow(zone, owners, names, k, e);
    assert visits[..|visits| - 1] == Visits(zone, owners, names[..k]) + w[..|w| - 1];
  }

  lemma NoneAfter(zone: Name, owners: set<Name>, names: seq<Name>, k: nat, e: Name)
    requires k < |names| && Topmost(zone, owners, names[k], e)
    requires forall j :: k < j < |names| ==> EntWalk(zone, owners, names[j]) == []
    ensures forall j :: k < j < |names| ==> e !in Ancestors(zone, names[j])
  {
    hide EntWalk, Ancestors;
    forall j | k < j < |names| ensures e !in Ancestors(zone, names[j]) {
      WalkMeets(zone, owners, names[j]);
      MetConcat([], []);
      assert e in Ancestors(zone, names[j]) <==> e in Ancestors(zone, names[j]) - owners;
    }
  }

  /** With the owners in order, affordable means what it says about the zone alone. */
  lemma AffordsIffCompletes(zone: Name, owners: set<Name>, names: seq<Name>, limit: nat)
    requires InOrder(names) && Met(names) == owners
    ensures Affords(Visits(zone, owners, names), limit) <==> Completes(zone, owners, limit)
  {
    hide Ents, Visits, LastVisitNew, InOrder;
    var visits, ents := Visits(zone, owners, names), Ents(zone, owners, owners);
    VisitsMeet(zone, owners, names);
    if |ents| == limit && limit > 0 {
      AtTheLimit(zone, owners, names, limit);
      assert ents != {};
    } else {
      LimitDecides(visits, limit);
      MetSomething(visits);
    }
  }

  // ---------------------------------------------------------------- the sets to insert and to delete

  /** Names to insert and to delete, the names found with their flags, and how many more may be found. */
  datatype EntState = EntState(insert: set<Name>, delete: set<Name>, nonterm: map<Name, bool>, left: nat, doent: bool)

  /** The names flagged authoritative. */
  function Marked(nonterm: map<Name, bool>): set<Name> {
    set n | n in nonterm && nonterm[n]
  }

  /** The state after these visits, or after giving up. */
  ghost predicate EntsMatch(stored: set<Name>, limit: nat, visits: seq<Name>, st: EntState) {
    if st.doent then
      var ents := Met(visits);
      && st.nonterm.Keys == ents && st.insert == ents - stored && st.delete == stored - ents
      && st.left + |ents| == limit && Affords(visits, limit)
    else
      st.insert == {} && st.delete == {} && !Affords(visits, limit)
  }

  /** What the walk from an owner marks: everything it meets, if the owner is authoritative. */
  function Marks(zone: Name, owners: set<Name>, n: Name, auth: bool): set<Name> {
    if auth then Met(EntWalk(zone, owners, n)) else {}
  }

  method WalkEnts(zone: Name, qnames: set<Name>, q: Name, auth: bool, ghost stored: set<Name>, ghost limit: nat,
                  ghost before: seq<Name>, was: EntState)
    returns (st: EntState)
    requires was.doent && EntsMatch(stored, limit, before, was)
    ensures EntsMatch(stored, limit, before + EntWalk(zone, qnames, q), st)
    ensures st.doent ==> Marked(st.nonterm) == Marked(was.nonterm) + Marks(zone, qnames, q, auth)
  {
    hide EntsMatch, EntWalk, Marked, Marks;
    st := was;
    var shorter := q;
    ghost var visits := before;
    while shorter != zone && shorter != []
      invariant st.doent
      invariant visits + EntWalk(zone, qnames, shorter) == before + EntWalk(zone, qnames, q)
      invariant EntsMatch(stored, limit, visits, st)
      invariant Marked(st.nonterm) + Marks(zone, qnames, shorter, auth) == Marked(was.nonterm) + Marks(zone, qnames, q, auth)
      decreases |shorter|
    {
      WalkStep(zone, qnames, shorter, visits);
      MarksStep(zone, qnames, shorter, auth);
      shorter := shorter[1..];
      if shorter !in qnames {
        if st.left == 0 {
          GiveUp(stored, limit, visits, shorter, EntWalk(zone, qnames, shorter), st);
          st := st.(insert := {}, delete := {}, doent := false);
          return;
        }
        st := FoundEnt(stored, limit, visits, st, shorter, auth);
        visits := visits + [shorter];
      }
    }
    NoWalk(zone, qnames, shorter, auth);
    assert visits + [] == visits;
  }

  lemma NoWalk(zone: Name, owners: set<Name>, n: Name, auth: bool)
    requires n == zone || n == []
    ensures EntWalk(zone, owners, n) == [] && Marks(zone, owners, n, auth) == {}
  {
  }

  lemma WalkStep(zone: Name, owners: set<Name>, n: Name, visits: seq<Name>)
    requires n != zone && n != []
    ensures n[1..] in owners ==> visits + EntWalk(zone, owners, n) == visits + EntWalk(zone, owners, n[1..])
    ensures n[1..] !in owners ==> visits + EntWalk(zone, owners, n) == visits + [n[1..]] + EntWalk(zone, owners, n[1..])
  {
    assert [] + EntWalk(zone, owners, n[1..]) == EntWalk(zone, owners, n[1..]);
    var a, b := [n[1..]], EntWalk(zone, owners, n[1..]);
    assert visits + (a + b) == visits + a + b;
  }

  lemma MarksStep(zone: Name, owners: set<Name>, n: Name, auth: bool)
    requires n != zone && n != []
    ensures Marks(zone, owners, n, auth) ==
            (if auth && n[1..] !in owners then {n[1..]} else {}) + Marks(zone, owners, n[1..], auth)
  {
    hide EntWalk, Met;
    WalkMeets(zone, owners, n);
    WalkMeets(zone, owners, n[1..]);
  }

  lemma GiveUp(stored: set<Name>, limit: nat, visits: seq<Name>, n: Name, rest: seq<Name>, st: EntState)
    requires st.doent && st.left == 0 && EntsMatch(stored, limit, visits, st)
    ensures EntsMatch(stored, limit, visits + [n] + rest, st.(insert := {}, delete := {}, doent := false))
  {
    assert (visits + [n] + rest)[..|visits|] == visits;
  }

  /** One more name found, below which there is an authoritative owner or not. */
  function Flagged(nonterm: map<Name, bool>, n: Name, auth: bool): map<Name, bool> {
    if n !in nonterm then nonterm[n := auth] else if auth then nonterm[n := true] else nonterm
  }

  lemma FlaggedMarks(nonterm: map<Name, bool>, n: Name, auth: bool)
    ensures Flagged(nonterm, n, auth).Keys == nonterm.Keys + {n}
    ensures Marked(Flagged(nonterm, n, auth)) == Marked(nonterm) + if auth then {n} else {}
  {
  }

  method FoundEnt(ghost stored: set<Name>, ghost limit: nat, ghost visits: seq<Name>, was: EntState, n: Name, auth: bool)
    returns (st: EntState)
    requires was.doent && was.left > 0 && EntsMatch(stored, limit, visits, was)
    ensures st.doent && EntsMatch(stored, limit, visits + [n], st)
    ensures Marked(st.nonterm) == Marked(was.nonterm) + if auth then {n} else {}
  {
    hide Affords, Met, Marked, Flagged;
    MetGrows(visits, n);
    AffordsOneMore(visits, n, limit);
    FlaggedMarks(was.nonterm, n, auth);
    OneMore(stored, Met(visits), n);
    var first := n !in was.nonterm;
    st := was.(nonterm := Flagged(was.nonterm, n, auth));
    st := if n !in was.delete && first then st.(insert := was.insert + {n}) else st.(delete := was.delete - {n});
    if first { st := st.(left := was.left - 1); }
  }

  lemma OneMore(stored: set<Name>, ents: set<Name>, n: Name)
    ensures |ents + {n}| == |ents| + if n in ents then 0 else 1
    ensures n !in stored - ents && n !in ents ==>
              (ents + {n}) - stored == (ents - stored) + {n} && stored - (ents + {n}) == stored - ents
    ensures !(n !in stored - ents && n !in ents) ==>
              (ents + {n}) - stored == ents - stored && stored - (ents + {n}) == (stored - ents) - {n}
  {
    if n in ents { assert ents + {n} == ents; }
  }

  lemma AffordsOneMore(visits: seq<Name>, n: Name, limit: nat)
    requires Affords(visits, limit) && |Met(visits)| < limit
    ensures Affords(visits + [n], limit)
  {
    var more := visits + [n];
    forall t | 0 <= t < |more| ensures |Met(more[..t])| < limit {
      if t < |visits| { assert more[..t] == visits[..t]; } else { assert more[..t] == visits; }
    }
  }

  /** updateEmptyNonTerminals; `clear` removes them all. */
  function EntsAfter(stored: set<Name>, insert: set<Name>, delete: set<Name>, clear: bool): set<Name> {
    if clear then {} else (stored - delete) + insert
  }

  lemma Concluded(stored: set<Name>, limit: nat, visits: seq<Name>, st: EntState)
    requires EntsMatch(stored, limit, visits, st)
    ensures st.insert !! st.delete && st.insert !! stored && st.delete <= stored
    ensures EntsAfter(stored, st.insert, st.delete, !st.doent) == if st.doent then Met(visits) else {}
    ensures st.doent ==> st.nonterm.Keys == Met(visits)
    ensures st.doent <==> Affords(visits, limit)
  {
    hide Met, Affords;
  }

  lemma NoVisits(stored: set<Name>, limit: nat)
    ensures EntsMatch(stored, limit, [], EntState({}, stored, map[], limit, true)) && Marked(map[]) == {}
  {
  }

  lemma StaysGivenUp(stored: set<Name>, limit: nat, visits: seq<Name>, more: seq<Name>, st: EntState)
    requires !st.doent && EntsMatch(stored, limit, visits, st)
    ensures EntsMatch(stored, limit, visits + more, st)
  {
    hide Affords;
    if Affords(visits + more, limit) { AffordsPrefix(visits, more, limit); }
  }

  lemma NoEnts(zone: Name, qnames: set<Name>)
    ensures Ents(zone, qnames, {}) == {}
  {
  }

  /** One empty non-terminal with two owners below it: its only visit is never the last. */
  lemma TwoBelowOne(x: Label, y: Label, e: Label)
    requires x != y
    ensures var owners: set<Name> := {[], [x, e], [y, e]};
            Ents([], owners, owners) == {[e]} && !LastVisitNew([], owners)
  {
    var owners: set<Name> := {[], [x, e], [y, e]};
    AboveOne(owners, x, e);
    AboveOne(owners, y, e);
    assert Ancestors([], []) == {};
    assert [x, e] in owners && [y, e] in owners;
  }

  lemma AboveOne(owners: set<Name>, x: Label, e: Label)
    requires [e] !in owners && [] in owners
    ensures Ancestors([], [x, e]) == {[e], []} && Above([], owners, [x, e]) == {[e]}
  {
    assert [x, e][1..] == [e] && [e][1..] == [];
    assert Ancestors([], []) == {};
    assert Ancestors([], [e]) == {[]};
  }
}
