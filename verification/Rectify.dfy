/**
 Rectifying a zone: recomputing order names, authority flags and empty non-terminals of stored rows, and
 writing only where the listing shows a difference.

 A row of type 0 is an empty non-terminal.  The root name as an order name is stored as the empty string, which the
 listing does not tell from unset.  The NSEC3 hash of a name is a parameter.
 */
module Rectify {
  import opened Wire
  import opened ZoneTree
  import opened OrderNames
  import opened EmptyNonTerminals

  datatype Row = Row(qname: Name, qtype: nat, order: Order, auth: bool)

  datatype Settings = Settings(signing: Signing, hash: Name -> Name, maxEnts: nat)

  type Orders = map<Name, Order>

  function OrderFor(orders: Orders, n: Name): Order {
    if n in orders then orders[n] else Unset
  }

  /** What the listing shows of a stored order name. */
  function Listed(o: Order): Order {
    if o == At([]) then Unset else o
  }

  function Owners(rows: seq<Row>): set<Name> {
    set r | r in rows && r.qtype != 0 :: r.qname
  }

  function Delegations(zone: Name, rows: seq<Row>): set<Name> {
    set r | r in rows && r.qtype == TYPE_NS && r.qname != zone :: r.qname
  }

  function Signers(rows: seq<Row>): set<Name> {
    set r | r in rows && r.qtype == TYPE_DS :: r.qname
  }

  function StoredEnts(rows: seq<Row>): set<Name> {
    set r | r in rows && r.qtype == 0 :: r.qname
  }

  /** The records among the rows. */
  function Records(rows: seq<Row>): seq<Record> {
    if rows == [] then []
    else
      var n := |rows| - 1;
      if rows[n].qtype != 0 then Records(rows[..n]) + [Record(rows[n].qname, rows[n].qtype)] else Records(rows[..n])
  }

  /** No delegation at the name or above it, up to the root. */
  predicate Uncut(zone: Name, rows: seq<Row>, n: Name) {
    Authoritative([], Delegations(zone, rows), n)
  }

  /** The names on the NSEC3 chain. */
  function Chained(zone: Name, s: Settings, rows: seq<Row>): set<Name> {
    Chain(zone, Delegations(zone, rows), Contributors(s.signing.OptOut(), Records(rows)))
  }

  /** The order name of an owner. */
  function OrderIf(zone: Name, s: Settings, chained: bool, n: Name): Order {
    match s.signing
    case Unsigned => Unset
    case Nsec => RelativeOrder(zone, n)
    case Nsec3(_, narrow) => if chained && !narrow then At(s.hash(n)) else Unset
  }

  /** The order names the zone asks for. */
  function OrdersOf(zone: Name, s: Settings, rows: seq<Row>): Orders {
    map n | n in Owners(rows) :: OrderIf(zone, s, n in Chained(zone, s, rows), n)
  }

  // ---------------------------------------------------------------- listing the zone

  datatype Status = Status(order: Order, auth: bool, update: bool)

  /** What makes a name need an update whatever its order name and flag should be. */
  ghost predicate Irregular(zone: Name, s: Settings, rows: seq<Row>, q: Name, st: Status) {
    || (st.order == Unset) != s.signing.Unordered()
    || (s.signing.Unordered() && q == zone)
    || exists i :: 0 <= i < |rows| && Differs(rows[i], q, st)
  }

  /** A row of q that looks different. */
  predicate Differs(r: Row, q: Name, st: Status) {
    r.qname == q && (r.auth != st.auth || Listed(r.order) != st.order)
  }

  /** The status is that of some row of the name, and an update is noted exactly for irregular names. */
  ghost predicate NotedAt(zone: Name, s: Settings, rows: seq<Row>, q: Name, st: Status) {
    && (exists i :: 0 <= i < |rows| && rows[i].qname == q && !Differs(rows[i], q, st))
    && (st.update <==> Irregular(zone, s, rows, q, st))
  }

  ghost predicate Noted(zone: Name, s: Settings, rows: seq<Row>, rss: map<Name, Status>) {
    && (forall i :: 0 <= i < |rows| ==> rows[i].qname in rss)
    && (forall q :: q in rss ==> NotedAt(zone, s, rows, q, rss[q]))
  }

  /** The status of the row's name after the row. */
  function Note(zone: Name, s: Settings, rss: map<Name, Status>, r: Row): Status {
    if r.qname !in rss then
      Status(Listed(r.order), r.auth, (Listed(r.order) == Unset) != s.signing.Unordered() || (s.signing.Unordered() && r.qname == zone))
    else
      var st := rss[r.qname];
      st.(update := st.update || st.auth != r.auth || st.order != Listed(r.order))
  }

  lemma DiffersGrows(rows: seq<Row>, r: Row, q: Name, st: Status)
    ensures (exists i :: 0 <= i < |rows + [r]| && Differs((rows + [r])[i], q, st)) <==>
            (exists i :: 0 <= i < |rows| && Differs(rows[i], q, st)) || Differs(r, q, st)
  {
    hide Differs;
    var more := rows + [r];
    assert more[|rows|] == r;
    if i :| 0 <= i < |rows| && Differs(rows[i], q, st) { assert Differs(more[i], q, st); }
    if i :| 0 <= i < |more| && Differs(more[i], q, st) {
      if i < |rows| { assert Differs(rows[i], q, st); }
    }
  }

  lemma NotedAtGrows(zone: Name, s: Settings, rows: seq<Row>, r: Row, q: Name, st: Status)
    requires NotedAt(zone, s, rows, q, st)
    ensures NotedAt(zone, s, rows + [r], q, st.(update := st.update || Differs(r, q, st)))
  {
    hide Differs, Listed;
    var next, more := st.(update := st.update || Differs(r, q, st)), rows + [r];
    DiffersGrows(rows, r, q, st);
    DiffersOnly(q, st, next);
    var i :| 0 <= i < |rows| && rows[i].qname == q && !Differs(rows[i], q, st);
    assert more[i] == rows[i];
  }

  lemma DiffersOnly(q: Name, a: Status, b: Status)
    requires a.order == b.order && a.auth == b.auth
    ensures forall r: Row :: Differs(r, q, a) <==> Differs(r, q, b)
  {
  }

  lemma NotedFirst(zone: Name, s: Settings, rows: seq<Row>, r: Row)
    requires forall i :: 0 <= i < |rows| ==> rows[i].qname != r.qname
    ensures NotedAt(zone, s, rows + [r], r.qname, Note(zone, s, map[], r))
  {
    hide Listed;
    var st, more := Note(zone, s, map[], r), rows + [r];
    assert more[|rows|] == r && !Differs(r, r.qname, st);
  }

  lemma NotedGrows(zone: Name, s: Settings, rows: seq<Row>, i: nat, rss: map<Name, Status>)
    requires i < |rows| && Noted(zone, s, rows[..i], rss)
    ensures Noted(zone, s, rows[..i + 1], rss[rows[i].qname := Note(zone, s, rss, rows[i])])
  {
    hide NotedAt;
    var was, r := rows[..i], rows[i];
    var next := rss[r.qname := Note(zone, s, rss, r)];
    assert rows[..i + 1] == was + [r];
    forall q | q in next ensures NotedAt(zone, s, was + [r], q, next[q]) {
      if q in rss {
        NotedAtGrows(zone, s, was, r, q, rss[q]);
        assert next[q] == rss[q].(update := rss[q].update || Differs(r, q, rss[q]));
      } else {
        NotedFirst(zone, s, was, r);
      }
    }
  }

  lemma CollectedGrows(zone: Name, rows: seq<Row>, i: nat)
    requires i < |rows|
    ensures var a, b, r := rows[..i], rows[..i + 1], rows[i];
            && Owners(b) == (if r.qtype != 0 then Owners(a) + {r.qname} else Owners(a))
            && Delegations(zone, b) == (if r.qtype == TYPE_NS && r.qname != zone then Delegations(zone, a) + {r.qname} else Delegations(zone, a))
            && Signers(b) == (if r.qtype == TYPE_DS then Signers(a) + {r.qname} else Signers(a))
            && StoredEnts(b) == (if r.qtype == 0 then StoredEnts(a) + {r.qname} else StoredEnts(a))
  {
    assert forall x :: x in rows[..i + 1] <==> x in rows[..i] || x == rows[i];
  }

  lemma RecordsGrow(rows: seq<Row>, i: nat)
    requires i < |rows|
    ensures Records(rows[..i + 1]) ==
            if rows[i].qtype != 0 then Records(rows[..i]) + [Record(rows[i].qname, rows[i].qtype)] else Records(rows[..i])
  {
    assert rows[..i + 1][..i] == rows[..i];
  }

  lemma NothingListed(zone: Name, s: Settings)
    ensures Noted(zone, s, [], map[]) && Records([]) == []
    ensures Owners([]) == {} && Delegations(zone, []) == {} && Signers([]) == {} && StoredEnts([]) == {}
  {
  }

  method ListZone(zone: Name, s: Settings, rows: seq<Row>)
    returns (rss: map<Name, Status>, rrs: seq<Record>, qnames: set<Name>, nsset: set<Name>, dsnames: set<Name>,
             delnonterm: set<Name>)
    ensures Noted(zone, s, rows, rss) && rrs == Records(rows)
    ensures qnames == Owners(rows) && nsset == Delegations(zone, rows)
    ensures dsnames == Signers(rows) && delnonterm == StoredEnts(rows)
  {
    hide Noted, Owners, Delegations, Signers, StoredEnts, Records;
    rss, rrs, qnames, nsset, dsnames, delnonterm := map[], [], {}, {}, {}, {};
    NothingListed(zone, s);
    var i := 0;
    assert rows[..i] == [];
    while i < |rows|
      invariant 0 <= i <= |rows| && Noted(zone, s, rows[..i], rss) && rrs == Records(rows[..i])
      invariant qnames == Owners(rows[..i]) && nsset == Delegations(zone, rows[..i])
      invariant dsnames == Signers(rows[..i]) && delnonterm == StoredEnts(rows[..i])
    {
      var rr := rows[i];
      RecordsGrow(rows, i);
      NotedGrows(zone, s, rows, i, rss);
      CollectedGrows(zone, rows, i);
      var listed, first := Listed(rr.order), rr.qname !in rss;
      var st := if first then Status(listed, rr.auth, (listed == Unset) != s.signing.Unordered()) else rss[rr.qname];
      if !first && !st.update {
        st := st.(update := st.auth != rr.auth || st.order != listed);
      } else if s.signing.Unordered() && rr.qname == zone {
        st := st.(update := true);
      }
      rss := rss[rr.qname := st];
      if rr.qtype != 0 {
        qnames := qnames + {rr.qname};
        if rr.qtype == TYPE_NS && rr.qname != zone { nsset := nsset + {rr.qname}; }
        if rr.qtype == TYPE_DS { dsnames := dsnames + {rr.qname}; }
        rrs := rrs + [Record(rr.qname, rr.qtype)];
      } else {
        delnonterm := delnonterm + {rr.qname};
      }
      i := i + 1;
    }
    assert rows[..i] == rows;
  }

  // ---------------------------------------------------------------- what the rows should say

  /** The rows at q take this order name and flag; type 0 in `qtype` means all of them. */
  function Written(rows: seq<Row>, q: Name, order: Order, auth: bool, qtype: nat): (r: seq<Row>)
    ensures |r| == |rows|
    ensures forall i :: 0 <= i < |rows| ==>
              r[i] == if rows[i].qname == q && (qtype == 0 || rows[i].qtype == qtype)
                      then rows[i].(order := order, auth := auth) else rows[i]
  {
    seq(|rows|, i requires 0 <= i < |rows| =>
      if rows[i].qname == q && (qtype == 0 || rows[i].qtype == qtype) then rows[i].(order := order, auth := auth) else rows[i])
  }

  /** Address records, and NS records of opted-out delegations, lose their order name below or at a delegation. */
  predicate Unlisted(s: Settings, signed: bool, qtype: nat) {
    qtype == TYPE_A || qtype == TYPE_AAAA || (qtype == TYPE_NS && s.signing.OptOut() && !signed)
  }

  function RectifiedRow(s: Settings, order: Order, auth: bool, signed: bool, r: Row): Row {
    if r.qtype == TYPE_DS then r.(order := order, auth := true)
    else if !auth && Unlisted(s, signed, r.qtype) then r.(order := Unset, auth := false)
    else r.(order := order, auth := auth)
  }

  /** A row as the whole zone says it should be. */
  ghost function Rectified(zone: Name, s: Settings, orders: Orders, rows: seq<Row>, r: Row): Row {
    if r.qname !in Owners(rows) then r
    else RectifiedRow(s, OrderFor(orders, r.qname), Uncut(zone, rows, r.qname),
                      r.qname in Signers(rows), r)
  }

  /** The flag of a record: DS, or no delegation from its owner up to the root. */
  lemma RectifiedFlag(zone: Name, s: Settings, orders: Orders, rows: seq<Row>, r: Row)
    requires r in rows && r.qtype != 0
    ensures Rectified(zone, s, orders, rows, r).auth <==> ShouldBeAuth([], Delegations(zone, rows), r.qname, r.qtype)
  {
    assert r.qname in Owners(rows);
  }

  /** Where no delegation lies outside the zone, the apex is as far as the search matters. */
  lemma FlagInZone(zone: Name, rows: seq<Row>, n: Name)
    requires forall d :: d in Delegations(zone, rows) ==> InZone(zone, d)
    ensures Uncut(zone, rows, n) <==> Authoritative(zone, Delegations(zone, rows), n)
  {
    AuthorityInZone(zone, Delegations(zone, rows), n);
  }

  /** A delegation stored above the apex takes the authority of the whole zone. */
  lemma StrayDelegation(zone: Name, rows: seq<Row>, d: Name, n: Name)
    requires d in Delegations(zone, rows) && InZone(d, zone) && InZone(zone, n)
    ensures !Uncut(zone, rows, n)
  {
    var k := |n| - |d|;
    assert n[k..] == n[|n| - |zone|..][|zone| - |d|..] == d;
    assert zone[0..] == zone && n[|n|..] == [];
    AncestorsAre([], n, d);
  }

  // ---------------------------------------------------------------- skipping updates

  /** The test of the code on what it noted. */
  predicate SkipTest(rss: map<Name, Status>, q: Name, order: Order, auth: bool) {
    q in rss && !rss[q].update && rss[q].auth == auth && rss[q].order == order
  }

  /** The same said of the rows: all rows of q are listed with the flag and the order name they should have. */
  ghost predicate Skips(zone: Name, s: Settings, rows: seq<Row>, q: Name, order: Order, auth: bool) {
    && (order == Unset <==> s.signing.Unordered())
    && !(s.signing.Unordered() && q == zone)
    && forall i :: 0 <= i < |rows| && rows[i].qname == q ==> rows[i].auth == auth && Listed(rows[i].order) == order
  }

  lemma SkipTestIff(zone: Name, s: Settings, rows: seq<Row>, rss: map<Name, Status>, q: Name, order: Order, auth: bool)
    requires Noted(zone, s, rows, rss) && q in rss
    ensures SkipTest(rss, q, order, auth) <==> Skips(zone, s, rows, q, order, auth)
  {
    hide Listed;
    assert NotedAt(zone, s, rows, q, rss[q]);
    if SkipTest(rss, q, order, auth) {
      forall i | 0 <= i < |rows| && rows[i].qname == q ensures rows[i].auth == auth && Listed(rows[i].order) == order {
        assert !Differs(rows[i], q, rss[q]);
      }
    }
  }

  /** Skipping the update of a name is sound exactly when none of its rows holds the empty string. */
  lemma SkipSoundIff(zone: Name, s: Settings, rows: seq<Row>, q: Name, order: Order, auth: bool)
    requires Skips(zone, s, rows, q, order, auth)
    ensures Written(rows, q, order, auth, 0) == rows <==>
            forall i :: 0 <= i < |rows| && rows[i].qname == q ==> rows[i].order != At([])
  {
    var w := Written(rows, q, order, auth, 0);
    if forall i :: 0 <= i < |rows| && rows[i].qname == q ==> rows[i].order != At([]) {
      assert w == rows;
    } else {
      var i :| 0 <= i < |rows| && rows[i].qname == q && rows[i].order == At([]);
      assert w[i].order == order != rows[i].order;
    }
  }

  /** A row that keeps the empty string: its name is skipped and no update by type reaches it. */
  ghost predicate Stale(zone: Name, s: Settings, orders: Orders, rows: seq<Row>, r: Row) {
    var auth := Uncut(zone, rows, r.qname);
    && r.qname in Owners(rows) && r.order == At([])
    && Skips(zone, s, rows, r.qname, OrderFor(orders, r.qname), auth)
    && r.qtype != TYPE_DS && (auth || !Unlisted(s, r.qname in Signers(rows), r.qtype))
  }

  /** What rectifying makes of a row. */
  ghost function Outcome(zone: Name, s: Settings, orders: Orders, rows: seq<Row>, r: Row): Row {
    if Stale(zone, s, orders, rows, r) then r else Rectified(zone, s, orders, rows, r)
  }

  /** The flag is right in any case, and the whole row exactly when it is not stale. */
  lemma OutcomeRight(zone: Name, s: Settings, orders: Orders, rows: seq<Row>, r: Row)
    requires r in rows
    ensures Outcome(zone, s, orders, rows, r).auth == Rectified(zone, s, orders, rows, r).auth
    ensures Outcome(zone, s, orders, rows, r) == Rectified(zone, s, orders, rows, r) <==> !Stale(zone, s, orders, rows, r)
  {
    hide Uncut, Owners, Signers, Delegations;
    if Stale(zone, s, orders, rows, r) {
      var i :| 0 <= i < |rows| && rows[i] == r;
      assert Listed(r.order) == OrderFor(orders, r.qname) && r.auth == Uncut(zone, rows, r.qname);
    }
  }

  /** Stale rows need an unordered zone and the empty string stored below the apex. */
  lemma StaleOnlyBelowApex(zone: Name, s: Settings, orders: Orders, rows: seq<Row>, r: Row)
    requires r in rows && Stale(zone, s, orders, rows, r)
    ensures s.signing.Unordered() && r.qname != zone && r.order == At([]) && OrderFor(orders, r.qname) == Unset
  {
    hide Uncut, Owners, Signers, Delegations;
    var i :| 0 <= i < |rows| && rows[i] == r;
    assert Listed(r.order) == OrderFor(orders, r.qname);
  }

  // ---------------------------------------------------------------- one name

  /** Chops labels off until a delegation shows up or no label is left. */
  method FindAuth(nsset: set<Name>, q: Name) returns (auth: bool)
    ensures auth <==> Authoritative([], nsset, q)
    ensures q in nsset ==> !auth
  {
    auth := true;
    var shorter := q;
    while true
      invariant Authoritative([], nsset, q) <==> Authoritative([], nsset, shorter)
      invariant shorter != q ==> q !in nsset
      decreases |shorter|
    {
      if shorter in nsset {
        auth := false;
        break;
      }
      if shorter == [] { break; }
      shorter := shorter[1..];
    }
  }

  /** What the updates for its name make of a row. */
  function Updated(s: Settings, order: Order, auth: bool, signed: bool, skip: bool, r: Row): Row {
    if signed && r.qtype == TYPE_DS then r.(order := order, auth := true)
    else if !auth && Unlisted(s, signed, r.qtype) then r.(order := Unset, auth := false)
    else if skip then r
    else r.(order := order, auth := auth)
  }

  ghost predicate AllUpdated(s: Settings, q: Name, order: Order, auth: bool, signed: bool, skip: bool, rows: seq<Row>, out: seq<Row>) {
    && |out| == |rows|
    && forall i :: 0 <= i < |rows| ==>
         out[i] == if rows[i].qname != q then rows[i] else Updated(s, order, auth, signed, skip, rows[i])
  }

  /** The updates for one name. */
  method RectifyName(s: Settings, order: Order, rss: map<Name, Status>, rows: seq<Row>, q: Name, auth: bool,
                     delegated: bool, signed: bool)
    returns (out: seq<Row>)
    requires delegated ==> !auth
    ensures AllUpdated(s, q, order, auth, signed, SkipTest(rss, q, order, auth), rows, out)
  {
    out := rows;
    if q !in rss || rss[q].update || rss[q].auth != auth || rss[q].order != order {
      out := Written(out, q, order, auth, 0);
    }
    if signed {
      out := Written(out, q, order, true, TYPE_DS);
    }
    ghost var named := out;
    if !auth || delegated {
      if s.signing.OptOut() && !signed {
        out := Written(out, q, Unset, false, TYPE_NS);
      }
      out := Written(out, q, Unset, false, TYPE_A);
      out := Written(out, q, Unset, false, TYPE_AAAA);
    }
    forall i | 0 <= i < |rows|
      ensures out[i] == if rows[i].qname != q then rows[i]
                        else Updated(s, order, auth, signed, SkipTest(rss, q, order, auth), rows[i])
    {
      assert named[i].qname == rows[i].qname && named[i].qtype == rows[i].qtype;
      assert rows[i].qname == q && !auth && Unlisted(s, signed, rows[i].qtype) ==>
          out[i] == rows[i].(order := Unset, auth := false);
    }
  }

  /** The updates for a name give its rows their outcome. */
  lemma UpdatedIsOutcome(zone: Name, s: Settings, orders: Orders, rows: seq<Row>, r: Row)
    requires r in rows && r.qname in Owners(rows)
    ensures var order, auth := OrderFor(orders, r.qname), Uncut(zone, rows, r.qname);
            Outcome(zone, s, orders, rows, r) ==
              Updated(s, order, auth, r.qname in Signers(rows), Skips(zone, s, rows, r.qname, order, auth), r)
  {
    hide Uncut, Owners, Delegations;
    assert r.qtype == TYPE_DS ==> r.qname in Signers(rows);
    hide Signers;
    var i :| 0 <= i < |rows| && rows[i] == r;
    var order, auth := OrderFor(orders, r.qname), Uncut(zone, rows, r.qname);
    assert Skips(zone, s, rows, r.qname, order, auth) ==> r.auth == auth && Listed(r.order) == order;
  }

  // ---------------------------------------------------------------- the zone

  ghost predicate PartlyRectified(zone: Name, s: Settings, orders: Orders, rows: seq<Row>, out: seq<Row>, done: set<Name>) {
    && |out| == |rows|
    && forall i :: 0 <= i < |rows| ==>
         out[i] == if rows[i].qname in done then Outcome(zone, s, orders, rows, rows[i]) else rows[i]
  }

  lemma NamesKept(zone: Name, s: Settings, orders: Orders, rows: seq<Row>, r: Row)
    ensures Outcome(zone, s, orders, rows, r).qname == r.qname && Outcome(zone, s, orders, rows, r).qtype == r.qtype
  {
    hide Uncut, Owners, Delegations, Signers, Skips;
  }

  lemma NameRectified(zone: Name, s: Settings, orders: Orders, rows: seq<Row>, rss: map<Name, Status>, out: seq<Row>,
                      done: set<Name>, q: Name, auth: bool, next: seq<Row>)
    requires PartlyRectified(zone, s, orders, rows, out, done) && q !in done && q in Owners(rows)
    requires Noted(zone, s, rows, rss) && auth == Uncut(zone, rows, q)
    requires AllUpdated(s, q, OrderFor(orders, q), auth, q in Signers(rows), SkipTest(rss, q, OrderFor(orders, q), auth), out, next)
    ensures PartlyRectified(zone, s, orders, rows, next, done + {q})
  {
    OwnerNoted(zone, s, rows, rss, q);
    hide Uncut, OrderFor, Outcome, Updated, Delegations, Owners, Signers, SkipTest, Skips, Noted;
    SkipTestIff(zone, s, rows, rss, q, OrderFor(orders, q), auth);
    forall i | 0 <= i < |rows|
      ensures next[i] == if rows[i].qname in done + {q} then Outcome(zone, s, orders, rows, rows[i]) else rows[i]
    {
      NamesKept(zone, s, orders, rows, rows[i]);
      if rows[i].qname == q { UpdatedIsOutcome(zone, s, orders, rows, rows[i]); }
    }
  }

  lemma OwnerNoted(zone: Name, s: Settings, rows: seq<Row>, rss: map<Name, Status>, q: Name)
    requires Noted(zone, s, rows, rss) && q in Owners(rows)
    ensures q in rss
  {
    var r :| r in rows && r.qtype != 0 && r.qname == q;
    var i :| 0 <= i < |rows| && rows[i] == r;
  }

  /** The empty non-terminals of a zone after rectifying it. */
  ghost function RectifiedEnts(zone: Name, owners: set<Name>, limit: nat): set<Name> {
    if Completes(zone, owners, limit) then Ents(zone, owners, owners) else {}
  }

  /** The order name of an empty non-terminal. */
  function EntOrder(s: Settings, chain: set<Name>, e: Name): Order {
    if s.signing.Nsec3? && e in chain && !s.signing.narrow then At(s.hash(e)) else Unset
  }

  /** The flag of an empty non-terminal: on a chain without opt-out, or above an authoritative owner. */
  predicate EntAuth(s: Settings, chain: set<Name>, marked: set<Name>, e: Name) {
    (s.signing.Nsec3? && e in chain && !s.signing.optedOut) || e in marked
  }

  function AuthOwners(zone: Name, rows: seq<Row>): set<Name> {
    set q | q in Owners(rows) && Uncut(zone, rows, q)
  }

  /** The empty non-terminals above authoritative owners. */
  function AuthEnts(zone: Name, rows: seq<Row>): set<Name> {
    Ents(zone, Owners(rows), AuthOwners(zone, rows))
  }

  /** An empty non-terminal as the zone says it should be. */
  function EntRow(zone: Name, s: Settings, rows: seq<Row>, e: Name): Row {
    Row(e, 0, EntOrder(s, Chained(zone, s, rows), e), EntAuth(s, Chained(zone, s, rows), AuthEnts(zone, rows), e))
  }

  /** What rectifying makes of the row of an empty non-terminal that stays one. */
  ghost function EntOutcome(zone: Name, s: Settings, rows: seq<Row>, r: Row): Row {
    var should := EntRow(zone, s, rows, r.qname);
    if Skips(zone, s, rows, r.qname, should.order, should.auth) then r else r.(order := should.order, auth := should.auth)
  }

  /** What rectifying makes of any row; empty non-terminals that are to go are left as they are. */
  ghost function Final(zone: Name, s: Settings, rows: seq<Row>, r: Row): Row {
    if r.qname in Owners(rows) then Outcome(zone, s, OrdersOf(zone, s, rows), rows, r)
    else if r.qname in RectifiedEnts(zone, Owners(rows), s.maxEnts) then EntOutcome(zone, s, rows, r)
    else r
  }

  /** The owners in order: flags and order names, and the empty non-terminals on the way. */
  method RectifyOwners(zone: Name, s: Settings, rows: seq<Row>, rss: map<Name, Status>, qnames: set<Name>, nsset: set<Name>,
                       dsnames: set<Name>, stored: set<Name>, chain: set<Name>)
    returns (out: seq<Row>, st: EntState)
    requires Noted(zone, s, rows, rss) && qnames == Owners(rows) && nsset == Delegations(zone, rows)
    requires dsnames == Signers(rows) && stored == StoredEnts(rows)
    requires s.signing.Nsec3? && !s.signing.narrow ==> chain == Chained(zone, s, rows)
    ensures PartlyRectified(zone, s, OrdersOf(zone, s, rows), rows, out, Owners(rows))
    ensures st.insert !! st.delete && st.insert !! stored && st.delete <= stored
    ensures EntsAfter(stored, st.insert, st.delete, !st.doent) == RectifiedEnts(zone, Owners(rows), s.maxEnts)
    ensures st.doent <==> Completes(zone, Owners(rows), s.maxEnts)
    ensures st.doent ==>
              st.nonterm.Keys == RectifiedEnts(zone, Owners(rows), s.maxEnts) && Marked(st.nonterm) == AuthEnts(zone, rows)
  {
    hide Noted, PartlyRectified, Outcome, Uncut, Authoritative, Ents, Ancestors, InZone, Completes, NameLess, OrdersOf,
         Owners, Delegations, Signers, StoredEnts, EntWalk, Affords, EntsMatch, Met, EntsAfter, AllUpdated, SkipTest,
         Marked, Marks, OrderIf, AuthEnts, AuthBelow;
    ghost var orders := OrdersOf(zone, s, rows);
    st := EntState({}, stored, map[], s.maxEnts, true);
    out := rows;
    var todo := qnames;
    ghost var names: seq<Name> := [];
    MetConcat([], []);
    assert PartlyRectified(zone, s, orders, rows, out, Met(names)) by { Untouched(zone, s, orders, rows); }
    assert EntsMatch(stored, s.maxEnts, Visits(zone, qnames, names), st) by { NoVisits(stored, s.maxEnts); }
    assert Marked(st.nonterm) == AuthBelow(zone, rows, names) by { NoVisits(stored, s.maxEnts); NoneBelow(zone, rows); }
    while todo != {}
      invariant todo !! Met(names) && todo + Met(names) == qnames
      invariant InOrder(names) && forall m, x :: m in names && x in todo ==> NameLess(m, x)
      invariant PartlyRectified(zone, s, orders, rows, out, Met(names))
      invariant EntsMatch(stored, s.maxEnts, Visits(zone, qnames, names), st)
      invariant st.doent ==> Marked(st.nonterm) == AuthBelow(zone, rows, names)
      decreases todo
    {
      ghost var least := SomeLeast(todo);
      assert exists n :: Least(todo, n);
      var q :| q in todo && Least(todo, q);
      var auth := FindAuth(nsset, q);
      assert auth == Uncut(zone, rows, q) by { UncutIs(zone, rows, q); }
      var order := OrderIf(zone, s, q in chain, q);
      OrderNeedsChain(zone, s, rows, chain, q);
      var next := RectifyName(s, order, rss, out, q, auth, q in nsset, q in dsnames);
      NameRectified(zone, s, orders, rows, rss, out, Met(names), q, auth, next);
      out := next;
      if st.doent {
        st := WalkEnts(zone, qnames, q, auth, stored, s.maxEnts, Visits(zone, qnames, names), st);
        BelowGrows(zone, rows, names, q, auth);
      } else {
        StaysGivenUp(stored, s.maxEnts, Visits(zone, qnames, names), EntWalk(zone, qnames, q), st);
      }
      MetGrows(names, q);
      assert (names + [q])[..|names|] == names;
      todo := todo - {q};
      names := names + [q];
    }
    assert Met(names) == qnames;
    VisitsMeet(zone, qnames, names);
    Concluded(stored, s.maxEnts, Visits(zone, qnames, names), st);
    AffordsIffCompletes(zone, qnames, names, s.maxEnts);
    AllBelow(zone, rows, names);
  }

  lemma UncutIs(zone: Name, rows: seq<Row>, q: Name)
    ensures Uncut(zone, rows, q) == Authoritative([], Delegations(zone, rows), q)
  {
  }

  /** The order name of an owner looks at the chain only where there is one. */
  lemma OrderNeedsChain(zone: Name, s: Settings, rows: seq<Row>, chain: set<Name>, q: Name)
    requires s.signing.Nsec3? && !s.signing.narrow ==> chain == Chained(zone, s, rows)
    requires q in Owners(rows)
    ensures OrderIf(zone, s, q in chain, q) == OrderFor(OrdersOf(zone, s, rows), q)
  {
    hide Owners, Chained, RelativeOrder;
  }

  /** The empty non-terminals above the authoritative ones among these names. */
  ghost function AuthBelow(zone: Name, rows: seq<Row>, names: seq<Name>): set<Name> {
    Ents(zone, Owners(rows), set q | q in names && Uncut(zone, rows, q))
  }

  lemma NoneBelow(zone: Name, rows: seq<Row>)
    ensures AuthBelow(zone, rows, []) == {}
  {
  }

  lemma BelowGrows(zone: Name, rows: seq<Row>, names: seq<Name>, q: Name, auth: bool)
    requires auth == Uncut(zone, rows, q)
    ensures AuthBelow(zone, rows, names + [q]) == AuthBelow(zone, rows, names) + Marks(zone, Owners(rows), q, auth)
  {
    hide Ancestors, EntWalk, Met, Owners, Uncut, Ents;
    var was, now := (set x | x in names && Uncut(zone, rows, x)), (set x | x in names + [q] && Uncut(zone, rows, x));
    if auth {
      assert now == was + {q};
      EntsGrow(zone, Owners(rows), was, q);
      WalkMeets(zone, Owners(rows), q);
    } else {
      assert now == was;
    }
  }

  lemma AllBelow(zone: Name, rows: seq<Row>, names: seq<Name>)
    requires Met(names) == Owners(rows)
    ensures AuthBelow(zone, rows, names) == AuthEnts(zone, rows)
  {
    hide Owners, Uncut, Ents;
    assert (set q | q in names && Uncut(zone, rows, q)) == AuthOwners(zone, rows) by {
      assert forall q :: q in names <==> q in Met(names);
    }
  }

  /** Updates existing rows where the listing shows a difference; a name without rows always gets its update. */
  method RectifyEnts(zone: Name, s: Settings, ghost rows: seq<Row>, rss: map<Name, Status>, nonterm: map<Name, bool>,
                     insert: set<Name>, chain: set<Name>, was: seq<Row>)
    returns (out: seq<Row>, added: map<Name, Row>)
    requires Noted(zone, s, rows, rss) && |was| == |rows|
    requires forall i :: 0 <= i < |rows| ==>
               was[i].qname == rows[i].qname && (rows[i].qname in nonterm ==> was[i] == rows[i])
    requires nonterm.Keys !! Owners(rows) && insert == nonterm.Keys - StoredEnts(rows)
    requires Marked(nonterm) == AuthEnts(zone, rows)
    requires s.signing.Nsec3? && !(s.signing.narrow && s.signing.optedOut) ==> chain == Chained(zone, s, rows)
    ensures |out| == |rows| && forall i :: 0 <= i < |rows| ==>
              out[i] == if rows[i].qname in nonterm then EntOutcome(zone, s, rows, rows[i]) else was[i]
    ensures added.Keys == insert && forall e :: e in added ==> added[e] == EntRow(zone, s, rows, e)
  {
    hide Noted, Owners, StoredEnts, Marked, AuthEnts, Chained, EntRow, EntOutcome, Skips, SkipTest;
    out, added := was, map e | e in insert :: Row(e, 0, Unset, true);
    var todo := nonterm.Keys;
    while todo != {}
      invariant todo <= nonterm.Keys && |out| == |rows| && added.Keys == insert
      invariant forall i :: 0 <= i < |rows| ==>
                  && out[i].qname == rows[i].qname
                  && out[i] == if rows[i].qname in nonterm.Keys - todo then EntOutcome(zone, s, rows, rows[i]) else was[i]
      invariant forall e :: e in insert && e !in todo ==> added[e] == EntRow(zone, s, rows, e)
      decreases todo
    {
      var e :| e in todo;
      var order := EntOrder(s, chain, e);
      var auth := nonterm[e] || (s.signing.Nsec3? && e in chain && !s.signing.optedOut);
      EntRowIs(zone, s, rows, nonterm, chain, e);
      EntTest(zone, s, rows, rss, e, order, auth);
      if !SkipTest(rss, e, order, auth) {
        out := Written(out, e, order, auth, 0);
        if e in added { added := added[e := Row(e, 0, order, auth)]; }
      }
      EntOutcomeIs(zone, s, rows, rss, e, order, auth);
      todo := todo - {e};
    }
  }

  lemma EntRowIs(zone: Name, s: Settings, rows: seq<Row>, nonterm: map<Name, bool>, chain: set<Name>, e: Name)
    requires e in nonterm && Marked(nonterm) == AuthEnts(zone, rows)
    requires s.signing.Nsec3? && !(s.signing.narrow && s.signing.optedOut) ==> chain == Chained(zone, s, rows)
    ensures EntRow(zone, s, rows, e) ==
              Row(e, 0, EntOrder(s, chain, e), nonterm[e] || (s.signing.Nsec3? && e in chain && !s.signing.optedOut))
  {
    hide AuthEnts, Chained;
    assert e in Marked(nonterm) <==> nonterm[e];
  }

  /** A name that is to be inserted has no row to be skipped. */
  lemma EntTest(zone: Name, s: Settings, rows: seq<Row>, rss: map<Name, Status>, e: Name, order: Order, auth: bool)
    requires Noted(zone, s, rows, rss) && e !in Owners(rows)
    ensures e !in StoredEnts(rows) ==> !SkipTest(rss, e, order, auth)
  {
    if e in rss {
      assert NotedAt(zone, s, rows, e, rss[e]);
      var i :| 0 <= i < |rows| && rows[i].qname == e;
      assert rows[i] in rows;
    }
  }

  lemma EntOutcomeIs(zone: Name, s: Settings, rows: seq<Row>, rss: map<Name, Status>, e: Name, order: Order, auth: bool)
    requires Noted(zone, s, rows, rss) && EntRow(zone, s, rows, e) == Row(e, 0, order, auth)
    ensures forall i :: 0 <= i < |rows| && rows[i].qname == e ==>
              EntOutcome(zone, s, rows, rows[i]) ==
                if SkipTest(rss, e, order, auth) then rows[i] else rows[i].(order := order, auth := auth)
  {
    hide EntRow, Skips, SkipTest;
    if e in rss { SkipTestIff(zone, s, rows, rss, e, order, auth); }
  }

  /**
   Rectifies a zone: every row gets its final order name and flag, new empty non-terminals come with theirs, and
   those that are none any more are deleted, all of them when there are too many.
   */
  method RectifyZone(zone: Name, s: Settings, rows: seq<Row>)
    returns (out: seq<Row>, added: map<Name, Row>, delnonterm: set<Name>, doent: bool)
    ensures |out| == |rows| && forall i :: 0 <= i < |rows| ==> out[i] == Final(zone, s, rows, rows[i])
    ensures forall e :: e in added ==> added[e] == EntRow(zone, s, rows, e)
    ensures added.Keys !! delnonterm && added.Keys !! StoredEnts(rows) && delnonterm <= StoredEnts(rows)
    ensures EntsAfter(StoredEnts(rows), added.Keys, delnonterm, !doent) == RectifiedEnts(zone, Owners(rows), s.maxEnts)
    ensures doent <==> Completes(zone, Owners(rows), s.maxEnts)
  {
    hide Noted, PartlyRectified, Outcome, Ents, Completes, Owners, Delegations, Signers, StoredEnts, EntOutcome, EntRow,
         Marked, AuthEnts, Chain, OrdersOf;
    var rss, rrs, qnames, nsset, dsnames, stored := ListZone(zone, s, rows);
    var chain: set<Name> := {};
    if s.signing.Nsec3? && !(s.signing.narrow && s.signing.optedOut) {
      ApexUncut(zone, rows);
      chain := CollectChain(zone, s.signing.optedOut, rrs, nsset);
    }
    var st;
    out, st := RectifyOwners(zone, s, rows, rss, qnames, nsset, dsnames, stored, chain);
    OwnersDone(zone, s, OrdersOf(zone, s, rows), rows, out);
    delnonterm, doent, added := st.delete, st.doent, map[];
    if doent {
      EntsNotOwners(zone, Owners(rows));
      out, added := RectifyEnts(zone, s, rows, rss, st.nonterm, st.insert, chain, out);
    }
  }

  lemma ApexUncut(zone: Name, rows: seq<Row>)
    ensures zone !in Delegations(zone, rows)
  {
  }

  lemma EntsNotOwners(zone: Name, owners: set<Name>)
    ensures Ents(zone, owners, owners) !! owners
  {
  }

  lemma OwnersDone(zone: Name, s: Settings, orders: Orders, rows: seq<Row>, out: seq<Row>)
    requires PartlyRectified(zone, s, orders, rows, out, Owners(rows))
    ensures |out| == |rows| && forall i :: 0 <= i < |rows| ==>
              && out[i].qname == rows[i].qname
              && out[i] == if rows[i].qname in Owners(rows) then Outcome(zone, s, orders, rows, rows[i]) else rows[i]
  {
    hide Outcome, Owners;
    forall i | 0 <= i < |rows| ensures out[i].qname == rows[i].qname { NamesKept(zone, s, orders, rows, rows[i]); }
  }

  lemma Untouched(zone: Name, s: Settings, orders: Orders, rows: seq<Row>)
    ensures PartlyRectified(zone, s, orders, rows, rows, {})
  {
  }

  // ---------------------------------------------------------------- what order names and flags mean

  lemma {:induction false} RecordsAre(rows: seq<Row>, x: Record)
    ensures x in Records(rows) <==> exists r :: r in rows && r.qtype != 0 && x == Record(r.qname, r.qtype)
  {
    if rows != [] {
      var n := |rows| - 1;
      RecordsAre(rows[..n], x);
      assert forall r :: r in rows <==> r in rows[..n] || r == rows[n];
    }
  }

  lemma RecordOwners(zone: Name, rows: seq<Row>)
    ensures Contributors(false, Records(rows)) == Owners(rows) && Delegations(zone, rows) <= Owners(rows)
  {
    forall q ensures q in Contributors(false, Records(rows)) <==> q in Owners(rows) {
      if x :| x in Records(rows) && x.qname == q { RecordsAre(rows, x); }
      if r :| r in rows && r.qtype != 0 && r.qname == q { RecordsAre(rows, Record(r.qname, r.qtype)); }
    }
  }

  /** An owner other than the apex that has only NS records is a delegation. */
  lemma OthersOrCut(zone: Name, rows: seq<Row>, q: Name)
    requires q in Owners(rows) && q != zone
    ensures q in Contributors(true, Records(rows)) || q in Delegations(zone, rows)
  {
    var r :| r in rows && r.qtype != 0 && r.qname == q;
    RecordsAre(rows, Record(q, r.qtype));
  }

  /** Whether an owner is on the chain: not below a delegation and, with opt-out, with a record other than NS. */
  ghost predicate OnChain(zone: Name, optOut: bool, rows: seq<Row>, q: Name) {
    !Occluded(zone, Delegations(zone, rows), q) && (optOut ==> q in Contributors(true, Records(rows)))
  }

  /** The tree decides, given a record other than NS, such as SOA, at the apex. */
  lemma OwnerOrder(zone: Name, s: Settings, rows: seq<Row>, q: Name)
    requires q in Owners(rows) && zone in Contributors(true, Records(rows))
    ensures OrderFor(OrdersOf(zone, s, rows), q) == OrderIf(zone, s, OnChain(zone, s.signing.OptOut(), rows, q), q)
  {
    hide Owners, Delegations, Contributors, Chain, Occluded, RelativeOrder, Records;
    RecordOwners(zone, rows);
    PlainChain(zone, Delegations(zone, rows), Owners(rows), q);
    if q != zone { OthersOrCut(zone, rows, q); }
    OptOutChain(zone, Delegations(zone, rows), Contributors(true, Records(rows)), q);
  }

  /** The order name of a record that is not stale: that of its owner, except for these types at or below a delegation. */
  lemma RecordOrder(zone: Name, s: Settings, rows: seq<Row>, r: Row)
    requires r in rows && r.qtype != 0 && !Stale(zone, s, OrdersOf(zone, s, rows), rows, r)
    ensures Final(zone, s, rows, r).order ==
            if && !Uncut(zone, rows, r.qname)
               && (r.qtype == TYPE_A || r.qtype == TYPE_AAAA
                   || (r.qtype == TYPE_NS && s.signing.Nsec3? && s.signing.optedOut && r.qname !in Signers(rows)))
            then Unset else OrderFor(OrdersOf(zone, s, rows), r.qname)
  {
    assert r.qname in Owners(rows);
    hide Owners, Signers, Uncut, OrdersOf, OrderFor, Stale;
  }

  /** In an NSEC zone no row is stale: a record at p.<zone> ends with the order name p, a stray one without any. */
  lemma NsecOrder(zone: Name, s: Settings, rows: seq<Row>, r: Row, p: Name)
    requires s.signing == Nsec && r in rows && r.qtype != 0
    ensures !Stale(zone, s, OrdersOf(zone, s, rows), rows, r)
    ensures r.qname == p + zone ==>
              Final(zone, s, rows, r).order ==
                if !Uncut(zone, rows, r.qname) && (r.qtype == TYPE_A || r.qtype == TYPE_AAAA) then Unset else At(p)
    ensures !InZone(zone, r.qname) ==> Final(zone, s, rows, r).order == Unset
  {
    assert r.qname in Owners(rows);
    hide Owners, Uncut, Chained, RelativeOrder, Stale, Final, InZone;
    if Stale(zone, s, OrdersOf(zone, s, rows), rows, r) { StaleOnlyBelowApex(zone, s, OrdersOf(zone, s, rows), rows, r); }
    RecordOrder(zone, s, rows, r);
    RelativeOrderIs(zone, r.qname, p);
  }

  /** In an NSEC3 zone it is the hash of the owner, for owners on the chain unless the zone is narrow. */
  lemma Nsec3Order(zone: Name, s: Settings, rows: seq<Row>, r: Row)
    requires s.signing.Nsec3? && r in rows && r.qtype != 0 && zone in Contributors(true, Records(rows))
    requires !Stale(zone, s, OrdersOf(zone, s, rows), rows, r)
    ensures var optOut, signed := s.signing.optedOut, r.qname in Signers(rows);
            Final(zone, s, rows, r).order ==
            if || s.signing.narrow || Occluded(zone, Delegations(zone, rows), r.qname)
               || (optOut && forall x :: x in rows && x.qname == r.qname ==> x.qtype == TYPE_NS || x.qtype == 0)
               || (&& !Uncut(zone, rows, r.qname)
                   && (r.qtype == TYPE_A || r.qtype == TYPE_AAAA || (r.qtype == TYPE_NS && optOut && !signed)))
            then Unset else At(s.hash(r.qname))
  {
    assert r.qname in Owners(rows);
    hide Owners, Uncut, Signers, Stale, Final, Occluded, Delegations, Contributors, OrdersOf, Records;
    RecordOrder(zone, s, rows, r);
    OwnerOrder(zone, s, rows, r.qname);
    OtherRecord(rows, r.qname);
  }

  lemma OtherRecord(rows: seq<Row>, q: Name)
    ensures q in Contributors(true, Records(rows)) <==> exists x :: x in rows && x.qname == q && x.qtype != TYPE_NS && x.qtype != 0
  {
    if q in Contributors(true, Records(rows)) {
      var c :| c in Records(rows) && c.qtype != TYPE_NS && c.qname == q;
      RecordsAre(rows, c);
    }
    if x :| x in rows && x.qname == q && x.qtype != TYPE_NS && x.qtype != 0 { RecordsAre(rows, Record(q, x.qtype)); }
  }

  /** In an unsigned zone there is none. */
  lemma UnsignedOrder(zone: Name, s: Settings, rows: seq<Row>, r: Row)
    requires s.signing == Unsigned && r in rows && r.qtype != 0
    ensures Final(zone, s, rows, r).order == if Stale(zone, s, OrdersOf(zone, s, rows), rows, r) then At([]) else Unset
  {
    assert r.qname in Owners(rows);
    hide Owners, Uncut, Chained, Stale;
    if Stale(zone, s, OrdersOf(zone, s, rows), rows, r) {
      StaleOnlyBelowApex(zone, s, OrdersOf(zone, s, rows), rows, r);
    } else {
      RecordOrder(zone, s, rows, r);
    }
  }

  /** With opt-out an empty non-terminal has its hash iff an owner below it, not only of NS records, is not occluded. */
  lemma OptOutEnt(zone: Name, s: Settings, rows: seq<Row>, e: Name)
    requires s.signing.Nsec3? && s.signing.optedOut && e !in Owners(rows)
    ensures EntRow(zone, s, rows, e).order ==
            if !s.signing.narrow &&
               exists x :: x in rows && x.qtype != TYPE_NS && x.qtype != 0 && e in Ancestors(zone, x.qname)
                           && !Occluded(zone, Delegations(zone, rows), x.qname)
            then At(s.hash(e)) else Unset
  {
    hide Ancestors, Occluded, Delegations, AuthEnts, Records, Owners, Contributors, Chain;
    var others, d := Contributors(true, Records(rows)), Delegations(zone, rows);
    if e in others { ContributorOwns(rows, e); }
    OptOutEnts(zone, d, others, e);
    if q :| q in others && e in Ancestors(zone, q) && !Occluded(zone, d, q) { OtherRecord(rows, q); }
    forall x | x in rows && x.qtype != TYPE_NS && x.qtype != 0 ensures x.qname in others { OtherRecord(rows, x.qname); }
  }

  lemma ContributorOwns(rows: seq<Row>, q: Name)
    requires q in Contributors(true, Records(rows))
    ensures q in Owners(rows)
  {
    var c :| c in Records(rows) && c.qname == q;
    RecordsAre(rows, c);
  }

  /** An empty non-terminal above an authoritative owner is not below a delegation. */
  lemma AuthEntUncovered(zone: Name, rows: seq<Row>, e: Name)
    requires e in AuthEnts(zone, rows)
    ensures !Occluded(zone, Delegations(zone, rows), e)
  {
    hide Ancestors, Owners, Delegations;
    var q :| q in AuthOwners(zone, rows) && e in Ancestors(zone, q);
    AncestorsNested(zone, q, e);
    PathToRoot(zone, q, q);
  }

  /** Without opt-out, the flag and order name of an empty non-terminal say whether it lies below a delegation. */
  lemma PlainEnt(zone: Name, s: Settings, rows: seq<Row>, e: Name)
    requires s.signing.Nsec3? && !s.signing.optedOut && e in Ents(zone, Owners(rows), Owners(rows))
    ensures var covered := Occluded(zone, Delegations(zone, rows), e);
            EntRow(zone, s, rows, e) == Row(e, 0, if covered || s.signing.narrow then Unset else At(s.hash(e)), !covered)
  {
    hide Owners, Delegations, Contributors, Chain, Occluded, Records, AuthEnts, Ents;
    RecordOwners(zone, rows);
    PlainChain(zone, Delegations(zone, rows), Owners(rows), e);
    EntsNotOwners(zone, Owners(rows));
    if e in AuthEnts(zone, rows) { AuthEntUncovered(zone, rows, e); }
  }

  /** Otherwise the flag says whether an authoritative owner is below it. */
  lemma OtherEnt(zone: Name, s: Settings, rows: seq<Row>, e: Name)
    requires s.signing.Nsec3? ==> s.signing.optedOut
    ensures EntRow(zone, s, rows, e).auth <==>
              exists q :: q in Owners(rows) && Uncut(zone, rows, q) && e in Ancestors(zone, q) && e !in Owners(rows)
  {
    hide Owners, Uncut, Ancestors;
    if q :| q in Owners(rows) && Uncut(zone, rows, q) && e in Ancestors(zone, q) && e !in Owners(rows) {
      assert q in AuthOwners(zone, rows);
    }
  }

  /** The row of an empty non-terminal is right unless it holds the empty string and is skipped. */
  lemma EntOutcomeRight(zone: Name, s: Settings, rows: seq<Row>, r: Row)
    requires r in rows
    ensures var should, after := EntRow(zone, s, rows, r.qname), EntOutcome(zone, s, rows, r);
            && after.auth == should.auth
            && (after.order == should.order <==>
                !(r.order == At([]) && Skips(zone, s, rows, r.qname, should.order, should.auth)))
  {
    hide EntRow;
    var should := EntRow(zone, s, rows, r.qname);
    var i :| 0 <= i < |rows| && rows[i] == r;
    if Skips(zone, s, rows, r.qname, should.order, should.auth) {
      assert rows[i].auth == should.auth && Listed(rows[i].order) == should.order;
    }
  }

  /** An address record of an unsigned root zone, stored with the empty string, keeps it. */
  lemma KeepsEmptyString(a: Label, hash: Name -> Name, maxEnts: nat)
    ensures var rows := [Row([], TYPE_SOA, Unset, true), Row([a], TYPE_A, At([]), true)];
            var s := Settings(Unsigned, hash, maxEnts);
            Final([], s, rows, rows[1]) == rows[1] && Rectified([], s, OrdersOf([], s, rows), rows, rows[1]).order == Unset
  {
    var apex, r := Row([], TYPE_SOA, Unset, true), Row([a], TYPE_A, At([]), true);
    var rows, s := [apex, r], Settings(Unsigned, hash, maxEnts);
    assert rows[1] in rows && r.qname in Owners(rows);
    assert Delegations([], rows) == {};
    assert Uncut([], rows, [a]);
    OutcomeRight([], s, OrdersOf([], s, rows), rows, r);
    StaleHere(s, rows, r);
  }

  lemma StaleHere(s: Settings, rows: seq<Row>, r: Row)
    requires |rows| == 2 && rows[1] == r && rows[0].qname == [] && r.qname != [] && s.signing == Unsigned
    requires r.qname in Owners(rows) && Uncut([], rows, r.qname) && r.order == At([]) && r.qtype == TYPE_A && r.auth
    ensures Stale([], s, OrdersOf([], s, rows), rows, r)
  {
    hide Owners, Uncut, Chained, Signers;
  }

  // ---------------------------------------------------------------- a rectified zone stays as it is

  ghost predicate SameTypes(a: seq<Row>, b: seq<Row>) {
    |a| == |b| && forall i :: 0 <= i < |a| ==> a[i].qname == b[i].qname && a[i].qtype == b[i].qtype
  }

  lemma SameNames(zone: Name, a: seq<Row>, b: seq<Row>)
    requires SameTypes(a, b)
    ensures Owners(a) <= Owners(b) && Delegations(zone, a) <= Delegations(zone, b) && Signers(a) <= Signers(b)
  {
    forall r | r in a ensures exists x :: x in b && x.qname == r.qname && x.qtype == r.qtype {
      var i :| 0 <= i < |a| && a[i] == r;
      assert b[i] in b;
    }
  }

  lemma {:induction false} SameTree(zone: Name, a: seq<Row>, b: seq<Row>)
    requires SameTypes(a, b)
    ensures Owners(a) == Owners(b) && Delegations(zone, a) == Delegations(zone, b) && Signers(a) == Signers(b)
    ensures Records(a) == Records(b)
  {
    hide Owners, Delegations, Signers;
    SameNames(zone, a, b);
    SameNames(zone, b, a);
    if a != [] { SameTree(zone, a[..|a| - 1], b[..|b| - 1]); }
  }

  /** The rows of owners have their outcome, and no row changed its name or type. */
  ghost predicate OwnersRectified(zone: Name, s: Settings, orders: Orders, rows: seq<Row>, out: seq<Row>) {
    && SameTypes(rows, out)
    && forall i :: 0 <= i < |rows| && rows[i].qname in Owners(rows) ==> out[i] == Outcome(zone, s, orders, rows, rows[i])
  }

  /** The name of a stale row is skipped again, unless its DS records became authoritative below a delegation. */
  lemma SkipsAgain(zone: Name, s: Settings, orders: Orders, rows: seq<Row>, out: seq<Row>, q: Name, auth: bool)
    requires OwnersRectified(zone, s, orders, rows, out) && q in Owners(rows) && auth == Uncut(zone, rows, q)
    requires Skips(zone, s, rows, q, OrderFor(orders, q), auth) && OrderFor(orders, q) == Unset
    ensures Skips(zone, s, out, q, OrderFor(orders, q), auth) <==> auth || q !in Signers(rows)
  {
    SignerRow(rows, q);
    hide Outcome, Owners, Delegations, Signers, Uncut, OrderFor;
    forall i | 0 <= i < |rows| && rows[i].qname == q
      ensures out[i] == Updated(s, Unset, auth, q in Signers(rows), true, rows[i])
    {
      assert rows[i] in rows;
      UpdatedIsOutcome(zone, s, orders, rows, rows[i]);
    }
    if auth || q !in Signers(rows) {
      forall i | 0 <= i < |out| && out[i].qname == q ensures out[i].auth == auth && Listed(out[i].order) == Unset {
        assert rows[i].qname == q;
      }
    } else {
      var i :| 0 <= i < |rows| && rows[i].qname == q && rows[i].qtype == TYPE_DS;
      assert out[i].auth != auth;
    }
  }

  lemma SignerRow(rows: seq<Row>, q: Name)
    ensures q in Signers(rows) ==> exists i :: 0 <= i < |rows| && rows[i].qname == q && rows[i].qtype == TYPE_DS
  {
    if q in Signers(rows) {
      var r :| r in rows && r.qtype == TYPE_DS && r.qname == q;
      var i :| 0 <= i < |rows| && rows[i] == r;
    }
  }

  /** The rows of owners that a second run changes. */
  lemma OwnerTwice(zone: Name, s: Settings, orders: Orders, rows: seq<Row>, out: seq<Row>, i: nat)
    requires OwnersRectified(zone, s, orders, rows, out) && i < |rows| && rows[i].qname in Owners(rows)
    ensures Outcome(zone, s, orders, out, out[i]) != out[i] <==>
              && Stale(zone, s, orders, rows, rows[i])
              && !Uncut(zone, rows, rows[i].qname) && rows[i].qname in Signers(rows)
  {
    hide Owners, Delegations, Signers, Uncut, OrderFor, Skips, Outcome;
    SameTree(zone, rows, out);
    if Stale(zone, s, orders, rows, rows[i]) {
      assert rows[i] in rows && out[i] in out;
      StaleOnlyBelowApex(zone, s, orders, rows, rows[i]);
      SkipsAgain(zone, s, orders, rows, out, rows[i].qname, Uncut(zone, rows, rows[i].qname));
      StaleStays(zone, s, orders, rows, out, i);
    } else {
      RightStays(zone, s, orders, rows, out, i);
    }
  }

  lemma StaleStays(zone: Name, s: Settings, orders: Orders, rows: seq<Row>, out: seq<Row>, i: nat)
    requires OwnersRectified(zone, s, orders, rows, out) && i < |rows| && Stale(zone, s, orders, rows, rows[i])
    requires OrderFor(orders, rows[i].qname) == Unset
    requires Owners(rows) == Owners(out) && Delegations(zone, rows) == Delegations(zone, out) && Signers(rows) == Signers(out)
    ensures Outcome(zone, s, orders, out, out[i]) == out[i] <==>
              Skips(zone, s, out, rows[i].qname, Unset, Uncut(zone, rows, rows[i].qname))
  {
    hide Owners, Delegations, Signers, Authoritative, OrderFor, Skips;
    assert out[i] == rows[i];
  }

  lemma RightStays(zone: Name, s: Settings, orders: Orders, rows: seq<Row>, out: seq<Row>, i: nat)
    requires OwnersRectified(zone, s, orders, rows, out) && i < |rows| && !Stale(zone, s, orders, rows, rows[i])
    requires rows[i].qname in Owners(rows)
    requires Owners(rows) == Owners(out) && Delegations(zone, rows) == Delegations(zone, out) && Signers(rows) == Signers(out)
    ensures Outcome(zone, s, orders, out, out[i]) == out[i]
  {
    hide Owners, Delegations, Signers, Authoritative, OrderFor, Skips;
  }

  ghost predicate IsFinal(zone: Name, s: Settings, rows: seq<Row>, out: seq<Row>) {
    |out| == |rows| && forall i :: 0 <= i < |rows| ==> out[i] == Final(zone, s, rows, rows[i])
  }

  lemma FinalKeeps(zone: Name, s: Settings, rows: seq<Row>, r: Row)
    ensures Final(zone, s, rows, r).qname == r.qname && Final(zone, s, rows, r).qtype == r.qtype
  {
    hide Outcome, Owners, OrdersOf, RectifiedEnts, Skips, EntRow;
    NamesKept(zone, s, OrdersOf(zone, s, rows), rows, r);
  }

  lemma FinalIsOutcome(zone: Name, s: Settings, rows: seq<Row>, out: seq<Row>)
    requires IsFinal(zone, s, rows, out)
    ensures OwnersRectified(zone, s, OrdersOf(zone, s, rows), rows, out)
    ensures Owners(out) == Owners(rows) && OrdersOf(zone, s, out) == OrdersOf(zone, s, rows)
    ensures forall e :: EntRow(zone, s, out, e) == EntRow(zone, s, rows, e)
  {
    forall i | 0 <= i < |rows| ensures out[i].qname == rows[i].qname && out[i].qtype == rows[i].qtype {
      FinalKeeps(zone, s, rows, rows[i]);
    }
    assert SameTypes(rows, out);
    SameTree(zone, rows, out);
    hide Outcome, EntOutcome, Owners, Delegations, Records, RectifiedEnts, Chain, Contributors, Authoritative, Ents, OrderIf,
         EntOrder, EntAuth;
    assert AuthOwners(zone, out) == AuthOwners(zone, rows);
  }

  /** The row of an empty non-terminal is not changed again. */
  lemma EntTwice(zone: Name, s: Settings, rows: seq<Row>, out: seq<Row>, i: nat)
    requires IsFinal(zone, s, rows, out) && i < |rows|
    requires rows[i].qname !in Owners(rows) && rows[i].qname in RectifiedEnts(zone, Owners(rows), s.maxEnts)
    requires EntRow(zone, s, out, rows[i].qname) == EntRow(zone, s, rows, rows[i].qname)
    ensures EntOutcome(zone, s, out, out[i]) == out[i]
  {
    hide Owners, RectifiedEnts, EntRow;
    var e, should := rows[i].qname, EntRow(zone, s, rows, rows[i].qname);
    if Skips(zone, s, rows, e, should.order, should.auth) {
      forall j | 0 <= j < |out| && out[j].qname == e ensures out[j].auth == should.auth && Listed(out[j].order) == should.order {
        FinalKeeps(zone, s, rows, rows[j]);
        assert out[j] == rows[j];
      }
      assert Skips(zone, s, out, e, should.order, should.auth);
    }
  }

  /**
   Rectifying again changes exactly the stale rows of signed delegations: their DS records got another flag,
   so the second run does not skip them.
   */
  lemma RectifiedTwice(zone: Name, s: Settings, rows: seq<Row>, out: seq<Row>, i: nat)
    requires IsFinal(zone, s, rows, out) && i < |rows|
    ensures Final(zone, s, out, out[i]) != out[i] <==>
              && Stale(zone, s, OrdersOf(zone, s, rows), rows, rows[i])
              && !Uncut(zone, rows, rows[i].qname) && rows[i].qname in Signers(rows)
  {
    FinalKeeps(zone, s, rows, rows[i]);
    FinalIsOutcome(zone, s, rows, out);
    hide Owners, Signers, Uncut, OrdersOf, EntRow, Outcome, EntOutcome, RectifiedEnts, Skips, OrderFor;
    if rows[i].qname in Owners(rows) {
      OwnerTwice(zone, s, OrdersOf(zone, s, rows), rows, out, i);
    } else if rows[i].qname in RectifiedEnts(zone, Owners(rows), s.maxEnts) {
      EntTwice(zone, s, rows, out, i);
    }
  }
}
