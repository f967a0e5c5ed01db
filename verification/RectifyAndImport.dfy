/**
 Rectifying a zone and importing it by a full transfer compute flags, order names and empty non-terminals in two
 ways.  Here is where they agree and where they do not.
 */
module RectifyAndImport {
  import opened Wire
  import opened ZoneTree
  import opened OrderNames
  import opened EmptyNonTerminals
  import opened Rectify
  import A = AxfrImport

  /** The same records: those the import sees are the rows that are not empty non-terminals. */
  ghost predicate SameRecords(rows: seq<Row>, rrs: seq<Record>) {
    forall x :: x in rrs <==> x in Records(rows)
  }

  ghost predicate SameSettings(s: Settings, t: A.Settings) {
    s.signing == t.signing && s.hash == t.hash && s.maxEnts == t.maxEnts
  }

  /** A transfer brings in records of the zone only. */
  ghost predicate AllInZone(zone: Name, rrs: seq<Record>) {
    forall x :: x in rrs ==> InZone(zone, x.qname)
  }

  lemma SameOwners(zone: Name, rows: seq<Row>, rrs: seq<Record>)
    requires SameRecords(rows, rrs)
    ensures Owners(rows) == A.Owners(rrs) && Delegations(zone, rows) == A.Delegations(zone, rrs)
  {
    forall n ensures n in Owners(rows) <==> n in A.Owners(rrs) {
      if r :| r in rows && r.qtype != 0 && r.qname == n { RecordsAre(rows, Record(r.qname, r.qtype)); }
      if x :| x in rrs && x.qname == n { RecordsAre(rows, x); }
    }
    forall n ensures n in Delegations(zone, rows) <==> n in A.Delegations(zone, rrs) {
      if r :| r in rows && r.qtype == TYPE_NS && r.qname == n { RecordsAre(rows, Record(r.qname, r.qtype)); }
      if x :| x in rrs && x.qtype == TYPE_NS && x.qname == n { RecordsAre(rows, x); }
    }
  }

  /** In a zone without stray rows both stop looking for a delegation at the same place. */
  lemma SameAuthority(zone: Name, rows: seq<Row>, rrs: seq<Record>, n: Name)
    requires SameRecords(rows, rrs) && AllInZone(zone, rrs)
    ensures Uncut(zone, rows, n) <==> Authoritative(zone, A.Delegations(zone, rrs), n)
  {
    hide Authoritative, InZone;
    SameOwners(zone, rows, rrs);
    FlagInZone(zone, rows, n);
  }

  // ---------------------------------------------------------------- records

  /** Apart from RRSIG records both ways leave the same authority flag, whether or not updates were skipped. */
  lemma FlagsAgree(zone: Name, s: Settings, rows: seq<Row>, rrs: seq<Record>, r: Row)
    requires SameRecords(rows, rrs) && AllInZone(zone, rrs) && r in rows && r.qtype != 0 && r.qtype != TYPE_RRSIG
    ensures Final(zone, s, rows, r).auth == A.ImportedAuth(zone, A.Delegations(zone, rrs), Record(r.qname, r.qtype))
  {
    RowOwner(rows, r);
    hide Authoritative, Outcome, Owners, OrdersOf, Delegations;
    SameAuthority(zone, rows, rrs, r.qname);
    RectifiedFlag(zone, s, OrdersOf(zone, s, rows), rows, r);
    OutcomeRight(zone, s, OrdersOf(zone, s, rows), rows, r);
  }

  lemma RowOwner(rows: seq<Row>, r: Row)
    requires r in rows && r.qtype != 0
    ensures r.qname in Owners(rows)
  {
  }

  /** Where both ways give a record the same order name, `auth` and `occluded` telling its place in the tree. */
  predicate OrderAgrees(s: Settings, t: A.Settings, auth: bool, occluded: bool, signed: bool, r: Row) {
    match s.signing
    case Unsigned => true
    case Nsec => r.qtype != TYPE_RRSIG && (auth || r.qtype in {TYPE_A, TYPE_AAAA, TYPE_NS, TYPE_DS})
    case Nsec3(optOut, narrow) =>
      || narrow
      || r.qtype in {TYPE_A, TYPE_AAAA}
      || if r.qtype == TYPE_RRSIG then occluded
         else if r.qtype == TYPE_DS then !occluded
         else if r.qtype == TYPE_NS then
           auth || if optOut then (signed && !occluded <==> t.hash(r.qname) in t.secured) else !occluded
         else auth || occluded
  }

  /** A record's row after rectifying and after importing have the same order name in exactly these places. */
  lemma OrdersAgree(zone: Name, s: Settings, t: A.Settings, rows: seq<Row>, rrs: seq<Record>, r: Row)
    requires SameSettings(s, t) && SameRecords(rows, rrs) && AllInZone(zone, rrs)
    requires r in rows && r.qtype != 0 && zone in Contributors(true, rrs)
    ensures var d := A.Delegations(zone, rrs);
            Final(zone, s, rows, r).order == A.ImportedRecord(zone, t, d, Record(r.qname, r.qtype)).order <==>
            && !Stale(zone, s, OrdersOf(zone, s, rows), rows, r)
            && OrderAgrees(s, t, Authoritative(zone, d, r.qname), Occluded(zone, d, r.qname), r.qname in Signers(rows), r)
  {
    RowOwner(rows, r);
    PlaceOf(zone, rows, rrs, r);
    OwnerOrder(zone, s, rows, r.qname);
    OutcomeRight(zone, s, OrdersOf(zone, s, rows), rows, r);
    var d := A.Delegations(zone, rrs);
    var auth, occluded, signed := Authoritative(zone, d, r.qname), Occluded(zone, d, r.qname), r.qname in Signers(rows);
    hide Authoritative, Occluded, Owners, OrdersOf, Delegations, A.Delegations, Contributors, Signers, Records, Uncut, Stale,
         InZone, OrderFor, OrderIf, OrderAgrees, RectifiedRow, Outcome, A.OrderWith;
    if Stale(zone, s, OrdersOf(zone, s, rows), rows, r) {
      StaleOnlyBelowApex(zone, s, OrdersOf(zone, s, rows), rows, r);
      NoOrder(zone, t, Record(r.qname, r.qtype), A.ImportedAuth(zone, d, Record(r.qname, r.qtype)));
      StaleOutcome(zone, s, rows, r);
    } else {
      CompareOrders(zone, s, t, auth, occluded, r.qname in Contributors(true, Records(rows)), signed, r);
    }
  }

  lemma NoOrder(zone: Name, t: A.Settings, x: Record, auth: bool)
    requires t.signing.Unordered()
    ensures A.OrderWith(zone, t, x, auth) == Unset
  {
  }

  lemma StaleOutcome(zone: Name, s: Settings, rows: seq<Row>, r: Row)
    requires r.qname in Owners(rows) && Stale(zone, s, OrdersOf(zone, s, rows), rows, r)
    ensures Final(zone, s, rows, r) == r
  {
    hide Owners, OrdersOf, Stale;
  }

  /** The two order names of a record side by side. */
  lemma CompareOrders(zone: Name, s: Settings, t: A.Settings, auth: bool, occluded: bool, contributes: bool, signed: bool, r: Row)
    requires SameSettings(s, t) && InZone(zone, r.qname) && (auth ==> !occluded)
    requires auth || signed || r.qtype != TYPE_NS ==> contributes
    ensures var order := OrderIf(zone, s, !occluded && (s.signing.OptOut() ==> contributes), r.qname);
            RectifiedRow(s, order, auth, signed, r).order ==
              A.OrderWith(zone, t, Record(r.qname, r.qtype), r.qtype == TYPE_RRSIG || r.qtype == TYPE_DS || auth) <==>
            OrderAgrees(s, t, auth, occluded, signed, r)
  {
    hide InZone;
  }

  /** The place of a record in the tree, as both ways see it. */
  lemma PlaceOf(zone: Name, rows: seq<Row>, rrs: seq<Record>, r: Row)
    requires SameRecords(rows, rrs) && AllInZone(zone, rrs) && r in rows && r.qtype != 0 && zone in Contributors(true, rrs)
    ensures var d := A.Delegations(zone, rrs);
            && d == Delegations(zone, rows) && InZone(zone, r.qname) && zone in Contributors(true, Records(rows))
            && (Uncut(zone, rows, r.qname) <==> Authoritative(zone, d, r.qname))
            && (Authoritative(zone, d, r.qname) ==> !Occluded(zone, d, r.qname))
            && (Authoritative(zone, d, r.qname) || r.qname in Signers(rows) || r.qtype != TYPE_NS ==>
                  r.qname in Contributors(true, Records(rows)))
  {
    SameOwners(zone, rows, rrs);
    SameContributors(rows, rrs);
    SameAuthority(zone, rows, rrs, r.qname);
    RowContributes(rows, r);
    RowInZone(zone, rows, rrs, r);
    hide Ancestors, Contributors, InZone, Records, Signers;
    assert r.qtype == TYPE_NS && r.qname != zone ==> r.qname in Delegations(zone, rows);
  }

  lemma SameContributors(rows: seq<Row>, rrs: seq<Record>)
    requires SameRecords(rows, rrs)
    ensures Contributors(true, rrs) == Contributors(true, Records(rows))
  {
  }

  lemma RowContributes(rows: seq<Row>, r: Row)
    requires r in rows && r.qtype != 0
    ensures r.qtype != TYPE_NS || r.qname in Signers(rows) ==> r.qname in Contributors(true, Records(rows))
  {
    RecordsAre(rows, Record(r.qname, r.qtype));
    if x :| x in rows && x.qtype == TYPE_DS && x.qname == r.qname { RecordsAre(rows, Record(x.qname, x.qtype)); }
  }

  lemma RowInZone(zone: Name, rows: seq<Row>, rrs: seq<Record>, r: Row)
    requires SameRecords(rows, rrs) && AllInZone(zone, rrs) && r in rows && r.qtype != 0
    ensures InZone(zone, r.qname)
  {
    hide InZone;
    RecordsAre(rows, Record(r.qname, r.qtype));
  }

  /** Own keys and opt-out: the NS record of a signed delegation gets its order name from rectifying, not from the import. */
  lemma SignedDelegationLeftOut(zone: Name, s: Settings, t: A.Settings, rows: seq<Row>, rrs: seq<Record>, r: Row)
    requires SameSettings(s, t) && SameRecords(rows, rrs) && AllInZone(zone, rrs) && zone in Contributors(true, rrs)
    requires s.signing == Nsec3(true, false) && t.secured == {}
    requires r in rows && r.qtype == TYPE_NS && r.qname != zone && r.qname in Signers(rows)
    requires !Occluded(zone, A.Delegations(zone, rrs), r.qname)
    ensures Final(zone, s, rows, r).order == At(s.hash(r.qname))
    ensures A.ImportedRecord(zone, t, A.Delegations(zone, rrs), Record(r.qname, r.qtype)).order == Unset
  {
    RowOwner(rows, r);
    PlaceOf(zone, rows, rrs, r);
    OwnerOrder(zone, s, rows, r.qname);
    OutcomeRight(zone, s, OrdersOf(zone, s, rows), rows, r);
    assert r.qname in Delegations(zone, rows);
    hide OrdersOf, Outcome, Owners, Signers, Records, Delegations, A.Delegations, Contributors, Ancestors;
    if Stale(zone, s, OrdersOf(zone, s, rows), rows, r) { StaleOnlyBelowApex(zone, s, OrdersOf(zone, s, rows), rows, r); }
  }

  /** The smallest such zone. */
  lemma OneSignedDelegation(d: Label, s: Settings, t: A.Settings, order: Order, auth: bool)
    requires SameSettings(s, t) && s.signing == Nsec3(true, false) && t.secured == {}
    ensures var rows := [Row([], TYPE_SOA, order, auth), Row([d], TYPE_NS, order, auth), Row([d], TYPE_DS, order, auth)];
            Final([], s, rows, rows[1]).order !=
              A.ImportedRecord([], t, A.Delegations([], Records(rows)), Record([d], TYPE_NS)).order
  {
    var rows := [Row([], TYPE_SOA, order, auth), Row([d], TYPE_NS, order, auth), Row([d], TYPE_DS, order, auth)];
    assert rows[0] in rows && rows[1] in rows && rows[2] in rows;
    assert [d] in Signers(rows);
    RecordsAre(rows, Record([], TYPE_SOA));
    SameOwners([], rows, Records(rows));
    assert Delegations([], rows) == {[d]};
    assert Ancestors([], [d]) == {[]} by { assert [d][1..] == []; }
    InRoot(Records(rows));
    hide Records, Signers, Delegations, A.Delegations, Final, A.ImportedRecord;
    SignedDelegationLeftOut([], s, t, rows, Records(rows), rows[1]);
  }

  lemma InRoot(rrs: seq<Record>)
    ensures AllInZone([], rrs)
  {
    forall x | x in rrs ensures InZone([], x.qname) { assert x.qname[|x.qname|..] == []; }
  }

  // ---------------------------------------------------------------- empty non-terminals

  /**
   With no record filtered out both ways keep the same empty non-terminals, except at exactly the limit, where
   rectifying gives up if the last visit is a repeated one.
   */
  lemma EntsAgree(zone: Name, t: A.Settings, rows: seq<Row>, rrs: seq<Record>)
    requires SameRecords(rows, rrs) && forall x :: x in rrs ==> !A.Filtered(t, x)
    ensures var ents, limit := Ents(zone, Owners(rows), Owners(rows)), t.maxEnts;
            && (RectifiedEnts(zone, Owners(rows), limit) == A.ImportedEnts(zone, t, rrs) <==>
                !(|ents| == limit > 0 && !LastVisitNew(zone, Owners(rows))))
            && (|ents| < limit ==>
                  && Completes(zone, Owners(rows), limit)
                  && |Ents(zone, A.Owners(rrs), A.Kept(t, rrs))| <= limit
                  && RectifiedEnts(zone, Owners(rows), limit) == A.ImportedEnts(zone, t, rrs) == ents)
  {
    hide Ents, LastVisitNew, Owners, A.Owners, A.Kept;
    SameOwners(zone, rows, rrs);
    A.UnfilteredKeepsAll(t, rrs);
  }

  /**
   Two owners below one empty non-terminal: an allowance of one is too little for rectifying, although the
   import keeps that one.
   */
  lemma GivesUpAtTheLimit(x: Label, y: Label, e: Label, order: Order, auth: bool, t: A.Settings)
    requires x != y && t.maxEnts == 1
    ensures var rows := [Row([], TYPE_SOA, order, auth), Row([x, e], TYPE_A, order, auth), Row([y, e], TYPE_A, order, auth)];
            && RectifiedEnts([], Owners(rows), 1) == {}
            && A.ImportedEnts([], t, Records(rows)) == {[e]}
  {
    var rows := [Row([], TYPE_SOA, order, auth), Row([x, e], TYPE_A, order, auth), Row([y, e], TYPE_A, order, auth)];
    assert Owners(rows) == {[], [x, e], [y, e]} by { assert rows[0] in rows && rows[1] in rows && rows[2] in rows; }
    forall r | r in Records(rows) ensures !A.Filtered(t, r) { RecordsAre(rows, r); }
    hide Ents, LastVisitNew, Owners, A.Owners, A.Kept, Completes, Records;
    TwoBelowOne(x, y, e);
    SameOwners([], rows, Records(rows));
    A.UnfilteredKeepsAll(t, Records(rows));
    OneTooMany([], Owners(rows), e);
  }

  lemma OneTooMany(zone: Name, owners: set<Name>, e: Label)
    requires Ents(zone, owners, owners) == {[e]} && !LastVisitNew(zone, owners)
    ensures !Completes(zone, owners, 1) && |{[e]}| == 1
  {
    hide Ents, LastVisitNew;
  }

  /** A record below e makes the import take e for authoritative although its owner is not. */
  ghost predicate Lifted(zone: Name, t: A.Settings, rrs: seq<Record>, e: Name) {
    exists r :: r in rrs && e in Ancestors(zone, r.qname)
                && (|| r.qtype == TYPE_DS
                    || (r.qtype == TYPE_NS && (t.signing.OptOut() ==> t.hash(r.qname) in t.secured)))
  }

  lemma IsLifted(zone: Name, t: A.Settings, rrs: seq<Record>, e: Name, r: Record)
    requires r in rrs && e in Ancestors(zone, r.qname) && (r.qtype == TYPE_DS || A.ChainedNs(t, r))
    ensures Lifted(zone, t, rrs, e)
  {
    hide Ancestors;
  }

  lemma Lifter(zone: Name, t: A.Settings, rrs: seq<Record>, e: Name) returns (r: Record)
    requires Lifted(zone, t, rrs, e)
    ensures r in rrs && e in Ancestors(zone, r.qname) && (r.qtype == TYPE_DS || A.ChainedNs(t, r))
  {
    hide Ancestors;
    r :| r in rrs && e in Ancestors(zone, r.qname)
      && (|| r.qtype == TYPE_DS || (r.qtype == TYPE_NS && (t.signing.OptOut() ==> t.hash(r.qname) in t.secured)));
  }

  /** The import's flag: an authoritative owner below, or a DS or NS record that lifts it. */
  lemma ImportedFlag(zone: Name, t: A.Settings, rows: seq<Row>, rrs: seq<Record>, e: Name)
    requires SameRecords(rows, rrs) && AllInZone(zone, rrs) && (forall x :: x in rrs ==> !A.Filtered(t, x))
    requires e !in Owners(rows)
    ensures A.ImportedEnt(zone, t, rrs, e).auth <==> e in AuthEnts(zone, rows) || Lifted(zone, t, rrs, e)
  {
    hide Ancestors, Authoritative, A.Filtered, A.ChainedNs, Uncut;
    var d := A.Delegations(zone, rrs);
    SameOwners(zone, rows, rrs);
    hide Owners, Delegations, A.Delegations, SameRecords, AllInZone, Lifted;
    if A.ImportedEnt(zone, t, rrs, e).auth {
      var r :| r in rrs && A.MarksEnts(zone, t, d, r) && e in Ancestors(zone, r.qname);
      if r.qtype == TYPE_DS || A.ChainedNs(t, r) { IsLifted(zone, t, rrs, e, r); }
      SameAuthority(zone, rows, rrs, r.qname);
      assert r.qname in Owners(rows);
      assert Uncut(zone, rows, r.qname) ==> r.qname in AuthOwners(zone, rows);
    }
    if e in AuthEnts(zone, rows) {
      var q :| q in AuthOwners(zone, rows) && e in Ancestors(zone, q);
      SameAuthority(zone, rows, rrs, q);
      var r :| r in rrs && r.qname == q;
      assert A.MarksEnts(zone, t, d, r);
      assert q in A.Marking(zone, t, d, rrs);
    }
    if Lifted(zone, t, rrs, e) {
      var r := Lifter(zone, t, rrs, e);
      assert A.MarksEnts(zone, t, d, r);
      assert r.qname in A.Marking(zone, t, d, rrs);
    }
  }

  /** Without opt-out, an empty non-terminal that is not occluded is above an authoritative owner or a delegation. */
  lemma UncoveredIsLifted(zone: Name, t: A.Settings, rows: seq<Row>, rrs: seq<Record>, e: Name)
    requires SameRecords(rows, rrs) && AllInZone(zone, rrs) && !t.signing.OptOut()
    requires e in Ents(zone, Owners(rows), Owners(rows)) && !Occluded(zone, Delegations(zone, rows), e)
    ensures e in AuthEnts(zone, rows) || Lifted(zone, t, rrs, e)
  {
    hide Ancestors, Authoritative, Uncut, Occluded, Owners;
    RecordOwners(zone, rows);
    SameOwners(zone, rows, rrs);
    EntsNotOwners(zone, Owners(rows));
    var q := EntUncovered(zone, Delegations(zone, rows), Owners(rows), e);
    SameAuthority(zone, rows, rrs, q);
    if q in Delegations(zone, rows) {
      var r :| r in rrs && r.qtype == TYPE_NS && r.qname == q;
      assert A.ChainedNs(t, r);
    } else {
      assert q in AuthOwners(zone, rows);
    }
  }

  /** The zone is signed with a chain without opt-out. */
  predicate Plain(g: Signing) {
    g.Nsec3? && !g.optedOut
  }

  /** What rectifying takes for authoritative. */
  ghost predicate EntHolds(zone: Name, s: Settings, rows: seq<Row>, e: Name) {
    if Plain(s.signing) then !Occluded(zone, Delegations(zone, rows), e) else e in AuthEnts(zone, rows)
  }

  /**
   Both ways flag an empty non-terminal alike unless a delegation or DS record below lifts it in the import: then
   it has to be above an authoritative owner or, in a chain without opt-out, just not below a delegation.
   */
  lemma EntFlagsAgree(zone: Name, s: Settings, t: A.Settings, rows: seq<Row>, rrs: seq<Record>, e: Name)
    requires SameSettings(s, t) && SameRecords(rows, rrs) && AllInZone(zone, rrs)
    requires forall x :: x in rrs ==> !A.Filtered(t, x)
    requires e in Ents(zone, Owners(rows), Owners(rows))
    ensures EntRow(zone, s, rows, e).auth <==> EntHolds(zone, s, rows, e)
    ensures EntRow(zone, s, rows, e).auth == A.ImportedEnt(zone, t, rrs, e).auth <==>
              EntHolds(zone, s, rows, e) || !Lifted(zone, t, rrs, e)
  {
    hide Occluded, Owners, Delegations, AuthEnts, Lifted, A.ImportedEnt, SameRecords, AllInZone, Chained, Ents, A.Filtered;
    EntsNotOwners(zone, Owners(rows));
    ImportedFlag(zone, t, rows, rrs, e);
    if Plain(s.signing) {
      PlainEnt(zone, s, rows, e);
      if e in AuthEnts(zone, rows) { AuthEntUncovered(zone, rows, e); }
      if !Occluded(zone, Delegations(zone, rows), e) { UncoveredIsLifted(zone, t, rows, rrs, e); }
    }
  }

  /** An owner below e that is on the chain although delegations may opt out. */
  ghost predicate ChainBelow(zone: Name, rows: seq<Row>, e: Name) {
    exists q :: q in Contributors(true, Records(rows)) && e in Ancestors(zone, q)
                && !Occluded(zone, Delegations(zone, rows), q)
  }

  /** Where both ways give an empty non-terminal the same order name. */
  lemma EntOrdersAgree(zone: Name, s: Settings, t: A.Settings, rows: seq<Row>, rrs: seq<Record>, e: Name)
    requires SameSettings(s, t) && SameRecords(rows, rrs) && AllInZone(zone, rrs)
    requires forall x :: x in rrs ==> !A.Filtered(t, x)
    requires e in Ents(zone, Owners(rows), Owners(rows))
    ensures EntRow(zone, s, rows, e).order == A.ImportedEnt(zone, t, rrs, e).order <==>
              || !s.signing.Nsec3? || s.signing.narrow
              || if s.signing.optedOut then (ChainBelow(zone, rows, e) <==> e in AuthEnts(zone, rows) || Lifted(zone, t, rrs, e))
                 else !Occluded(zone, Delegations(zone, rows), e) || !Lifted(zone, t, rrs, e)
  {
    hide Occluded, Owners, Delegations, AuthEnts, Lifted, SameRecords, AllInZone, Ents, A.Filtered, A.Marking, A.Owners,
         A.Delegations, Contributors, ChainBelow, Records, Chain;
    EntsNotOwners(zone, Owners(rows));
    ImportedFlag(zone, t, rows, rrs, e);
    EntFlagsAgree(zone, s, t, rows, rrs, e);
    if Plain(s.signing) { PlainEnt(zone, s, rows, e); }
    NotContributing(rows, e);
    OptOutEnts(zone, Delegations(zone, rows), Contributors(true, Records(rows)), e);
    ChainBelowIs(zone, rows, e);
  }

  lemma NotContributing(rows: seq<Row>, e: Name)
    requires e !in Owners(rows)
    ensures e !in Contributors(true, Records(rows))
  {
    if x :| x in Records(rows) && x.qname == e { RecordsAre(rows, x); }
  }

  lemma ChainBelowIs(zone: Name, rows: seq<Row>, e: Name)
    ensures ChainBelow(zone, rows, e) <==>
              exists q :: q in Contributors(true, Records(rows)) && e in Ancestors(zone, q)
                          && !Occluded(zone, Delegations(zone, rows), q)
  {
  }

  /** Above a lone delegation of an unsigned or NSEC zone only the import takes the name for authoritative. */
  lemma LoneDelegation(d: Label, e: Label, s: Settings, t: A.Settings, order: Order, auth: bool)
    requires SameSettings(s, t) && !s.signing.Nsec3?
    ensures var rows := [Row([], TYPE_SOA, order, auth), Row([d, e], TYPE_NS, order, auth)];
            && [e] in Ents([], Owners(rows), Owners(rows))
            && !EntRow([], s, rows, [e]).auth && A.ImportedEnt([], t, Records(rows), [e]).auth
  {
    var rows := [Row([], TYPE_SOA, order, auth), Row([d, e], TYPE_NS, order, auth)];
    var rrs := Records(rows);
    assert rows[0] in rows && rows[1] in rows;
    assert Owners(rows) == {[], [d, e]} && Delegations([], rows) == {[d, e]};
    AboveOne(Owners(rows), d, e);
    RecordsAre(rows, Record([d, e], TYPE_NS));
    forall r | r in rrs ensures !A.Filtered(t, r) { RecordsAre(rows, r); }
    InRoot(rrs);
    assert !Uncut([], rows, [d, e]);
    assert Ancestors([], []) == {};
    hide Records, Owners;
    ImportedFlag([], t, rows, rrs, [e]);
    OtherEnt([], s, rows, [e]);
    assert A.ChainedNs(t, Record([d, e], TYPE_NS));
  }
}
