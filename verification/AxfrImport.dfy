/**
 Importing a full transfer: owner names and delegations are collected first, then every record gets its
 authority flag and order name and contributes the empty non-terminals above it.

 The NSEC3 hash of a name is a parameter, and so is `secured`, the hashes the transferred NSEC3 records show as
 delegations.
 */
module AxfrImport {
  import opened Results
  import opened Wire
  import opened ZoneTree
  import opened OrderNames
  import opened EmptyNonTerminals

  datatype Settings = Settings(presigned: bool, signing: Signing, directDnskey: bool, hash: Name -> Name,
                               secured: set<Name>, maxEnts: nat)

  /** What the backend is fed for a record or an empty non-terminal. */
  datatype Fed = Fed(order: Order, auth: bool)

  predicate Imported(zone: Name, r: Record) {
    InZone(zone, r.qname) && r.qtype !in {TYPE_NSEC, TYPE_NSEC3, TYPE_NSEC3PARAM}
  }

  function Owners(rs: seq<Record>): set<Name> {
    set r | r in rs :: r.qname
  }

  function Delegations(zone: Name, rs: seq<Record>): set<Name> {
    set r | r in rs && r.qtype == TYPE_NS && r.qname != zone :: r.qname
  }

  /** The records skipped when the secondary signs the zone itself. */
  predicate Filtered(s: Settings, r: Record) {
    !s.presigned && (r.qtype == TYPE_RRSIG || (!s.signing.Unsigned? && r.qtype == TYPE_DNSKEY && !s.directDnskey))
  }

  function Kept(s: Settings, rs: seq<Record>): set<Name> {
    set r | r in rs && !Filtered(s, r) :: r.qname
  }

  function Selected(zone: Name, all: seq<Record>): seq<Record> {
    if all == [] then []
    else
      var n := |all| - 1;
      if Imported(zone, all[n]) then Selected(zone, all[..n]) + [all[n]] else Selected(zone, all[..n])
  }

  /** Takes the records of the zone out of the transfer. */
  method Collect(zone: Name, all: seq<Record>) returns (rrs: seq<Record>, qnames: set<Name>, nsset: set<Name>)
    ensures rrs == Selected(zone, all)
    ensures forall r :: r in rrs <==>
              r in all && InZone(zone, r.qname) && r.qtype != TYPE_NSEC && r.qtype != TYPE_NSEC3 && r.qtype != TYPE_NSEC3PARAM
    ensures qnames == Owners(rrs) && nsset == Delegations(zone, rrs)
  {
    hide InZone;
    rrs, qnames, nsset := [], {}, {};
    var i := 0;
    while i < |all|
      invariant 0 <= i <= |all| && rrs == Selected(zone, all[..i])
      invariant forall r :: r in rrs <==> r in all[..i] && Imported(zone, r)
      invariant qnames == Owners(rrs) && nsset == Delegations(zone, rrs)
    {
      var rr := all[i];
      assert all[..i + 1][..i] == all[..i];
      if Imported(zone, rr) {
        if rr.qtype == TYPE_NS && rr.qname != zone { nsset := nsset + {rr.qname}; }
        qnames := qnames + {rr.qname};
        GrownOwners(zone, rrs, rr);
        rrs := rrs + [rr];
      }
      i := i + 1;
    }
    assert all[..i] == all;
  }

  lemma GrownOwners(zone: Name, rs: seq<Record>, r: Record)
    ensures Owners(rs + [r]) == Owners(rs) + {r.qname}
    ensures Delegations(zone, rs + [r]) ==
              if r.qtype == TYPE_NS && r.qname != zone then Delegations(zone, rs) + {r.qname} else Delegations(zone, rs)
  {
    assert forall x :: x in rs + [r] <==> x in rs || x == r;
  }

  /** From the owner up to the apex: names without records, and whether a delegation is on the way. */
  method Climb(zone: Name, qnames: set<Name>, nsset: set<Name>, rr: Record, doent: bool)
    returns (rrterm: set<Name>, auth: bool)
    ensures rrterm == if doent then Path(zone, rr.qname) - qnames else {}
    ensures auth <==> ShouldBeAuth(zone, nsset, rr.qname, rr.qtype)
  {
    rrterm, auth := {}, true;
    var shorter := rr.qname;
    while true
      invariant doent ==> rrterm + (Path(zone, shorter) - qnames) == Path(zone, rr.qname) - qnames
      invariant !doent ==> rrterm == {}
      invariant ShouldBeAuth(zone, nsset, rr.qname, rr.qtype) <==> auth && ShouldBeAuth(zone, nsset, shorter, rr.qtype)
      decreases |shorter|
    {
      if doent && shorter !in qnames { rrterm := rrterm + {shorter}; }
      if shorter in nsset && rr.qtype != TYPE_DS { auth := false; }
      if shorter == zone || shorter == [] { break; }
      shorter := shorter[1..];
    }
  }

  /** The flag a record is imported with. */
  predicate ImportedAuth(zone: Name, nsset: set<Name>, r: Record) {
    r.qtype == TYPE_RRSIG || ShouldBeAuth(zone, nsset, r.qname, r.qtype)
  }

  /** An NS record that belongs on the chain although the name it delegates is not authoritative. */
  predicate ChainedNs(s: Settings, r: Record) {
    r.qtype == TYPE_NS && (!s.signing.OptOut() || s.hash(r.qname) in s.secured)
  }

  /** The order name a record is imported with, given its flag. */
  function OrderWith(zone: Name, s: Settings, r: Record, auth: bool): Order {
    if r.qtype == TYPE_RRSIG then Unset
    else
      match s.signing
      case Unsigned => Unset
      case Nsec => if auth || r.qtype == TYPE_NS then RelativeOrder(zone, r.qname) else Unset
      case Nsec3(_, narrow) => if !narrow && (auth || ChainedNs(s, r)) then At(s.hash(r.qname)) else Unset
  }

  function ImportedRecord(zone: Name, s: Settings, nsset: set<Name>, r: Record): Fed {
    var auth := ImportedAuth(zone, nsset, r);
    Fed(OrderWith(zone, s, r, auth), auth)
  }

  /** The record makes the empty non-terminals above it authoritative. */
  predicate MarksEnts(zone: Name, s: Settings, nsset: set<Name>, r: Record) {
    !Filtered(s, r) && (ShouldBeAuth(zone, nsset, r.qname, r.qtype) || ChainedNs(s, r))
  }

  function Marking(zone: Name, s: Settings, nsset: set<Name>, rs: seq<Record>): set<Name> {
    set r | r in rs && MarksEnts(zone, s, nsset, r) :: r.qname
  }

  /** feedEnts and feedEnts3: only authoritative names of a chain that is stored have an order name. */
  function FedEnt(s: Settings, e: Name, auth: bool): Fed {
    Fed(if s.signing.Nsec3? && !s.signing.narrow && auth then At(s.hash(e)) else Unset, auth)
  }

  /** The empty non-terminals of a zone after importing it. */
  function ImportedEnts(zone: Name, s: Settings, rrs: seq<Record>): set<Name> {
    var ents := Ents(zone, Owners(rrs), Kept(s, rrs));
    if |ents| <= s.maxEnts then ents else {}
  }

  /** What an empty non-terminal is imported with. */
  function ImportedEnt(zone: Name, s: Settings, rrs: seq<Record>, e: Name): Fed {
    FedEnt(s, e, e in Ents(zone, Owners(rrs), Marking(zone, s, Delegations(zone, rrs), rrs)))
  }

  /** Adds what one record has above it. */
  method AddEnts(was: map<Name, bool>, rrterm: set<Name>, auth: bool) returns (nonterm: map<Name, bool>)
    ensures nonterm.Keys == was.Keys + rrterm
    ensures Marked(nonterm) == Marked(was) + if auth then rrterm else {}
  {
    hide Marked, Flagged;
    nonterm := was;
    var todo := rrterm;
    while todo != {}
      invariant todo <= rrterm && nonterm.Keys == was.Keys + (rrterm - todo)
      invariant Marked(nonterm) == Marked(was) + if auth then rrterm - todo else {}
      decreases todo
    {
      var nt :| nt in todo;
      FlaggedMarks(nonterm, nt, auth);
      nonterm := Flagged(nonterm, nt, auth);
      todo := todo - {nt};
    }
  }

  /** What the records so far put into the set of empty non-terminals. */
  ghost predicate EntsSoFar(zone: Name, s: Settings, qnames: set<Name>, nsset: set<Name>, rs: seq<Record>,
                            nonterm: map<Name, bool>, doent: bool) {
    && (doent <==> |Ents(zone, qnames, Kept(s, rs))| <= s.maxEnts)
    && (doent ==> && nonterm.Keys == Ents(zone, qnames, Kept(s, rs))
                  && Marked(nonterm) == Ents(zone, qnames, Marking(zone, s, nsset, rs)))
    && (!doent ==> nonterm == map[])
  }

  /** What is fed for the records that are not skipped, and for the empty non-terminals if there are not too many. */
  method Import(zone: Name, s: Settings, rrs: seq<Record>, qnames: set<Name>, nsset: set<Name>)
    returns (fed: seq<Option<Fed>>, ents: map<Name, Fed>, doent: bool)
    requires qnames == Owners(rrs) && nsset == Delegations(zone, rrs)
    ensures |fed| == |rrs|
    ensures forall i :: 0 <= i < |rrs| ==>
              fed[i] == if && !s.presigned
                           && (|| rrs[i].qtype == TYPE_RRSIG
                               || (!s.signing.Unsigned? && rrs[i].qtype == TYPE_DNSKEY && !s.directDnskey))
                        then None else Some(ImportedRecord(zone, s, nsset, rrs[i]))
    ensures doent <==> |Ents(zone, qnames, Kept(s, rrs))| <= s.maxEnts
    ensures ents.Keys == ImportedEnts(zone, s, rrs)
    ensures forall e :: e in ents ==> ents[e] == ImportedEnt(zone, s, rrs, e)
  {
    hide Ancestors, InZone, Authoritative, Ents, Marked, RelativeOrder, EntsSoFar, Delegations;
    fed, doent := [], true;
    var nonterm: map<Name, bool> := map[];
    NothingYet(zone, s, qnames, nsset);
    assert rrs[..0] == [];
    for i := 0 to |rrs|
      invariant |fed| == i
      invariant forall j :: 0 <= j < i ==>
                  fed[j] == if Filtered(s, rrs[j]) then None else Some(ImportedRecord(zone, s, nsset, rrs[j]))
      invariant EntsSoFar(zone, s, qnames, nsset, rrs[..i], nonterm, doent)
    {
      var rr := rrs[i];
      assert rr in rrs;
      assert rrs[..i + 1] == rrs[..i] + [rr];
      if Filtered(s, rr) {
        fed := fed + [None];
        SkippedRecord(zone, s, qnames, nsset, rrs[..i], rr, nonterm, doent);
      } else {
        var rrterm, auth := Climb(zone, qnames, nsset, rr, doent);
        if doent {
          var more := AddEnts(nonterm, rrterm, auth || ChainedNs(s, rr));
          OneMoreRecord(zone, s, qnames, nsset, rrs[..i], rr, nonterm, more);
          if |more| > s.maxEnts {
            nonterm, doent := map[], false;
          } else {
            nonterm := more;
          }
        } else {
          TooManyAlready(zone, s, qnames, nsset, rrs[..i], rr, nonterm);
        }
        if rr.qtype == TYPE_RRSIG { auth := true; }
        fed := fed + [Some(Fed(OrderWith(zone, s, rr, auth), auth))];
      }
    }
    assert rrs[..|rrs|] == rrs;
    ents := map e | e in nonterm :: FedEnt(s, e, nonterm[e]);
    EntsConcluded(zone, s, rrs, nonterm, doent);
  }

  lemma NothingYet(zone: Name, s: Settings, qnames: set<Name>, nsset: set<Name>)
    ensures EntsSoFar(zone, s, qnames, nsset, [], map[], true)
  {
    hide Ancestors;
    assert Kept(s, []) == {} && Marking(zone, s, nsset, []) == {};
    assert Ents(zone, qnames, {}) == {};
  }

  lemma KeptGrows(zone: Name, s: Settings, nsset: set<Name>, rs: seq<Record>, r: Record)
    ensures Kept(s, rs + [r]) == Kept(s, rs) + if Filtered(s, r) then {} else {r.qname}
    ensures Marking(zone, s, nsset, rs + [r]) ==
              Marking(zone, s, nsset, rs) + if MarksEnts(zone, s, nsset, r) then {r.qname} else {}
  {
    hide Filtered, MarksEnts;
    assert forall x :: x in rs + [r] <==> x in rs || x == r;
  }

  lemma SkippedRecord(zone: Name, s: Settings, qnames: set<Name>, nsset: set<Name>, rs: seq<Record>, r: Record,
                      nonterm: map<Name, bool>, doent: bool)
    requires Filtered(s, r) && EntsSoFar(zone, s, qnames, nsset, rs, nonterm, doent)
    ensures EntsSoFar(zone, s, qnames, nsset, rs + [r], nonterm, doent)
  {
    KeptGrows(zone, s, nsset, rs, r);
    hide Filtered, Ents, Kept, Marking;
    assert Kept(s, rs) + {} == Kept(s, rs);
    assert !MarksEnts(zone, s, nsset, r);
    assert Marking(zone, s, nsset, rs) + {} == Marking(zone, s, nsset, rs);
  }

  lemma OneMoreRecord(zone: Name, s: Settings, qnames: set<Name>, nsset: set<Name>, rs: seq<Record>, r: Record,
                      nonterm: map<Name, bool>, more: map<Name, bool>)
    requires !Filtered(s, r) && r.qname in qnames && EntsSoFar(zone, s, qnames, nsset, rs, nonterm, true)
    requires more.Keys == nonterm.Keys + (Path(zone, r.qname) - qnames)
    requires Marked(more) == Marked(nonterm) + if MarksEnts(zone, s, nsset, r) then Path(zone, r.qname) - qnames else {}
    ensures |more| <= s.maxEnts ==> EntsSoFar(zone, s, qnames, nsset, rs + [r], more, true)
    ensures |more| > s.maxEnts ==> EntsSoFar(zone, s, qnames, nsset, rs + [r], map[], false)
  {
    hide Filtered, Ents, Kept, Marking, Marked, MarksEnts, Path;
    EntsOfOneMore(zone, s, qnames, nsset, rs, r);
    assert |more| == |more.Keys|;
  }

  lemma EntsOfOneMore(zone: Name, s: Settings, qnames: set<Name>, nsset: set<Name>, rs: seq<Record>, r: Record)
    requires !Filtered(s, r) && r.qname in qnames
    ensures Ents(zone, qnames, Kept(s, rs + [r])) == Ents(zone, qnames, Kept(s, rs)) + (Path(zone, r.qname) - qnames)
    ensures Ents(zone, qnames, Marking(zone, s, nsset, rs + [r])) ==
              Ents(zone, qnames, Marking(zone, s, nsset, rs)) +
              if MarksEnts(zone, s, nsset, r) then Path(zone, r.qname) - qnames else {}
  {
    KeptGrows(zone, s, nsset, rs, r);
    EntsGrow(zone, qnames, Kept(s, rs), r.qname);
    EntsGrow(zone, qnames, Marking(zone, s, nsset, rs), r.qname);
    hide Filtered, Ents, Kept, Marking, MarksEnts, Ancestors;
    assert Path(zone, r.qname) - qnames == Ancestors(zone, r.qname) - qnames;
    assert Marking(zone, s, nsset, rs) + {} == Marking(zone, s, nsset, rs);
  }

  lemma TooManyAlready(zone: Name, s: Settings, qnames: set<Name>, nsset: set<Name>, rs: seq<Record>, r: Record,
                       nonterm: map<Name, bool>)
    requires !Filtered(s, r) && EntsSoFar(zone, s, qnames, nsset, rs, nonterm, false)
    ensures EntsSoFar(zone, s, qnames, nsset, rs + [r], nonterm, false)
  {
    KeptGrows(zone, s, nsset, rs, r);
    hide Filtered, Ents, Kept, Marking, Marked;
    EntsMonotone(zone, qnames, Kept(s, rs), Kept(s, rs + [r]));
  }

  lemma EntsConcluded(zone: Name, s: Settings, rrs: seq<Record>, nonterm: map<Name, bool>, doent: bool)
    requires EntsSoFar(zone, s, Owners(rrs), Delegations(zone, rrs), rrs, nonterm, doent)
    ensures doent <==> |Ents(zone, Owners(rrs), Kept(s, rrs))| <= s.maxEnts
    ensures nonterm.Keys == ImportedEnts(zone, s, rrs)
    ensures forall e :: e in nonterm ==> FedEnt(s, e, nonterm[e]) == ImportedEnt(zone, s, rrs, e)
  {
    hide Ents, Kept, Marking, Owners, Delegations;
    forall e | e in nonterm ensures FedEnt(s, e, nonterm[e]) == ImportedEnt(zone, s, rrs, e) {
      assert e in Marked(nonterm) <==> nonterm[e];
    }
  }

  /** In an NSEC zone an authoritative or NS record at p.<zone> is fed with the order name p. */
  lemma NsecFed(zone: Name, s: Settings, nsset: set<Name>, r: Record, p: Name)
    requires s.signing == Nsec && r.qname == p + zone
    ensures ImportedRecord(zone, s, nsset, r).order ==
            if r.qtype == TYPE_RRSIG || !(r.qtype == TYPE_NS || r.qtype == TYPE_DS || Authoritative(zone, nsset, r.qname))
            then Unset else At(p)
  {
    hide Authoritative, RelativeOrder;
    RelativeOrderIs(zone, r.qname, p);
  }

  /** In an NSEC3 zone that is not narrow it is fed with its hash; delegations may opt out. */
  lemma Nsec3Fed(zone: Name, s: Settings, nsset: set<Name>, r: Record)
    requires s.signing.Nsec3?
    ensures ImportedRecord(zone, s, nsset, r).order ==
            if && !s.signing.narrow && r.qtype != TYPE_RRSIG
               && (|| r.qtype == TYPE_DS || Authoritative(zone, nsset, r.qname)
                   || (r.qtype == TYPE_NS && (s.signing.optedOut ==> s.hash(r.qname) in s.secured)))
            then At(s.hash(r.qname)) else Unset
  {
    hide Authoritative;
  }

  /** Otherwise without one, and so is every empty non-terminal that is not authoritative in a stored NSEC3 chain. */
  lemma FedWithout(zone: Name, s: Settings, nsset: set<Name>, r: Record, rrs: seq<Record>, e: Name)
    ensures s.signing == Unsigned ==> ImportedRecord(zone, s, nsset, r).order == Unset
    ensures ImportedEnt(zone, s, rrs, e).order ==
            if s.signing.Nsec3? && !s.signing.narrow && ImportedEnt(zone, s, rrs, e).auth then At(s.hash(e)) else Unset
  {
    hide Authoritative;
  }

  /** With no record filtered out, every ancestor without records becomes an empty non-terminal. */
  lemma UnfilteredKeepsAll(s: Settings, rrs: seq<Record>)
    requires forall r :: r in rrs ==> !Filtered(s, r)
    ensures Kept(s, rrs) == Owners(rrs)
  {
  }
}
