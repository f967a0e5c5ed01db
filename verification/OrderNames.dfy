/**
 Order names: what a signed zone sorts its names by.  With NSEC this is the name relative to the zone, with NSEC3
 the hash of the name, and only for the names that the NSEC3 chain covers.
 */
module OrderNames {
  import opened Wire
  import opened DnsName
  import opened ZoneTree

  /** A stored order name is unset or a name. */
  datatype Order = Unset | At(name: Name)

  /** How a zone is signed; a narrow zone makes up its NSEC3 records on the fly. */
  datatype Signing = Unsigned | Nsec | Nsec3(optedOut: bool, narrow: bool) {
    predicate Unordered() {
      Unsigned? || (Nsec3? && narrow)
    }

    predicate OptOut() {
      Nsec3? && optedOut
    }
  }

  /** makeRelative: unset for a name outside the zone. */
  function RelativeOrder(zone: Name, n: Name): Order {
    if InZone(zone, n) then At(n[..|n| - |zone|]) else Unset
  }

  /** The order name of p.<zone> is p; a name outside the zone has none. */
  lemma RelativeOrderIs(zone: Name, n: Name, p: Name)
    ensures n == p + zone ==> RelativeOrder(zone, n) == At(p)
    ensures RelativeOrder(zone, n) == At(p) ==> n == p + zone
    ensures RelativeOrder(zone, n) == Unset <==> !InZone(zone, n)
  {
    if n == p + zone { assert n[|n| - |zone|..] == zone && n[..|n| - |zone|] == p; }
    if InZone(zone, n) { assert n == n[..|n| - |zone|] + n[|n| - |zone|..]; }
  }

  /** It is what makeRelative leaves of a case-folded name. */
  lemma RelativeOrderCuts(zone: Name, n: Name)
    requires LowerName(n) == n && LowerName(zone) == zone
    ensures RelativeOrder(zone, n) == if PartOf(n, zone) then At(Relative(n, zone)) else Unset
  {
    if |zone| <= |n| { LowerSlice(n, |n| - |zone|, |n|); }
  }

  /** The names whose records put them, and everything above them, on the NSEC3 chain. */
  function Contributors(optOut: bool, rrs: seq<Record>): set<Name> {
    set r | r in rrs && (r.qtype != TYPE_NS || !optOut) :: r.qname
  }

  /** The names on the chain: those that contribute and are not occluded, and everything above them. */
  function Chain(zone: Name, delegations: set<Name>, from: set<Name>): set<Name> {
    set q, n | q in from && !Occluded(zone, delegations, q) && n in Path(zone, q) :: n
  }

  // ---------------------------------------------------------------- collecting the chain

  /** Looks for a delegation above q and below the apex. */
  method BelowCut(zone: Name, nsset: set<Name>, q: Name) returns (skip: bool)
    requires zone !in nsset
    ensures skip <==> Occluded(zone, nsset, q)
  {
    skip := false;
    if q != zone && q != [] {
      var shorter := q[1..];
      while shorter != zone
        invariant !skip && (Occluded(zone, nsset, q) <==> shorter in nsset || Occluded(zone, nsset, shorter))
        decreases |shorter|
      {
        if shorter in nsset {
          skip := true;
          break;
        }
        if shorter == [] { break; }
        shorter := shorter[1..];
      }
    }
  }

  method AddPath(zone: Name, q: Name, was: set<Name>) returns (names: set<Name>)
    ensures names == was + Path(zone, q)
  {
    names := was + {q};
    var shorter := q;
    while shorter != zone && shorter != []
      invariant names + Ancestors(zone, shorter) == was + Path(zone, q)
      decreases |shorter|
    {
      shorter := shorter[1..];
      names := names + {shorter};
    }
  }

  method CollectChain(zone: Name, optOut: bool, rrs: seq<Record>, nsset: set<Name>) returns (nsec3set: set<Name>)
    requires zone !in nsset
    ensures nsec3set == Chain(zone, nsset, Contributors(optOut, rrs))
  {
    hide Occluded, Path, Contributors, Chain;
    nsec3set := {};
    NoChain(zone, optOut, nsset);
    assert rrs[..0] == [];
    for i := 0 to |rrs|
      invariant nsec3set == Chain(zone, nsset, Contributors(optOut, rrs[..i]))
    {
      ChainGrows(zone, optOut, rrs, i, nsset);
      var skip := BelowCut(zone, nsset, rrs[i].qname);
      if !skip && (rrs[i].qtype != TYPE_NS || !optOut) {
        nsec3set := AddPath(zone, rrs[i].qname, nsec3set);
      }
    }
    assert rrs[..|rrs|] == rrs;
  }

  lemma NoChain(zone: Name, optOut: bool, nsset: set<Name>)
    ensures Chain(zone, nsset, Contributors(optOut, [])) == {}
  {
  }

  lemma ChainGrows(zone: Name, optOut: bool, rrs: seq<Record>, i: nat, nsset: set<Name>)
    requires i < |rrs|
    ensures Chain(zone, nsset, Contributors(optOut, rrs[..i + 1])) ==
              Chain(zone, nsset, Contributors(optOut, rrs[..i])) +
              if !Occluded(zone, nsset, rrs[i].qname) && (rrs[i].qtype != TYPE_NS || !optOut)
              then Path(zone, rrs[i].qname) else {}
  {
    hide Occluded, Path;
    var r, was := rrs[i], Contributors(optOut, rrs[..i]);
    assert forall x :: x in rrs[..i + 1] <==> x in rrs[..i] || x == r;
    if r.qtype != TYPE_NS || !optOut {
      assert Contributors(optOut, rrs[..i + 1]) == was + {r.qname};
    } else {
      assert Contributors(optOut, rrs[..i + 1]) == was;
    }
  }

  // ---------------------------------------------------------------- which names are on the chain

  /** Everything above a name on the chain is on it, and nothing occluded is. */
  lemma ChainClosed(zone: Name, delegations: set<Name>, from: set<Name>, n: Name)
    requires n in Chain(zone, delegations, from)
    ensures Ancestors(zone, n) <= Chain(zone, delegations, from) && !Occluded(zone, delegations, n)
  {
    hide Ancestors;
    var q :| q in from && !Occluded(zone, delegations, q) && n in Path(zone, q);
    if n != q { AncestorsNested(zone, q, n); }
    forall e | e in Ancestors(zone, n) ensures e in Chain(zone, delegations, from) {
      assert e in Path(zone, q);
    }
  }

  /**
   Without opt-out the chain has exactly the owner names and empty non-terminals of the zone that are not below a
   delegation.
   */
  lemma PlainChain(zone: Name, delegations: set<Name>, owners: set<Name>, n: Name)
    requires delegations <= owners
    ensures n in Chain(zone, delegations, owners) <==>
              (n in owners || n in Ents(zone, owners, owners)) && !Occluded(zone, delegations, n)
  {
    hide Ancestors, Occluded;
    if n in Chain(zone, delegations, owners) {
      ChainClosed(zone, delegations, owners, n);
      var q :| q in owners && !Occluded(zone, delegations, q) && n in Path(zone, q);
    }
    if n in Ents(zone, owners, owners) && !Occluded(zone, delegations, n) {
      var q := EntUncovered(zone, delegations, owners, n);
      assert n in Path(zone, q);
    }
    assert n in Path(zone, n);
  }

  /** Below an empty non-terminal that is not occluded there is an owner that is not occluded. */
  lemma EntUncovered(zone: Name, delegations: set<Name>, owners: set<Name>, e: Name) returns (q: Name)
    requires delegations <= owners && e in Ents(zone, owners, owners) && !Occluded(zone, delegations, e)
    ensures q in owners && e in Ancestors(zone, q) && !Occluded(zone, delegations, q)
    ensures q in delegations || Authoritative(zone, delegations, q)
  {
    hide Ancestors;
    q :| q in owners && e in Ancestors(zone, q);
    if Occluded(zone, delegations, q) {
      var d := TopCut(zone, delegations, q);
      AncestorsLinear(zone, q, d, e);
      assert d !in Ancestors(zone, e);
      q := d;
    }
  }

  /** With opt-out an owner is on the chain iff it has a record other than NS and is not below a delegation. */
  lemma OptOutChain(zone: Name, delegations: set<Name>, others: set<Name>, q: Name)
    requires q in others || q in delegations
    ensures q in Chain(zone, delegations, others) <==> q in others && !Occluded(zone, delegations, q)
  {
    hide Ancestors;
    if q in Chain(zone, delegations, others) {
      ChainClosed(zone, delegations, others, q);
      var x :| x in others && !Occluded(zone, delegations, x) && q in Path(zone, x);
      assert q != x ==> q in Ancestors(zone, x);
    }
    assert q in Path(zone, q);
  }

  /** With opt-out an empty non-terminal is on the chain iff such an owner is below it. */
  lemma OptOutEnts(zone: Name, delegations: set<Name>, others: set<Name>, e: Name)
    requires e !in others
    ensures e in Chain(zone, delegations, others) <==>
              exists q :: q in others && e in Ancestors(zone, q) && !Occluded(zone, delegations, q)
  {
    hide Ancestors, Occluded;
    if q :| q in others && e in Ancestors(zone, q) && !Occluded(zone, delegations, q) { assert e in Path(zone, q); }
  }
}
