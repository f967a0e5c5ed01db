/**
 The tree of names of one zone: delegations cut off authority, and names that own nothing but have
 something below them are empty non-terminals.

 Names are case-folded, so equality is the equality of names.
 */
module ZoneTree {
  import opened Wire

  const TYPE_A: nat := 1
  const TYPE_NS: nat := 2
  const TYPE_SOA: nat := 6
  const TYPE_AAAA: nat := 28
  const TYPE_DS: nat := 43
  const TYPE_RRSIG: nat := 46
  const TYPE_NSEC: nat := 47
  const TYPE_DNSKEY: nat := 48
  const TYPE_NSEC3: nat := 50
  const TYPE_NSEC3PARAM: nat := 51

  datatype Record = Record(qname: Name, qtype: nat)

  predicate InZone(zone: Name, n: Name) {
    |zone| <= |n| && n[|n| - |zone|..] == zone
  }

  /** The names met walking up from n: to the apex, and for a name outside the zone to the root. */
  function Ancestors(zone: Name, n: Name): set<Name> {
    if n == zone || n == [] then {} else {n[1..]} + Ancestors(zone, n[1..])
  }

  function Steps(zone: Name, n: Name): nat {
    if InZone(zone, n) then |n| - |zone| else |n|
  }

  lemma StepsDown(zone: Name, n: Name)
    requires n != zone && n != []
    ensures InZone(zone, n[1..]) <==> InZone(zone, n)
    ensures Steps(zone, n) == Steps(zone, n[1..]) + 1
  {
    if |n| == |zone| { assert n[|n| - |zone|..] == n; }
    if |n| > |zone| { assert n[1..][|n[1..]| - |zone|..] == n[|n| - |zone|..]; }
  }

  /** What the recursion means: the names left after dropping one label or more. */
  lemma {:induction false} AncestorsAre(zone: Name, n: Name, e: Name)
    ensures e in Ancestors(zone, n) <==> exists k :: 1 <= k <= Steps(zone, n) && n[k..] == e
  {
    if n != zone && n != [] {
      StepsDown(zone, n);
      AncestorsAre(zone, n[1..], e);
      if k :| 1 <= k <= Steps(zone, n[1..]) && n[1..][k..] == e { assert n[k + 1..] == e; }
      if k :| 1 <= k <= Steps(zone, n) && n[k..] == e {
        if k > 1 { assert n[1..][k - 1..] == e; }
      }
    } else {
      assert n == zone ==> n[|n| - |zone|..] == zone;
    }
  }

  /** Walking on from an ancestor meets ancestors. */
  lemma {:induction false} AncestorsNested(zone: Name, n: Name, e: Name)
    requires e in Ancestors(zone, n)
    ensures Ancestors(zone, e) <= Ancestors(zone, n) && |e| < |n|
  {
    if e != n[1..] { AncestorsNested(zone, n[1..], e); }
  }

  /** Of two names on one path, one is above the other. */
  lemma {:induction false} AncestorsLinear(zone: Name, n: Name, a: Name, b: Name)
    requires a in Ancestors(zone, n) && b in Ancestors(zone, n) && a != b
    ensures a in Ancestors(zone, b) || b in Ancestors(zone, a)
  {
    if a != n[1..] && b != n[1..] { AncestorsLinear(zone, n[1..], a, b); }
  }

  /** The ancestors of the names in `from` that are not owners. */
  function Ents(zone: Name, owners: set<Name>, from: set<Name>): set<Name> {
    set n, e | n in from && e in Ancestors(zone, n) && e !in owners :: e
  }

  lemma EntsGrow(zone: Name, owners: set<Name>, from: set<Name>, n: Name)
    ensures Ents(zone, owners, from + {n}) == Ents(zone, owners, from) + (Ancestors(zone, n) - owners)
  {
    hide Ancestors;
  }

  lemma EntsMonotone(zone: Name, owners: set<Name>, a: set<Name>, b: set<Name>)
    requires a <= b
    ensures Ents(zone, owners, a) <= Ents(zone, owners, b)
    ensures |Ents(zone, owners, a)| <= |Ents(zone, owners, b)|
  {
    hide Ancestors;
    SubsetSize(Ents(zone, owners, a), Ents(zone, owners, b));
  }

  /** Owners inside the zone have their empty non-terminals inside the zone. */
  lemma EntsInZone(zone: Name, owners: set<Name>, e: Name)
    requires (forall n :: n in owners ==> InZone(zone, n)) && e in Ents(zone, owners, owners)
    ensures InZone(zone, e)
  {
    var n :| n in owners && e in Ancestors(zone, n);
    AncestorsAre(zone, n, e);
    var k :| 1 <= k <= Steps(zone, n) && n[k..] == e;
    assert e[|e| - |zone|..] == n[|n| - |zone|..];
  }

  /** An owner outside the zone has everything above it, the root included, as an owner or an empty non-terminal. */
  lemma StrayEnts(zone: Name, owners: set<Name>, n: Name, k: nat)
    requires n in owners && !InZone(zone, n) && 1 <= k <= |n|
    ensures n[k..] in owners || n[k..] in Ents(zone, owners, owners)
  {
    AncestorsAre(zone, n, n[k..]);
  }

  lemma {:induction false} SubsetSize(a: set<Name>, b: set<Name>)
    requires a <= b
    ensures |a| <= |b|
    decreases a
  {
    if a != {} {
      var x :| x in a;
      SubsetSize(a - {x}, b - {x});
    }
  }

  /** A name and everything above it. */
  function Path(zone: Name, n: Name): set<Name> {
    {n} + Ancestors(zone, n)
  }

  /** No delegation at the name or above it. */
  predicate Authoritative(zone: Name, delegations: set<Name>, n: Name) {
    Path(zone, n) !! delegations
  }

  /** The name lies below a delegation. */
  predicate Occluded(zone: Name, delegations: set<Name>, n: Name) {
    !(Ancestors(zone, n) !! delegations)
  }

  /** What the authority flag of a record of a given type should say. */
  predicate ShouldBeAuth(zone: Name, delegations: set<Name>, n: Name, qtype: nat) {
    qtype == TYPE_DS || Authoritative(zone, delegations, n)
  }

  /** The walk up to the root goes on from the apex. */
  lemma {:induction false} PathToRoot(zone: Name, n: Name, e: Name)
    ensures Ancestors(zone, n) <= Ancestors([], n)
    ensures e in Ancestors([], n) && e !in Ancestors(zone, n) ==> |e| < |zone|
  {
    if n == zone {
      if e in Ancestors([], n) { AncestorsNested([], n, e); }
    } else if n != [] {
      PathToRoot(zone, n[1..], e);
    }
  }

  /** With every delegation below the apex it does not matter whether the search stops there or at the root. */
  lemma AuthorityInZone(zone: Name, delegations: set<Name>, n: Name)
    requires forall d :: d in delegations ==> InZone(zone, d)
    ensures Authoritative([], delegations, n) <==> Authoritative(zone, delegations, n)
  {
    hide Ancestors;
    forall e | e in Ancestors([], n) && e !in Ancestors(zone, n) ensures e !in delegations {
      PathToRoot(zone, n, e);
    }
    PathToRoot(zone, n, n);
  }

  /** Above every occluded name there is a delegation that is not itself occluded. */
  lemma {:induction false} TopCut(zone: Name, delegations: set<Name>, n: Name) returns (d: Name)
    requires Occluded(zone, delegations, n)
    ensures d in Ancestors(zone, n) && d in delegations && !Occluded(zone, delegations, d)
  {
    if Occluded(zone, delegations, n[1..]) {
      d := TopCut(zone, delegations, n[1..]);
    } else {
      d := n[1..];
    }
  }
}
