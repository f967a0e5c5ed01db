/**
 What the records of a catalog zone (RFC 9432) mean: each record has a role by itself, and the roles
 together, in no particular order, say whether the catalog is valid and what its members are.

 The last part says in which order the roles come when the records are in canonical order.
 */
module CatalogRoles {
  import opened Results
  import opened Wire
  import opened Canon
  import opened ZoneNames
  import opened CatalogDiff

  const ZONES: Label := [122, 111, 110, 101, 115]
  const VERSION: Label := [118, 101, 114, 115, 105, 111, 110]
  const COO: Label := [99, 111, 111]
  const GROUP: Label := [103, 114, 111, 117, 112]

  datatype Data = NS | SOA | PTR(target: Name) | TXT(text: string) | Other(code: nat)

  function TypeCode(d: Data): nat {
    match d
    case NS => 2
    case SOA => 6
    case PTR(_) => 12
    case TXT(_) => 16
    case Other(code) => code
  }

  datatype Record = Record(qname: Name, data: Data, disabled: bool)

  // ---------------------------------------------------------------- the role of a record

  datatype Role =
    | ApexSoa
    | ApexNs
    | VersionTxt(text: string)
    | Member(unique: Name, zone: Zone)
    | Coo(unique: Name, target: Name)
    | Group(unique: Name, text: string)
    | Unknown
    | Elsewhere

  function ZonesName(zone: Name): Name { [ZONES] + zone }

  function VersionName(zone: Name): Name { [VERSION] + zone }

  /** The name in front of zones.<zone>, case-folded. */
  function RelativeName(zone: Name, n: Name): Name
    requires PartOf(n, ZonesName(zone))
  {
    LowerName(n[..|n| - |ZonesName(zone)|])
  }

  /** A TXT content without its quotes. */
  function Unquoted(s: string): string {
    if |s| >= 2 && s[0] == '\"' && s[|s| - 1] == '\"' then s[1..|s| - 1] else s
  }

  function ZoneOf(target: Name): Zone { Zone(LowerName(target), []) }

  function ZonesRole(rel: Name, d: Data): Role {
    if |rel| == 1 && d.PTR? then Member(rel, ZoneOf(d.target))
    else if |rel| > 1 && rel[0] == COO && d.PTR? then Coo(rel[1..], LowerName(d.target))
    else if |rel| > 0 && rel[0] == GROUP && d.TXT? then Group(rel[1..], Unquoted(d.text))
    else Unknown
  }

  function RoleOf(zone: Name, r: Record): Role {
    if SameName(r.qname, zone) then
      if r.data.SOA? then ApexSoa else if r.data.NS? then ApexNs else Elsewhere
    else if SameName(r.qname, VersionName(zone)) && r.data.TXT? then VersionTxt(r.data.text)
    else if PartOf(r.qname, ZonesName(zone)) then ZonesRole(RelativeName(zone, r.qname), r.data)
    else Elsewhere
  }

  function Roles(zone: Name, rs: seq<Record>): (p: seq<Role>)
    ensures |p| == |rs| && forall i :: 0 <= i < |rs| ==> p[i] == RoleOf(zone, rs[i])
  {
    seq(|rs|, i requires 0 <= i < |rs| => RoleOf(zone, rs[i]))
  }

  predicate InZones(r: Role) {
    r.Member? || r.Coo? || r.Group? || r.Unknown?
  }

  /** The role belongs to the member with this unique label. */
  predicate BelongsTo(r: Role, u: Name) {
    (r.Member? || r.Coo? || r.Group?) && r.unique == u
  }

  // ---------------------------------------------------------------- what the roles mean together

  datatype Key = VersionKey | UniqueKey(u: Name) | ZoneKey(z: Zone) | CooKey(u: Name)

  predicate Hits(r: Role, k: Key) {
    match k
    case VersionKey => r.VersionTxt?
    case UniqueKey(u) => r.Member? && r.unique == u
    case ZoneKey(z) => r.Member? && r.zone == z
    case CooKey(u) => r.Coo? && r.unique == u
  }

  function Count(p: seq<Role>, k: Key): nat {
    if p == [] then 0 else Count(p[..|p| - 1], k) + if Hits(p[|p| - 1], k) then 1 else 0
  }

  /** Two members share a label or a zone, or one has two owners to change to. */
  ghost predicate Clash(version: nat, p: seq<Role>) {
    || (exists u :: Count(p, UniqueKey(u)) >= 2)
    || (exists z :: Count(p, ZoneKey(z)) >= 2)
    || (version == 2 && exists u :: Count(p, UniqueKey(u)) >= 1 && Count(p, CooKey(u)) >= 2)
  }

  ghost predicate Versioned(version: nat, p: seq<Role>) {
    && Count(p, VersionKey) == (if version == 0 then 0 else 1)
    && version <= 2
    && (version == 1 ==> VersionTxt("\"1\"") in p)
    && (version == 2 ==> VersionTxt("\"2\"") in p)
  }

  /** The zone is a valid catalog of this version. */
  ghost predicate Accepts(version: nat, p: seq<Role>) {
    ApexSoa in p && version != 0 && Versioned(version, p) && !Clash(version, p)
  }

  function CooOf(p: seq<Role>, u: Name): Option<Name> {
    if p == [] then None
    else
      var c := CooOf(p[..|p| - 1], u);
      var r := p[|p| - 1];
      if c.None? && r.Coo? && r.unique == u then Some(r.target) else c
  }

  function Groups(p: seq<Role>, u: Name): set<string> {
    if p == [] then {}
    else
      var g := Groups(p[..|p| - 1], u);
      var r := p[|p| - 1];
      if r.Group? && r.unique == u then g + {r.text} else g
  }

  /** The member with its own properties; version 1 has none. */
  function MemberInfo(version: nat, p: seq<Role>, u: Name, z: Zone): CatalogInfo {
    CatalogInfo(z, if version == 2 then Options(CooOf(p, u), Some(u), Groups(p, u), "") else Options(None, Some(u), {}, ""), [])
  }

  ghost predicate Describes(version: nat, p: seq<Role>, m: CatalogInfo) {
    && m.options.unique.Some?
    && Member(m.options.unique.value, m.zone) in p
    && m == MemberInfo(version, p, m.options.unique.value, m.zone)
  }

  lemma {:induction false} CountFinds(p: seq<Role>, k: Key)
    ensures Count(p, k) > 0 <==> exists i :: 0 <= i < |p| && Hits(p[i], k)
  {
    if p != [] {
      var q := p[..|p| - 1];
      CountFinds(q, k);
      if Count(q, k) > 0 {
        var i :| 0 <= i < |q| && Hits(q[i], k);
        assert Hits(p[i], k);
      }
      if i :| 0 <= i < |p| && Hits(p[i], k) {
        if i < |q| { assert Hits(q[i], k); }
      }
    }
  }

  lemma RolesIn(zone: Name, s: seq<Record>, x: Role)
    ensures x in Roles(zone, s) <==> exists m :: m in s && RoleOf(zone, m) == x
  {
    hide RoleOf;
    if x in Roles(zone, s) {
      var i :| 0 <= i < |s| && Roles(zone, s)[i] == x;
      assert s[i] in s;
    }
    if m :| m in s && RoleOf(zone, m) == x {
      var i :| 0 <= i < |s| && s[i] == m;
      assert Roles(zone, s)[i] == x;
    }
  }

  // ---------------------------------------------------------------- the order of roles

  /**
   Versions come before everything below zones.<zone>; a member comes before its properties and no other
   member in between.
   */
  ghost predicate Ordered(p: seq<Role>) {
    && (forall i, j :: 0 <= i < j < |p| && InZones(p[i]) ==> !p[j].VersionTxt?)
    && (forall i, j :: 0 <= i < j < |p| && p[j].Member? && BelongsTo(p[i], p[j].unique) ==> p[i].Member?)
    && (forall i, j, k :: 0 <= i < j < k < |p| && p[i].Member? && p[j].Member? && BelongsTo(p[k], p[i].unique) ==>
          p[j].unique == p[i].unique)
  }

  ghost predicate SortedNames(rs: seq<Record>) {
    forall i, j :: 0 <= i < j < |rs| ==> CompareNames(rs[i].qname, rs[j].qname) <= 0
  }

  lemma {:induction false} VersionBeforeZones(zone: Name)
    ensures CompareNames(VersionName(zone), ZonesName(zone)) < 0
  {
    var a, b := VersionName(zone), ZonesName(zone);
    if zone == [] {
      assert Last(a) == VERSION && Last(b) == ZONES;
    } else {
      VersionBeforeZones(Init(zone));
      assert Last(a) == Last(zone) == Last(b);
      LabelsZero(Last(zone), Last(zone));
      assert Init(a) == VersionName(Init(zone)) && Init(b) == ZonesName(Init(zone));
    }
  }

  lemma VersionFirst(zone: Name, v: Name, n: Name)
    requires SameName(v, VersionName(zone)) && PartOf(n, ZonesName(zone))
    ensures CompareNames(n, v) > 0
  {
    hide CompareNames, PartOf, SameName, VersionName, ZonesName;
    NamesZero(v, VersionName(zone));
    VersionBeforeZones(zone);
    NamesTransitive(v, VersionName(zone), ZonesName(zone));
    SuffixFirst(n, ZonesName(zone));
    NamesTransitive(v, ZonesName(zone), n);
    NamesAntisymmetric(v, n);
  }

  /** Where a name below zones.<zone> stands. */
  lemma Placed(zone: Name, n: Name)
    requires PartOf(n, ZonesName(zone))
    ensures LowerName(n) == RelativeName(zone, n) + LowerName(ZonesName(zone))
  {
    var k := |n| - |ZonesName(zone)|;
    LowerConcat(n[..k], n[k..]);
    assert n == n[..k] + n[k..];
  }

  lemma PartOfLowered(n: Name, z: Name, head: Name)
    requires LowerName(n) == head + LowerName(z)
    ensures PartOf(n, z)
  {
    var k := |head|;
    assert |n| == k + |z|;
    assert n == n[..k] + n[k..];
    LowerConcat(n[..k], n[k..]);
    assert LowerName(n[k..]) == LowerName(n)[k..] == LowerName(z);
  }

  lemma MemberPlace(zone: Name, r: Record)
    requires RoleOf(zone, r).Member?
    ensures LowerName(r.qname) == RoleOf(zone, r).unique + LowerName(ZonesName(zone))
    ensures |RoleOf(zone, r).unique| == 1
  {
    hide PartOf, SameName, LowerName;
    Placed(zone, r.qname);
  }

  lemma Belonging(zone: Name, r: Record, u: Name) returns (head: Name)
    requires BelongsTo(RoleOf(zone, r), u)
    ensures LowerName(r.qname) == head + (u + LowerName(ZonesName(zone)))
    ensures head == [] <==> RoleOf(zone, r).Member?
  {
    hide PartOf, SameName, LowerName;
    Placed(zone, r.qname);
    var rel := RelativeName(zone, r.qname);
    if RoleOf(zone, r).Member? {
      head := [];
      assert rel == u;
    } else {
      head := [rel[0]];
      assert rel == head + u;
    }
    var tail := LowerName(ZonesName(zone));
    assert (head + u) + tail == head + (u + tail);
  }

  /** The records of a member lie below its pointer record; only the pointer records lie at it. */
  lemma BelowMember(zone: Name, m: Record, r: Record)
    requires RoleOf(zone, m).Member? && BelongsTo(RoleOf(zone, r), RoleOf(zone, m).unique)
    ensures PartOf(r.qname, m.qname)
    ensures !RoleOf(zone, r).Member? ==> |r.qname| > |m.qname|
  {
    hide PartOf, SameName, RoleOf, BelongsTo;
    MemberPlace(zone, m);
    var head := Belonging(zone, r, RoleOf(zone, m).unique);
    PartOfLowered(r.qname, m.qname, head);
    assert |LowerName(r.qname)| == |head| + |LowerName(m.qname)|;
  }

  lemma PropertiesAfter(zone: Name, m: Record, r: Record)
    requires RoleOf(zone, m).Member? && BelongsTo(RoleOf(zone, r), RoleOf(zone, m).unique)
    requires CompareNames(r.qname, m.qname) <= 0
    ensures RoleOf(zone, r).Member?
  {
    hide RoleOf, BelongsTo, CompareNames;
    BelowMember(zone, m, r);
    SuffixFirst(r.qname, m.qname);
    NamesAntisymmetric(r.qname, m.qname);
    NamesZero(r.qname, m.qname);
  }

  lemma NoMemberBetween(zone: Name, m: Record, o: Record, r: Record)
    requires RoleOf(zone, m).Member? && RoleOf(zone, o).Member? && BelongsTo(RoleOf(zone, r), RoleOf(zone, m).unique)
    requires CompareNames(m.qname, o.qname) <= 0 && CompareNames(o.qname, r.qname) <= 0
    ensures RoleOf(zone, o).unique == RoleOf(zone, m).unique
  {
    hide RoleOf, BelongsTo, CompareNames, PartOf, SameName, ZonesName;
    BelowMember(zone, m, r);
    SuffixInterval(m.qname, o.qname, r.qname);
    MemberPlace(zone, m);
    MemberPlace(zone, o);
    PartOfSameSize(o.qname, m.qname);
    CancelTail(RoleOf(zone, o).unique, RoleOf(zone, m).unique, LowerName(ZonesName(zone)));
  }

  lemma PartOfSameSize(n: Name, z: Name)
    requires PartOf(n, z) && |n| == |z|
    ensures LowerName(n) == LowerName(z)
  {
    assert n[0..] == n;
  }

  lemma CancelTail(a: Name, b: Name, tail: Name)
    requires a + tail == b + tail
    ensures a == b
  {
    assert |a| == |b|;
    assert a == (a + tail)[..|a|] == (b + tail)[..|b|] == b;
  }

  lemma InZonesPart(zone: Name, r: Record)
    requires InZones(RoleOf(zone, r))
    ensures PartOf(r.qname, ZonesName(zone))
  {
    hide PartOf, SameName;
  }

  lemma VersionPlace(zone: Name, r: Record)
    requires RoleOf(zone, r).VersionTxt?
    ensures SameName(r.qname, VersionName(zone))
  {
    hide PartOf, SameName;
  }

  lemma CanonicalOrder(zone: Name, rs: seq<Record>)
    requires SortedNames(rs)
    ensures Ordered(Roles(zone, rs))
  {
    hide RoleOf, CompareNames, BelongsTo, InZones;
    var p := Roles(zone, rs);
    forall i, j | 0 <= i < j < |p| && InZones(p[i]) ensures !p[j].VersionTxt? {
      if p[j].VersionTxt? {
        InZonesPart(zone, rs[i]);
        VersionPlace(zone, rs[j]);
        VersionFirst(zone, rs[j].qname, rs[i].qname);
      }
    }
    forall i, j | 0 <= i < j < |p| && p[j].Member? && BelongsTo(p[i], p[j].unique) ensures p[i].Member? {
      PropertiesAfter(zone, rs[j], rs[i]);
    }
    forall i, j, k | 0 <= i < j < k < |p| && p[i].Member? && p[j].Member? && BelongsTo(p[k], p[i].unique)
      ensures p[j].unique == p[i].unique
    {
      NoMemberBetween(zone, rs[i], rs[j], rs[k]);
    }
  }
}
