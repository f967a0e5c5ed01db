/**
 What a catalog zone says, read off its records directly: which record makes a member, which ones give it an owner to
 change to and groups, and when the whole zone is a valid catalog.  The roles of `CatalogRoles` mean just that.
 */
module CatalogRecords {
  import opened Results
  import opened Wire
  import opened ZoneNames
  import opened CatalogDiff
  import opened CatalogRoles

  // ---------------------------------------------------------------- records

  /** A PTR record at u.zones.<zone>. */
  ghost predicate Points(zone: Name, r: Record, u: Label) {
    r.data.PTR? && SameName(r.qname, [u, ZONES] + zone)
  }

  /** A PTR record at coo.u.zones.<zone>. */
  ghost predicate HandsOver(zone: Name, r: Record, u: Label) {
    r.data.PTR? && SameName(r.qname, [COO, u, ZONES] + zone)
  }

  /** A TXT record at group.u.zones.<zone> with this text, the quotes around it taken off. */
  ghost predicate GroupsAs(zone: Name, r: Record, u: Label, text: string) {
    && r.data.TXT? && SameName(r.qname, [GROUP, u, ZONES] + zone)
    && (|| r.data.text == "\"" + text + "\""
        || (r.data.text == text && !(|text| >= 2 && text[0] == '\"' && text[|text| - 1] == '\"')))
  }

  /** A TXT record at version.<zone>. */
  ghost predicate Versions(zone: Name, r: Record) {
    r.data.TXT? && SameName(r.qname, [VERSION] + zone)
  }

  ghost predicate Starts(zone: Name, r: Record) {
    r.data.SOA? && SameName(r.qname, zone)
  }

  // ---------------------------------------------------------------- the zone

  /** One SOA record at the apex or more, and one version record, which says "1" or "2". */
  ghost predicate HasHead(zone: Name, rrs: seq<Record>, version: nat) {
    && (exists r :: r in rrs && Starts(zone, r))
    && (version == 1 || version == 2)
    && exists i :: 0 <= i < |rrs| && OnlyVersion(zone, rrs, version, i)
  }

  ghost predicate OnlyVersion(zone: Name, rrs: seq<Record>, version: nat, i: int)
    requires 0 <= i < |rrs|
  {
    && Versions(zone, rrs[i]) && rrs[i].data.text == (if version == 1 then "\"1\"" else "\"2\"")
    && forall j :: 0 <= j < |rrs| && Versions(zone, rrs[j]) ==> j == i
  }

  /** No two members share their label or their zone. */
  ghost predicate MembersApart(zone: Name, rrs: seq<Record>) {
    forall i, j, u, w :: 0 <= i < j < |rrs| && Points(zone, rrs[i], u) && Points(zone, rrs[j], w) ==>
      LowerAll(u) != LowerAll(w) && !SameName(rrs[i].data.target, rrs[j].data.target)
  }

  /** No member has two owners to change to. */
  ghost predicate OwnersApart(zone: Name, rrs: seq<Record>) {
    forall i, j, u, w ::
      0 <= i < j < |rrs| && HandsOver(zone, rrs[i], u) && HandsOver(zone, rrs[j], w) && LowerAll(u) == LowerAll(w) ==>
        forall r :: r in rrs ==> !Points(zone, r, u)
  }

  ghost predicate ValidCatalog(zone: Name, rrs: seq<Record>, version: nat) {
    HasHead(zone, rrs, version) && MembersApart(zone, rrs) && (version == 2 ==> OwnersApart(zone, rrs))
  }

  /** The member r, a PTR record at u.zones.<zone>, with the properties the records at its own label give it. */
  ghost predicate MemberFrom(zone: Name, rrs: seq<Record>, version: nat, r: Record, u: Label, m: CatalogInfo) {
    && r in rrs && Points(zone, r, u)
    && m.zone == Zone(LowerName(r.data.target), []) && m.primaries == []
    && m.options.unique == Some([LowerAll(u)]) && m.options.rest == ""
    && (version != 2 ==> m.options.coo == None && m.options.group == {})
    && (version == 2 ==>
          && (forall t :: m.options.coo == Some(t) <==>
                exists x :: x in rrs && HandsOver(zone, x, u) && LowerName(x.data.target) == t)
          && (forall text :: text in m.options.group <==> exists x :: x in rrs && GroupsAs(zone, x, u, text)))
  }

  ghost predicate MembersAre(zone: Name, rrs: seq<Record>, version: nat, members: seq<CatalogInfo>) {
    && (forall m :: m in members <==> exists r, u :: MemberFrom(zone, rrs, version, r, u, m))
    && (forall i, j :: 0 <= i < j < |members| ==> members[i].zone != members[j].zone)
  }

  // ---------------------------------------------------------------- roles mean what the records say

  /** A name is head.zones.<zone> iff it lies below zones.<zone> with that name in front. */
  lemma InFront(zone: Name, n: Name, head: Name)
    ensures SameName(n, head + ([ZONES] + zone)) <==>
              PartOf(n, ZonesName(zone)) && RelativeName(zone, n) == LowerName(head)
  {
    var z := ZonesName(zone);
    LowerConcat(head, z);
    if PartOf(n, z) {
      Placed(zone, n);
      if SameName(n, head + z) { assert RelativeName(zone, n) == LowerName(n)[..|n| - |z|] == LowerName(head); }
    } else if SameName(n, head + z) {
      PartOfLowered(n, z, LowerName(head));
    }
  }

  /** Names with different numbers of labels differ. */
  lemma OtherLength(n: Name, a: Name, b: Name)
    requires SameName(n, a) && |a| != |b|
    ensures !SameName(n, b)
  {
    assert |LowerName(n)| == |LowerName(a)| == |a|;
    assert |LowerName(b)| == |b|;
  }

  lemma NotApex(zone: Name, n: Name, head: Name)
    requires SameName(n, head + ([ZONES] + zone))
    ensures !SameName(n, zone)
    ensures head != [] ==> !SameName(n, VersionName(zone))
  {
    OtherLength(n, head + ([ZONES] + zone), zone);
    if head != [] { OtherLength(n, head + ([ZONES] + zone), VersionName(zone)); }
  }

  /** The role of a record at head.zones.<zone>. */
  lemma RoleBelow(zone: Name, r: Record, head: Name)
    requires head != [] && SameName(r.qname, head + ([ZONES] + zone))
    ensures RoleOf(zone, r) == ZonesRole(LowerName(head), r.data)
  {
    hide SameName, PartOf, LowerName, ZonesRole, RelativeName;
    InFront(zone, r.qname, head);
    NotApex(zone, r.qname, head);
  }

  /** A record with a role in the list of members lies below zones.<zone>. */
  lemma RoleOfMember(zone: Name, r: Record)
    requires RoleOf(zone, r).Member? || RoleOf(zone, r).Coo? || RoleOf(zone, r).Group?
    ensures PartOf(r.qname, ZonesName(zone)) && RoleOf(zone, r) == ZonesRole(RelativeName(zone, r.qname), r.data)
  {
    hide SameName, PartOf, RelativeName;
  }

  lemma LowerOne(u: Label)
    ensures LowerName([u]) == [LowerAll(u)]
  {
  }

  lemma LowerTwo(a: Label, u: Label)
    requires LowerAll(a) == a
    ensures LowerName([a, u]) == [a, LowerAll(u)]
  {
  }

  lemma PropertyLabels()
    ensures LowerAll(COO) == COO && LowerAll(GROUP) == GROUP && COO != GROUP
  {
    assert forall i :: 0 <= i < |COO| ==> LowerAll(COO)[i] == COO[i];
    assert forall i :: 0 <= i < |GROUP| ==> LowerAll(GROUP)[i] == GROUP[i];
  }

  lemma MemberRole(zone: Name, r: Record, u: Label, z: Zone)
    ensures RoleOf(zone, r) == Member([LowerAll(u)], z) <==> Points(zone, r, u) && z == Zone(LowerName(r.data.target), [])
  {
    hide SameName, PartOf, LowerName, RelativeName, RoleOf;
    LowerOne(u);
    assert [u] + ([ZONES] + zone) == [u, ZONES] + zone;
    InFront(zone, r.qname, [u]);
    if SameName(r.qname, [u, ZONES] + zone) {
      RoleBelow(zone, r, [u]);
    } else if RoleOf(zone, r).Member? {
      RoleOfMember(zone, r);
    }
  }

  lemma CooRole(zone: Name, r: Record, u: Label, t: Name)
    ensures RoleOf(zone, r) == Coo([LowerAll(u)], t) <==> HandsOver(zone, r, u) && t == LowerName(r.data.target)
  {
    hide SameName, PartOf, LowerName, RelativeName, RoleOf;
    PropertyLabels();
    LowerTwo(COO, u);
    assert [COO, u] + ([ZONES] + zone) == [COO, u, ZONES] + zone;
    InFront(zone, r.qname, [COO, u]);
    assert [COO, LowerAll(u)][1..] == [LowerAll(u)] && [COO] + [LowerAll(u)] == [COO, LowerAll(u)];
    if SameName(r.qname, [COO, u, ZONES] + zone) { RoleBelow(zone, r, [COO, u]); }
    if RoleOf(zone, r).Coo? {
      RoleOfMember(zone, r);
      Shapes(RelativeName(zone, r.qname), r.data);
    }
  }

  /** Properties have their own label in front of the member's. */
  lemma Shapes(rel: Name, d: Data)
    ensures ZonesRole(rel, d).Coo? ==> rel == [COO] + ZonesRole(rel, d).unique
    ensures ZonesRole(rel, d).Group? ==> rel == [GROUP] + ZonesRole(rel, d).unique
  {
    if rel != [] { assert rel == [rel[0]] + rel[1..]; }
  }

  lemma GroupRole(zone: Name, r: Record, u: Label, text: string)
    ensures RoleOf(zone, r) == Group([LowerAll(u)], text) <==> GroupsAs(zone, r, u, text)
  {
    hide SameName, PartOf, LowerName, RelativeName, RoleOf;
    PropertyLabels();
    LowerTwo(GROUP, u);
    assert [GROUP, u] + ([ZONES] + zone) == [GROUP, u, ZONES] + zone;
    InFront(zone, r.qname, [GROUP, u]);
    assert [GROUP, LowerAll(u)][1..] == [LowerAll(u)] && [GROUP] + [LowerAll(u)] == [GROUP, LowerAll(u)];
    if r.data.TXT? { UnquotedIs(r.data.text, text); }
    hide Unquoted;
    if SameName(r.qname, [GROUP, u, ZONES] + zone) { RoleBelow(zone, r, [GROUP, u]); }
    if RoleOf(zone, r).Group? {
      RoleOfMember(zone, r);
      Shapes(RelativeName(zone, r.qname), r.data);
    }
  }

  lemma UnquotedIs(s: string, text: string)
    ensures Unquoted(s) == text <==>
              || s == "\"" + text + "\""
              || (s == text && !(|text| >= 2 && text[0] == '\"' && text[|text| - 1] == '\"'))
  {
    if |s| >= 2 && s[0] == '\"' && s[|s| - 1] == '\"' {
      assert s == "\"" + s[1..|s| - 1] + "\"";
    }
    assert ("\"" + text + "\"")[1..|text| + 1] == text;
  }

  lemma VersionRole(zone: Name, r: Record)
    ensures RoleOf(zone, r).VersionTxt? <==> Versions(zone, r)
    ensures Versions(zone, r) ==> RoleOf(zone, r) == VersionTxt(r.data.text)
  {
    hide PartOf, RelativeName;
    if SameName(r.qname, VersionName(zone)) { OtherLength(r.qname, VersionName(zone), zone); }
  }

  lemma SoaRole(zone: Name, r: Record)
    ensures RoleOf(zone, r) == ApexSoa <==> Starts(zone, r)
  {
    hide PartOf, RelativeName, SameName;
  }

  /** The label of a member as its pointer record spells it. */
  lemma PointerLabel(zone: Name, r: Record) returns (u: Label)
    requires RoleOf(zone, r).Member?
    ensures Points(zone, r, u) && RoleOf(zone, r) == Member([LowerAll(u)], Zone(LowerName(r.data.target), []))
  {
    hide RoleOf, SameName;
    MemberPlace(zone, r);
    u := r.qname[0];
    var role := RoleOf(zone, r);
    assert role.unique[0] == LowerName(r.qname)[0] == LowerAll(u);
    assert role.unique == [LowerAll(u)];
    MemberRole(zone, r, u, role.zone);
  }

  // ---------------------------------------------------------------- valid catalogs

  /** Two records hit a key. */
  ghost predicate Twice(p: seq<Role>, k: Key) {
    exists i, j :: 0 <= i < j < |p| && Hits(p[i], k) && Hits(p[j], k)
  }

  lemma {:induction false} CountTwo(p: seq<Role>, k: Key)
    ensures Count(p, k) >= 2 <==> Twice(p, k)
  {
    if p != [] {
      hide Hits;
      var n := |p| - 1;
      var q := p[..n];
      CountTwo(q, k);
      CountFinds(q, k);
      if Twice(q, k) {
        var i, j :| 0 <= i < j < |q| && Hits(q[i], k) && Hits(q[j], k);
        assert Hits(p[i], k) && Hits(p[j], k);
      }
      if Hits(p[n], k) && Count(q, k) > 0 {
        var i :| 0 <= i < |q| && Hits(q[i], k);
        assert Hits(p[i], k);
      }
      if Twice(p, k) {
        var i, j :| 0 <= i < j < |p| && Hits(p[i], k) && Hits(p[j], k);
        assert Hits(q[i], k);
        if j < n { assert Hits(q[j], k); }
      }
    }
  }

  lemma VersionIs(zone: Name, rrs: seq<Record>, version: nat)
    ensures ApexSoa in Roles(zone, rrs) && version != 0 && Versioned(version, Roles(zone, rrs)) <==> HasHead(zone, rrs, version)
  {
    hide RoleOf, Count, SameName;
    var p := Roles(zone, rrs);
    RolesIn(zone, rrs, ApexSoa);
    forall r ensures RoleOf(zone, r) == ApexSoa <==> Starts(zone, r) { SoaRole(zone, r); }
    forall i | 0 <= i < |rrs|
      ensures Hits(p[i], VersionKey) <==> Versions(zone, rrs[i])
      ensures Versions(zone, rrs[i]) ==> p[i] == VersionTxt(rrs[i].data.text)
    {
      VersionRole(zone, rrs[i]);
    }
    CountTwo(p, VersionKey);
    CountFinds(p, VersionKey);
    if version == 1 || version == 2 {
      var text := if version == 1 then "\"1\"" else "\"2\"";
      if Count(p, VersionKey) == 1 && VersionTxt(text) in p {
        var i :| 0 <= i < |p| && p[i] == VersionTxt(text);
        assert Hits(p[i], VersionKey);
        forall j | 0 <= j < |rrs| && Versions(zone, rrs[j]) ensures j == i { assert Hits(p[j], VersionKey); }
        assert OnlyVersion(zone, rrs, version, i);
      }
      if i :| 0 <= i < |rrs| && OnlyVersion(zone, rrs, version, i) {
        assert Hits(p[i], VersionKey) && p[i] == VersionTxt(text);
      }
    }
  }

  lemma MembersClash(zone: Name, rrs: seq<Record>)
    ensures var p := Roles(zone, rrs);
            MembersApart(zone, rrs) <==> !(exists u :: Count(p, UniqueKey(u)) >= 2) && !(exists z :: Count(p, ZoneKey(z)) >= 2)
  {
    hide RoleOf, Count, MembersApart, Roles;
    if MembersApart(zone, rrs) {
      forall k: Key | k.UniqueKey? || k.ZoneKey? ensures Count(Roles(zone, rrs), k) < 2 { NotTwice(zone, rrs, k); }
    } else {
      var k := SomeTwice(zone, rrs);
    }
  }

  lemma SomeTwice(zone: Name, rrs: seq<Record>) returns (k: Key)
    requires !MembersApart(zone, rrs)
    ensures (k.UniqueKey? || k.ZoneKey?) && Count(Roles(zone, rrs), k) >= 2
  {
    hide RoleOf, Count, SameName, LowerAll, Roles;
    var i, j, u, w :| 0 <= i < j < |rrs| && Points(zone, rrs[i], u) && Points(zone, rrs[j], w) &&
      !(LowerAll(u) != LowerAll(w) && !SameName(rrs[i].data.target, rrs[j].data.target));
    k := TwiceHere(zone, rrs, i, j, u, w);
  }

  lemma NotTwice(zone: Name, rrs: seq<Record>, k: Key)
    requires MembersApart(zone, rrs) && (k.UniqueKey? || k.ZoneKey?)
    ensures Count(Roles(zone, rrs), k) < 2
  {
    hide RoleOf, Count, MembersApart;
    var p := Roles(zone, rrs);
    CountTwo(p, k);
    if Twice(p, k) {
      var i, j :| 0 <= i < j < |p| && Hits(p[i], k) && Hits(p[j], k);
      Apart(zone, rrs, i, j);
    }
  }

  lemma TwiceHere(zone: Name, rrs: seq<Record>, i: nat, j: nat, u: Label, w: Label) returns (k: Key)
    requires i < j < |rrs| && Points(zone, rrs[i], u) && Points(zone, rrs[j], w)
    requires LowerAll(u) == LowerAll(w) || SameName(rrs[i].data.target, rrs[j].data.target)
    ensures (k.UniqueKey? || k.ZoneKey?) && Count(Roles(zone, rrs), k) >= 2
  {
    hide RoleOf, Count, SameName, LowerAll;
    var p, z, y := Roles(zone, rrs), Zone(LowerName(rrs[i].data.target), []), Zone(LowerName(rrs[j].data.target), []);
    MemberRole(zone, rrs[i], u, z);
    MemberRole(zone, rrs[j], w, y);
    SameTarget(rrs[i].data.target, rrs[j].data.target);
    k := if LowerAll(u) == LowerAll(w) then UniqueKey([LowerAll(u)]) else ZoneKey(z);
    assert Hits(p[i], k) && Hits(p[j], k);
    CountTwo(p, k);
  }

  lemma SameTarget(a: Name, b: Name)
    ensures SameName(a, b) <==> Zone(LowerName(a), []) == Zone(LowerName(b), [])
  {
  }

  lemma Apart(zone: Name, rrs: seq<Record>, i: nat, j: nat)
    requires MembersApart(zone, rrs) && i < j < |rrs| && RoleOf(zone, rrs[i]).Member? && RoleOf(zone, rrs[j]).Member?
    ensures RoleOf(zone, rrs[i]).unique != RoleOf(zone, rrs[j]).unique && RoleOf(zone, rrs[i]).zone != RoleOf(zone, rrs[j]).zone
  {
    hide RoleOf, SameName;
    var u := PointerLabel(zone, rrs[i]);
    var w := PointerLabel(zone, rrs[j]);
    SameTarget(rrs[i].data.target, rrs[j].data.target);
    assert LowerAll(u) != LowerAll(w);
  }

  lemma OwnersClash(zone: Name, rrs: seq<Record>)
    ensures var p := Roles(zone, rrs);
            OwnersApart(zone, rrs) <==> !(exists u :: Count(p, UniqueKey(u)) >= 1 && Count(p, CooKey(u)) >= 2)
  {
    hide RoleOf, Count, SameName, Hits, LowerAll;
    var p := Roles(zone, rrs);
    if u :| Count(p, UniqueKey(u)) >= 1 && Count(p, CooKey(u)) >= 2 { TwoOwners(zone, rrs, u); }
    if !OwnersApart(zone, rrs) {
      var i, j, u, w, r :| 0 <= i < j < |rrs| && HandsOver(zone, rrs[i], u) && HandsOver(zone, rrs[j], w)
        && LowerAll(u) == LowerAll(w) && r in rrs && Points(zone, r, u);
      OwnersHere(zone, rrs, i, j, u, w, r);
    }
  }

  lemma TwoOwners(zone: Name, rrs: seq<Record>, u: Name)
    requires Count(Roles(zone, rrs), UniqueKey(u)) >= 1 && Count(Roles(zone, rrs), CooKey(u)) >= 2
    ensures !OwnersApart(zone, rrs)
  {
    hide RoleOf, Count, SameName, LowerAll;
    var p := Roles(zone, rrs);
    CountFinds(p, UniqueKey(u));
    CountTwo(p, CooKey(u));
    var k :| 0 <= k < |p| && Hits(p[k], UniqueKey(u));
    var w := PointerLabel(zone, rrs[k]);
    var i, j :| 0 <= i < j < |p| && Hits(p[i], CooKey(u)) && Hits(p[j], CooKey(u));
    CooRole(zone, rrs[i], w, p[i].target);
    CooRole(zone, rrs[j], w, p[j].target);
    assert rrs[k] in rrs;
  }

  lemma OwnersHere(zone: Name, rrs: seq<Record>, i: nat, j: nat, u: Label, w: Label, r: Record)
    requires i < j < |rrs| && HandsOver(zone, rrs[i], u) && HandsOver(zone, rrs[j], w) && LowerAll(u) == LowerAll(w)
    requires r in rrs && Points(zone, r, u)
    ensures var p := Roles(zone, rrs);
            Count(p, UniqueKey([LowerAll(u)])) >= 1 && Count(p, CooKey([LowerAll(u)])) >= 2
  {
    hide RoleOf, Count, SameName, LowerAll;
    var p, n := Roles(zone, rrs), [LowerAll(u)];
    CooRole(zone, rrs[i], u, LowerName(rrs[i].data.target));
    CooRole(zone, rrs[j], w, LowerName(rrs[j].data.target));
    assert Hits(p[i], CooKey(n)) && Hits(p[j], CooKey(n));
    CountTwo(p, CooKey(n));
    var k :| 0 <= k < |rrs| && rrs[k] == r;
    MemberRole(zone, r, u, Zone(LowerName(r.data.target), []));
    assert Hits(p[k], UniqueKey(n));
    CountFinds(p, UniqueKey(n));
  }

  /** The roles form a valid catalog iff the records do. */
  lemma AcceptsRecords(zone: Name, rrs: seq<Record>, version: nat)
    ensures Accepts(version, Roles(zone, rrs)) <==> ValidCatalog(zone, rrs, version)
  {
    hide RoleOf, Count, HasHead, MembersApart, OwnersApart, Versioned, Roles;
    VersionIs(zone, rrs, version);
    MembersClash(zone, rrs);
    OwnersClash(zone, rrs);
  }

  // ---------------------------------------------------------------- members

  lemma {:induction false} GroupsAre(p: seq<Role>, u: Name, text: string)
    ensures text in Groups(p, u) <==> Group(u, text) in p
  {
    if p != [] {
      var q := p[..|p| - 1];
      GroupsAre(q, u, text);
      assert forall x :: x in p <==> x in q || x == p[|p| - 1];
    }
  }

  lemma {:induction false} CooIs(p: seq<Role>, u: Name)
    ensures CooOf(p, u).Some? ==> Coo(u, CooOf(p, u).value) in p
    ensures CooOf(p, u).None? ==> forall t :: Coo(u, t) !in p
  {
    if p != [] {
      var q := p[..|p| - 1];
      CooIs(q, u);
      assert forall x :: x in p <==> x in q || x == p[|p| - 1];
    }
  }

  lemma OneCoo(p: seq<Role>, u: Name, s: Name, t: Name)
    requires Count(p, CooKey(u)) < 2 && Coo(u, s) in p && Coo(u, t) in p
    ensures s == t
  {
    hide Count;
    CountTwo(p, CooKey(u));
    var i :| 0 <= i < |p| && p[i] == Coo(u, s);
    var j :| 0 <= j < |p| && p[j] == Coo(u, t);
    assert Hits(p[i], CooKey(u)) && Hits(p[j], CooKey(u));
    assert i == j;
  }

  /** The properties of a member in terms of the records at its label. */
  lemma PropertiesAre(zone: Name, rrs: seq<Record>, u: Label)
    requires Count(Roles(zone, rrs), CooKey([LowerAll(u)])) < 2
    ensures var p, n := Roles(zone, rrs), [LowerAll(u)];
            && (forall t :: CooOf(p, n) == Some(t) <==>
                  exists x :: x in rrs && HandsOver(zone, x, u) && LowerName(x.data.target) == t)
            && (forall text :: text in Groups(p, n) <==> exists x :: x in rrs && GroupsAs(zone, x, u, text))
  {
    hide RoleOf, Count, SameName, LowerAll, CooOf, Groups;
    var p, n := Roles(zone, rrs), [LowerAll(u)];
    forall t ensures CooOf(p, n) == Some(t) <==> exists x :: x in rrs && HandsOver(zone, x, u) && LowerName(x.data.target) == t {
      CooIs(p, n);
      if CooOf(p, n).Some? && Coo(n, t) in p { OneCoo(p, n, CooOf(p, n).value, t); }
      RolesIn(zone, rrs, Coo(n, t));
      forall x ensures RoleOf(zone, x) == Coo(n, t) <==> HandsOver(zone, x, u) && LowerName(x.data.target) == t {
        CooRole(zone, x, u, t);
      }
    }
    forall text ensures text in Groups(p, n) <==> exists x :: x in rrs && GroupsAs(zone, x, u, text) {
      GroupsAre(p, n, text);
      RolesIn(zone, rrs, Group(n, text));
      forall x ensures RoleOf(zone, x) == Group(n, text) <==> GroupsAs(zone, x, u, text) { GroupRole(zone, x, u, text); }
    }
  }

  /** In a valid catalog the members that the roles describe are those the records make. */
  lemma DescribesIs(zone: Name, rrs: seq<Record>, version: nat, m: CatalogInfo)
    requires Accepts(version, Roles(zone, rrs))
    ensures Describes(version, Roles(zone, rrs), m) <==> exists r, u :: MemberFrom(zone, rrs, version, r, u, m)
  {
    hide RoleOf, Count, Versioned, CooOf, Groups;
    var p := Roles(zone, rrs);
    if Describes(version, p, m) {
      RolesIn(zone, rrs, Member(m.options.unique.value, m.zone));
      var r :| r in rrs && RoleOf(zone, r) == Member(m.options.unique.value, m.zone);
      var u := PointerLabel(zone, r);
      MemberIs(zone, rrs, version, r, u, m);
    }
    if r, u :| MemberFrom(zone, rrs, version, r, u, m) {
      MemberIs(zone, rrs, version, r, u, m);
    }
  }

  lemma MemberIs(zone: Name, rrs: seq<Record>, version: nat, r: Record, u: Label, m: CatalogInfo)
    requires Accepts(version, Roles(zone, rrs)) && r in rrs && Points(zone, r, u)
    ensures MemberFrom(zone, rrs, version, r, u, m) <==>
              m == MemberInfo(version, Roles(zone, rrs), [LowerAll(u)], Zone(LowerName(r.data.target), []))
    ensures Member([LowerAll(u)], Zone(LowerName(r.data.target), [])) in Roles(zone, rrs)
  {
    hide RoleOf, Count, SameName, LowerAll, CooOf, Groups;
    var p, n, z := Roles(zone, rrs), [LowerAll(u)], Zone(LowerName(r.data.target), []);
    MemberRole(zone, r, u, z);
    RolesIn(zone, rrs, Member(n, z));
    if version == 2 {
      var i :| 0 <= i < |p| && p[i] == Member(n, z);
      assert Hits(p[i], UniqueKey(n));
      CountFinds(p, UniqueKey(n));
      PropertiesAre(zone, rrs, u);
      hide HandsOver, GroupsAs;
      if MemberFrom(zone, rrs, version, r, u, m) {
        SameOption(m.options.coo, CooOf(p, n));
        assert m.options.group == Groups(p, n);
      }
    }
  }

  lemma SameOption(a: Option<Name>, b: Option<Name>)
    requires forall t :: a == Some(t) <==> b == Some(t)
    ensures a == b
  {
    if a.Some? { assert a == Some(a.value); }
    if b.Some? { assert b == Some(b.value); }
  }
}
