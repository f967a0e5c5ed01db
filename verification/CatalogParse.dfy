/**
 Reading a catalog zone in one pass over its records in canonical order.

 The scan keeps one draft member and relies on the order for completing it.
 */
module CatalogParse {
  import opened Results
  import opened Wire
  import opened Canon
  import opened ZoneNames
  import opened CatalogDiff
  import opened CatalogRoles
  import opened CatalogRecords

  // ---------------------------------------------------------------- the scan

  const NO_DRAFT := CatalogInfo(Zone([], []), Options(None, None, {}, ""), [])

  /** `ci` is the draft of the member whose pointer record came last; it has a zone iff `unique` is set. */
  datatype State = State(hasSoa: bool, version: nat, relSet: bool, unique: Option<Name>, ci: CatalogInfo,
                         members: seq<CatalogInfo>, dupcheck: set<Zone>, invalid: bool)

  const START := State(false, 0, false, None, NO_DRAFT, [], {}, false)

  function MemberStep(st: State, u: Name, z: Zone): State {
    State(st.hasSoa, st.version, true, Some(u), CatalogInfo(z, Options(None, Some(u), {}, ""), []),
          if st.unique.Some? && st.unique.value != u then st.members + [st.ci] else st.members,
          st.dupcheck + {z},
          st.invalid || st.unique == Some(u) || z in st.dupcheck)
  }

  function CooStep(st: State, u: Name, target: Name): State {
    var on := st.(relSet := true);
    if st.version != 2 || st.unique != Some(u) then on
    else if st.ci.options.coo.Some? then on.(invalid := true)
    else on.(ci := st.ci.(options := st.ci.options.(coo := Some(target))))
  }

  function GroupStep(st: State, u: Name, text: string): State {
    var on := st.(relSet := true);
    if st.version != 2 || (if st.unique.Some? then st.unique.value else []) != u then on
    else on.(ci := st.ci.(options := st.ci.options.(group := st.ci.options.group + {text})))
  }

  function VersionOf(text: string): nat {
    if text == "\"1\"" then 1 else if text == "\"2\"" then 2 else 0
  }

  /** What one record does to the scan, by its role; None: the scan aborts. */
  function Step(st: State, r: Role): Option<State> {
    if r.VersionTxt? then
      if st.version != 0 || VersionOf(r.text) == 0 then None else Some(st.(version := VersionOf(r.text)))
    else if InZones(r) && !st.relSet && st.version == 0 then None
    else
      match r
      case ApexSoa => Some(st.(hasSoa := true))
      case Member(u, z) => Some(MemberStep(st, u, z))
      case Coo(u, target) => Some(CooStep(st, u, target))
      case Group(u, text) => Some(GroupStep(st, u, text))
      case Unknown => Some(st.(relSet := true))
      case _ => Some(st)
  }

  // ---------------------------------------------------------------- what the scan knows of the roles it met

  function LastUnique(p: seq<Role>): Option<Name> {
    if p == [] then None
    else if p[|p| - 1].Member? then Some(p[|p| - 1].unique)
    else LastUnique(p[..|p| - 1])
  }

  function Drafts(st: State): seq<CatalogInfo> {
    if st.unique.Some? then st.members + [st.ci] else st.members
  }

  ghost predicate SomeInZones(p: seq<Role>) {
    exists i :: 0 <= i < |p| && InZones(p[i])
  }

  ghost predicate DraftsMatch(version: nat, p: seq<Role>, drafts: seq<CatalogInfo>) {
    && (forall m :: m in drafts <==> Describes(version, p, m))
    && (forall i, j :: 0 <= i < j < |drafts| ==> drafts[i].options.unique != drafts[j].options.unique)
  }

  ghost predicate Basics(st: State, p: seq<Role>) {
    && (st.hasSoa <==> ApexSoa in p)
    && Versioned(st.version, p)
    && (st.relSet <==> SomeInZones(p))
    && (st.relSet ==> st.version != 0)
    && st.unique == LastUnique(p)
    && (st.unique.Some? ==> st.ci.options.unique == st.unique)
    && (forall z :: z in st.dupcheck <==> Count(p, ZoneKey(z)) > 0)
  }

  ghost predicate Matches(st: State, p: seq<Role>) {
    && Basics(st, p)
    && (st.invalid <==> Clash(st.version, p))
    && (!st.invalid ==> DraftsMatch(st.version, p, Drafts(st)))
  }

  lemma Grown(p: seq<Role>, r: Role)
    ensures (p + [r])[..|p|] == p && |p + [r]| == |p| + 1 && (p + [r])[|p|] == r
    ensures forall x :: x in p + [r] <==> x in p || x == r
  {
  }

  lemma CountGrown(p: seq<Role>, r: Role, k: Key)
    ensures Count(p + [r], k) == Count(p, k) + if Hits(r, k) then 1 else 0
  {
    Grown(p, r);
  }

  lemma PropertiesGrown(p: seq<Role>, r: Role, u: Name)
    ensures CooOf(p + [r], u) == if CooOf(p, u).None? && r.Coo? && r.unique == u then Some(r.target) else CooOf(p, u)
    ensures Groups(p + [r], u) == if r.Group? && r.unique == u then Groups(p, u) + {r.text} else Groups(p, u)
    ensures LastUnique(p + [r]) == if r.Member? then Some(r.unique) else LastUnique(p)
  {
    Grown(p, r);
  }

  /** Without records of its own a member has no properties. */
  lemma {:induction false} NoProperties(p: seq<Role>, u: Name)
    requires forall i :: 0 <= i < |p| ==> !((p[i].Coo? || p[i].Group?) && p[i].unique == u)
    ensures CooOf(p, u) == None && Groups(p, u) == {} && Count(p, CooKey(u)) == 0
  {
    if p != [] { NoProperties(p[..|p| - 1], u); }
  }

  lemma {:induction false} CooCounted(p: seq<Role>, u: Name)
    ensures CooOf(p, u).Some? <==> Count(p, CooKey(u)) > 0
  {
    if p != [] { CooCounted(p[..|p| - 1], u); }
  }

  /** The member met last is the one whose label was met at all and may still get records. */
  lemma {:induction false} LastUniqueFinds(p: seq<Role>)
    ensures LastUnique(p).Some? ==>
              exists i :: 0 <= i < |p| && p[i].Member? && p[i].unique == LastUnique(p).value && forall j :: i < j < |p| ==> !p[j].Member?
    ensures LastUnique(p).None? ==> forall i :: 0 <= i < |p| ==> !p[i].Member?
  {
    if p != [] && !p[|p| - 1].Member? {
      var q := p[..|p| - 1];
      LastUniqueFinds(q);
      if LastUnique(q).Some? {
        var i :| 0 <= i < |q| && q[i].Member? && q[i].unique == LastUnique(q).value && forall j :: i < j < |q| ==> !q[j].Member?;
        assert p[i] == q[i];
        assert forall j :: i < j < |p| ==> !p[j].Member?;
      }
    }
  }

  /** In canonical order a record finds its own member as the last one, if it has one. */
  lemma OwnMemberIsLast(p: seq<Role>, r: Role, u: Name)
    requires Ordered(p + [r]) && BelongsTo(r, u)
    ensures Count(p, UniqueKey(u)) > 0 <==> LastUnique(p) == Some(u)
  {
    hide Count, LastUnique;
    CountFinds(p, UniqueKey(u));
    LastUniqueFinds(p);
    var q := p + [r];
    assert q[|p|] == r;
    if i :| 0 <= i < |p| && Hits(p[i], UniqueKey(u)) {
      var j :| 0 <= j < |p| && p[j].Member? && p[j].unique == LastUnique(p).value && forall k :: j < k < |p| ==> !p[k].Member?;
      assert q[i] == p[i] && q[j] == p[j];
      if i < j { assert q[j].unique == q[i].unique; }
    }
    if LastUnique(p) == Some(u) {
      var j :| 0 <= j < |p| && p[j].Member? && p[j].unique == u;
      assert Hits(p[j], UniqueKey(u));
    }
  }

  /** A member's pointer record comes before its properties. */
  lemma NewMemberBare(p: seq<Role>, r: Role)
    requires Ordered(p + [r]) && r.Member?
    ensures CooOf(p, r.unique) == None && Groups(p, r.unique) == {} && Count(p, CooKey(r.unique)) == 0
  {
    hide CooOf, Groups, Count;
    var q := p + [r];
    assert q[|p|] == r;
    forall i | 0 <= i < |p| ensures !((p[i].Coo? || p[i].Group?) && p[i].unique == r.unique) {
      assert q[i] == p[i];
    }
    NoProperties(p, r.unique);
  }

  // ---------------------------------------------------------------- one step of the scan

  lemma CountsGrown(p: seq<Role>, r: Role)
    ensures forall k :: Count(p + [r], k) == Count(p, k) + if Hits(r, k) then 1 else 0
  {
    forall k ensures Count(p + [r], k) == Count(p, k) + if Hits(r, k) then 1 else 0 {
      CountGrown(p, r, k);
    }
  }

  lemma SomeInZonesGrown(p: seq<Role>, r: Role)
    ensures SomeInZones(p + [r]) <==> SomeInZones(p) || InZones(r)
  {
    hide InZones;
    var q := p + [r];
    assert q[|p|] == r;
    if SomeInZones(p) {
      var i :| 0 <= i < |p| && InZones(p[i]);
      assert InZones(q[i]);
    }
    if SomeInZones(q) {
      var i :| 0 <= i < |q| && InZones(q[i]);
      if i < |p| { assert InZones(p[i]); }
    }
  }

  lemma VersionGrown(version: nat, p: seq<Role>, r: Role)
    requires Versioned(version, p)
    ensures !r.VersionTxt? ==> Versioned(version, p + [r])
    ensures r.VersionTxt? && version == 0 && VersionOf(r.text) != 0 ==> Versioned(VersionOf(r.text), p + [r])
  {
    hide Count;
    CountGrown(p, r, VersionKey);
  }

  lemma BasicsStep(st: State, p: seq<Role>, r: Role)
    requires Basics(st, p) && Step(st, r).Some?
    ensures Basics(Step(st, r).value, p + [r])
  {
    hide Count, SomeInZones, Versioned, LastUnique;
    CountsGrown(p, r);
    SomeInZonesGrown(p, r);
    VersionGrown(st.version, p, r);
    PropertiesGrown(p, r, []);
  }

  lemma MemberCounted(p: seq<Role>, u: Name, z: Zone)
    requires Member(u, z) in p
    ensures Count(p, UniqueKey(u)) > 0 && Count(p, ZoneKey(z)) > 0
  {
    hide Count;
    var i :| 0 <= i < |p| && p[i] == Member(u, z);
    assert Hits(p[i], UniqueKey(u)) && Hits(p[i], ZoneKey(z));
    CountFinds(p, UniqueKey(u));
    CountFinds(p, ZoneKey(z));
  }

  /** Records of no member change no member. */
  lemma StillStep(version: nat, p: seq<Role>, r: Role)
    requires !r.Member? && !r.Coo? && !r.Group?
    ensures Clash(version, p + [r]) <==> Clash(version, p)
    ensures forall m :: Describes(version, p + [r], m) <==> Describes(version, p, m)
  {
    hide Count, CooOf, Groups;
    CountsGrown(p, r);
    forall m ensures Describes(version, p + [r], m) <==> Describes(version, p, m) {
      if m.options.unique.Some? { PropertiesGrown(p, r, m.options.unique.value); }
    }
  }

  lemma MemberSeen(p: seq<Role>, u: Name, z: Zone)
    ensures Member(u, z) in p ==> SomeInZones(p)
  {
  }

  /** There are no members before the version is known. */
  lemma NoMembersYet(p: seq<Role>)
    requires !SomeInZones(p)
    ensures forall version :: !Clash(version, p) && forall m :: !Describes(version, p, m)
  {
    hide Count, MemberInfo;
    forall k: Key | k.UniqueKey? || k.ZoneKey? ensures Count(p, k) == 0 {
      CountFinds(p, k);
    }
    forall version: nat, m ensures !Describes(version, p, m) {
      if m.options.unique.Some? { MemberSeen(p, m.options.unique.value, m.zone); }
    }
  }

  lemma VersionStep(st: State, p: seq<Role>, r: Role)
    requires Matches(st, p) && r.VersionTxt? && Step(st, r).Some?
    ensures Matches(Step(st, r).value, p + [r])
  {
    hide Clash, Describes, LastUnique, Versioned, Count;
    BasicsStep(st, p, r);
    NoMembersYet(p);
    StillStep(st.version, p, r);
    StillStep(VersionOf(r.text), p, r);
  }

  lemma MemberClash(version: nat, p: seq<Role>, r: Role)
    requires Ordered(p + [r]) && r.Member?
    ensures Clash(version, p + [r]) <==>
              Clash(version, p) || LastUnique(p) == Some(r.unique) || Count(p, ZoneKey(r.zone)) > 0
  {
    hide Count, LastUnique, Ordered;
    CountsGrown(p, r);
    OwnMemberIsLast(p, r, r.unique);
    NewMemberBare(p, r);
  }

  lemma CooClash(version: nat, p: seq<Role>, r: Role)
    requires Ordered(p + [r]) && r.Coo?
    ensures Clash(version, p + [r]) <==>
              Clash(version, p) || (version == 2 && LastUnique(p) == Some(r.unique) && CooOf(p, r.unique).Some?)
  {
    hide Count, LastUnique, Ordered, CooOf;
    CountsGrown(p, r);
    OwnMemberIsLast(p, r, r.unique);
    CooCounted(p, r.unique);
  }

  lemma GroupClash(version: nat, p: seq<Role>, r: Role)
    requires r.Group?
    ensures Clash(version, p + [r]) <==> Clash(version, p)
  {
    hide Count;
    CountsGrown(p, r);
  }

  /** A new member joins the drafts. */
  lemma DraftJoins(version: nat, p: seq<Role>, r: Role, drafts: seq<CatalogInfo>)
    requires Ordered(p + [r]) && r.Member? && DraftsMatch(version, p, drafts) && LastUnique(p) != Some(r.unique)
    ensures DraftsMatch(version, p + [r], drafts + [CatalogInfo(r.zone, Options(None, Some(r.unique), {}, ""), [])])
  {
    hide Count, LastUnique, Ordered, CooOf, Groups;
    var q, u, bare := p + [r], r.unique, CatalogInfo(r.zone, Options(None, Some(r.unique), {}, ""), []);
    OwnMemberIsLast(p, r, u);
    NewMemberBare(p, r);
    PropertiesGrown(p, r, u);
    forall m ensures m in drafts + [bare] <==> Describes(version, q, m) {
      if m.options.unique.Some? { PropertiesGrown(p, r, m.options.unique.value); }
      if m.options.unique == Some(u) && Member(u, m.zone) in p { MemberCounted(p, u, m.zone); }
    }
    forall i | 0 <= i < |drafts| ensures drafts[i].options.unique != Some(u) {
      assert drafts[i] in drafts;
      if drafts[i].options.unique == Some(u) { MemberCounted(p, u, drafts[i].zone); }
    }
  }

  lemma MemberStepMatches(st: State, p: seq<Role>, r: Role)
    requires Matches(st, p) && Ordered(p + [r]) && r.Member? && Step(st, r).Some?
    ensures Matches(Step(st, r).value, p + [r])
  {
    hide Clash, DraftsMatch, LastUnique, Versioned, Count, Ordered;
    BasicsStep(st, p, r);
    MemberClash(st.version, p, r);
    if !Step(st, r).value.invalid { DraftJoins(st.version, p, r, Drafts(st)); }
  }

  /** A property goes to its own member and to no other. */
  lemma DraftGrows(version: nat, p: seq<Role>, r: Role, members: seq<CatalogInfo>, ci: CatalogInfo, grown: CatalogInfo)
    requires (r.Coo? || r.Group?) && DraftsMatch(version, p, members + [ci]) && ci.options.unique == Some(r.unique)
    requires grown == MemberInfo(version, p + [r], r.unique, ci.zone)
    ensures DraftsMatch(version, p + [r], members + [grown])
  {
    hide CooOf, Groups;
    var q, u, was := p + [r], r.unique, members + [ci];
    assert was[|members|] == ci && ci in was;
    assert Describes(version, p, ci);
    forall m ensures m in members + [grown] <==> Describes(version, q, m) {
      if m.options.unique.Some? { PropertiesGrown(p, r, m.options.unique.value); }
      assert m.options.unique != Some(u) ==> (m in was <==> Describes(version, q, m));
      if m.options.unique == Some(u) { OnlyDraft(version, p, members, ci, u, m.zone); }
    }
    OnlyDraft(version, p, members, ci, u, ci.zone);
    Replaced(members, ci, grown);
  }

  lemma Replaced(members: seq<CatalogInfo>, ci: CatalogInfo, grown: CatalogInfo)
    requires ci.options.unique == grown.options.unique
    requires forall i, j :: 0 <= i < j < |members + [ci]| ==>
               (members + [ci])[i].options.unique != (members + [ci])[j].options.unique
    ensures forall i, j :: 0 <= i < j < |members + [grown]| ==>
              (members + [grown])[i].options.unique != (members + [grown])[j].options.unique
  {
    var a, b := members + [ci], members + [grown];
    assert forall i :: 0 <= i < |a| ==> a[i].options.unique == b[i].options.unique;
  }

  lemma OnlyDraft(version: nat, p: seq<Role>, members: seq<CatalogInfo>, ci: CatalogInfo, u: Name, z: Zone)
    requires DraftsMatch(version, p, members + [ci]) && ci.options.unique == Some(u)
    ensures Member(u, z) in p <==> z == ci.zone
    ensures forall m :: m in members ==> m.options.unique != Some(u)
  {
    hide CooOf, Groups;
    var was, d := members + [ci], MemberInfo(version, p, u, z);
    assert was[|members|] == ci && ci in was;
    assert Describes(version, p, ci);
    forall m | m in members ensures m.options.unique != Some(u) {
      var i :| 0 <= i < |members| && members[i] == m;
      assert was[i] == m;
    }
    if Member(u, z) in p { assert Describes(version, p, d) && d in was; }
  }

  /** Properties of other members, or of none, change no draft. */
  lemma DraftsStay(version: nat, p: seq<Role>, r: Role, drafts: seq<CatalogInfo>)
    requires (r.Coo? || r.Group?) && DraftsMatch(version, p, drafts)
    requires version != 2 || Count(p, UniqueKey(r.unique)) == 0
    ensures DraftsMatch(version, p + [r], drafts)
  {
    hide CooOf, Groups, Count;
    forall m ensures Describes(version, p + [r], m) <==> Describes(version, p, m) {
      if m.options.unique.Some? {
        PropertiesGrown(p, r, m.options.unique.value);
        if Member(m.options.unique.value, m.zone) in p { MemberCounted(p, m.options.unique.value, m.zone); }
      }
    }
  }

  lemma CooStepMatches(st: State, p: seq<Role>, r: Role)
    requires Matches(st, p) && Ordered(p + [r]) && r.Coo? && Step(st, r).Some?
    ensures Matches(Step(st, r).value, p + [r])
  {
    hide Clash, LastUnique, Versioned, Count, Ordered, CooOf, Groups, SomeInZones;
    BasicsStep(st, p, r);
    CooClash(st.version, p, r);
    OwnMemberIsLast(p, r, r.unique);
    if !st.invalid {
      if st.version == 2 && st.unique == Some(r.unique) {
        CiDescribed(st, p);
        PropertiesGrown(p, r, r.unique);
        if st.ci.options.coo.None? {
          DraftGrows(2, p, r, st.members, st.ci, Step(st, r).value.ci);
        }
      } else {
        DraftsStay(st.version, p, r, Drafts(st));
      }
    }
  }

  lemma CiDescribed(st: State, p: seq<Role>)
    requires Matches(st, p) && !st.invalid && st.unique.Some?
    ensures st.ci == MemberInfo(st.version, p, st.unique.value, st.ci.zone)
  {
    hide Clash, LastUnique, Versioned, Count, CooOf, Groups, SomeInZones;
    assert st.ci in Drafts(st);
  }

  lemma GroupStepMatches(st: State, p: seq<Role>, r: Role)
    requires Matches(st, p) && Ordered(p + [r]) && r.Group? && Step(st, r).Some?
    ensures Matches(Step(st, r).value, p + [r])
  {
    hide Clash, LastUnique, Versioned, Count, Ordered, CooOf, Groups, SomeInZones;
    BasicsStep(st, p, r);
    GroupClash(st.version, p, r);
    OwnMemberIsLast(p, r, r.unique);
    if !st.invalid {
      if st.version == 2 && st.unique == Some(r.unique) {
        CiDescribed(st, p);
        PropertiesGrown(p, r, r.unique);
        DraftGrows(2, p, r, st.members, st.ci, Step(st, r).value.ci);
      } else {
        DraftsStay(st.version, p, r, Drafts(st));
      }
    }
  }

  lemma StepMatches(st: State, p: seq<Role>, r: Role)
    requires Matches(st, p) && Ordered(p + [r]) && Step(st, r).Some?
    ensures Matches(Step(st, r).value, p + [r])
  {
    hide Clash, Describes, LastUnique, Versioned, Count, Ordered, SomeInZones;
    if r.VersionTxt? { VersionStep(st, p, r); }
    else if r.Member? { MemberStepMatches(st, p, r); }
    else if r.Coo? { CooStepMatches(st, p, r); }
    else if r.Group? { GroupStepMatches(st, p, r); }
    else {
      BasicsStep(st, p, r);
      StillStep(st.version, p, r);
    }
  }

  lemma OrderedPrefix(p: seq<Role>, n: nat)
    requires Ordered(p) && n <= |p|
    ensures Ordered(p[..n])
  {
  }

  lemma {:induction false} TwoHits(p: seq<Role>, i: nat, j: nat, k: Key)
    requires i < j < |p| && Hits(p[i], k) && Hits(p[j], k)
    ensures Count(p, k) >= 2
  {
    var q := p[..|p| - 1];
    if j < |q| {
      TwoHits(q, i, j, k);
    } else {
      CountFinds(q, k);
      assert Hits(q[i], k);
    }
  }

  /** One version record, so one version. */
  lemma OneVersion(p: seq<Role>, a: string, b: string)
    requires Count(p, VersionKey) == 1 && VersionTxt(a) in p && VersionTxt(b) in p
    ensures a == b
  {
    hide Count;
    var i :| 0 <= i < |p| && p[i] == VersionTxt(a);
    var j :| 0 <= j < |p| && p[j] == VersionTxt(b);
    if i < j { TwoHits(p, i, j, VersionKey); }
    if j < i { TwoHits(p, j, i, VersionKey); }
  }

  lemma VersionUnique(v: nat, w: nat, p: seq<Role>)
    requires Versioned(v, p) && Versioned(w, p)
    ensures v == w
  {
    hide Count;
    if v != 0 && w != 0 { OneVersion(p, if v == 1 then "\"1\"" else "\"2\"", if w == 1 then "\"1\"" else "\"2\""); }
  }

  /** Where the scan aborts the zone is invalid whatever follows. */
  lemma AbortRejects(st: State, p: seq<Role>, i: nat, version: nat)
    requires Ordered(p) && i < |p| && Matches(st, p[..i]) && Step(st, p[i]).None?
    ensures !Accepts(version, p)
  {
    hide Clash, DraftsMatch, LastUnique, Count;
    CountFinds(p[..i], VersionKey);
    CountFinds(p, VersionKey);
    if p[i].VersionTxt? {
      if st.version != 0 {
        var j :| 0 <= j < |p[..i]| && Hits(p[..i][j], VersionKey);
        TwoHits(p, j, i, VersionKey);
      } else if version != 0 && Versioned(version, p) {
        OneVersion(p, p[i].text, if version == 1 then "\"1\"" else "\"2\"");
      }
    } else {
      forall j | 0 <= j < |p| ensures !Hits(p[j], VersionKey) {
        if j < i { assert p[..i][j] == p[j]; }
      }
    }
  }

  /** At the end of the records the scan knows whether the zone is valid. */
  lemma EndDecides(st: State, p: seq<Role>, version: nat)
    requires Matches(st, p)
    ensures Accepts(version, p) <==> version == st.version && st.hasSoa && st.version != 0 && !st.invalid
  {
    hide Clash, DraftsMatch, LastUnique, Versioned, Count;
    if Versioned(version, p) { VersionUnique(version, st.version, p); }
  }

  lemma StartMatches()
    ensures Matches(START, [])
  {
    assert forall k :: Count([], k) == 0;
    assert !Clash(0, []);
    assert forall m :: !Describes(0, [], m);
  }

  // ---------------------------------------------------------------- the order of the records does not matter

  /** The same roles as often. */
  ghost predicate SameRoles(p: seq<Role>, q: seq<Role>) {
    (forall r :: r in p <==> r in q) && (forall k :: Count(p, k) == Count(q, k))
  }

  lemma AcceptsSame(version: nat, p: seq<Role>, q: seq<Role>)
    requires SameRoles(p, q)
    ensures Accepts(version, p) <==> Accepts(version, q)
  {
    hide Count;
  }

  lemma {:induction false} CooFound(p: seq<Role>, u: Name)
    ensures CooOf(p, u).Some? ==> Coo(u, CooOf(p, u).value) in p
    ensures CooOf(p, u).None? ==> forall t :: Coo(u, t) !in p
  {
    if p != [] {
      CooFound(p[..|p| - 1], u);
      assert p == p[..|p| - 1] + [p[|p| - 1]];
    }
  }

  lemma OneCoo(p: seq<Role>, u: Name, a: Name, b: Name)
    requires Count(p, CooKey(u)) <= 1 && Coo(u, a) in p && Coo(u, b) in p
    ensures a == b
  {
    hide Count;
    var i :| 0 <= i < |p| && p[i] == Coo(u, a);
    var j :| 0 <= j < |p| && p[j] == Coo(u, b);
    if i < j { TwoHits(p, i, j, CooKey(u)); }
    if j < i { TwoHits(p, j, i, CooKey(u)); }
  }

  lemma {:induction false} GroupsFound(p: seq<Role>, u: Name, text: string)
    ensures text in Groups(p, u) <==> Group(u, text) in p
  {
    if p != [] {
      GroupsFound(p[..|p| - 1], u, text);
      assert p == p[..|p| - 1] + [p[|p| - 1]];
    }
  }

  lemma GroupsSame(p: seq<Role>, q: seq<Role>, u: Name)
    requires SameRoles(p, q)
    ensures Groups(p, u) == Groups(q, u)
  {
    hide Groups, Count;
    forall text ensures text in Groups(p, u) <==> text in Groups(q, u) {
      GroupsFound(p, u, text);
      GroupsFound(q, u, text);
    }
  }

  lemma CooSame(p: seq<Role>, q: seq<Role>, u: Name)
    requires SameRoles(p, q) && Count(p, CooKey(u)) <= 1
    ensures CooOf(p, u) == CooOf(q, u)
  {
    hide CooOf, Count;
    CooFound(p, u);
    CooFound(q, u);
    if CooOf(p, u).Some? && CooOf(q, u).Some? { OneCoo(p, u, CooOf(p, u).value, CooOf(q, u).value); }
  }

  lemma DescribesSame(version: nat, p: seq<Role>, q: seq<Role>, m: CatalogInfo)
    requires SameRoles(p, q) && !Clash(version, p)
    ensures Describes(version, p, m) <==> Describes(version, q, m)
  {
    hide CooOf, Count, Groups;
    if m.options.unique.Some? && Member(m.options.unique.value, m.zone) in p {
      var u := m.options.unique.value;
      MemberCounted(p, u, m.zone);
      if version == 2 {
        CooSame(p, q, u);
        GroupsSame(p, q, u);
      }
    }
  }

  lemma DraftsSame(version: nat, p: seq<Role>, q: seq<Role>, drafts: seq<CatalogInfo>)
    requires SameRoles(p, q) && !Clash(version, p) && DraftsMatch(version, p, drafts)
    ensures DraftsMatch(version, q, drafts)
  {
    hide SameRoles, Clash, Describes;
    forall m ensures m in drafts <==> Describes(version, q, m) {
      DescribesSame(version, p, q, m);
    }
  }

  /** The members of a valid catalog are as many zones. */
  lemma DraftsDistinct(version: nat, p: seq<Role>, drafts: seq<CatalogInfo>)
    requires !Clash(version, p) && DraftsMatch(version, p, drafts)
    ensures Distinct(drafts)
  {
    hide CooOf, Count, Groups;
    forall i, j | 0 <= i < j < |drafts| ensures drafts[i].zone != drafts[j].zone {
      var a, b := drafts[i], drafts[j];
      assert a in drafts && b in drafts;
      if a.zone == b.zone {
        var s :| 0 <= s < |p| && p[s] == Member(a.options.unique.value, a.zone);
        var t :| 0 <= t < |p| && p[t] == Member(b.options.unique.value, b.zone);
        if s < t { TwoHits(p, s, t, ZoneKey(a.zone)); } else { TwoHits(p, t, s, ZoneKey(a.zone)); }
      }
    }
  }

  // ---------------------------------------------------------------- sorting

  predicate Before(a: Record, b: Record) {
    if SameName(a.qname, b.qname) then TypeCode(a.data) < TypeCode(b.data) else CompareNames(a.qname, b.qname) < 0
  }

  function InsertRecord(e: Record, s: seq<Record>): (r: seq<Record>)
    ensures |r| == |s| + 1 && forall m :: m in r <==> m == e || m in s
  {
    if s == [] || Before(e, s[0]) then [e] + s else [s[0]] + InsertRecord(e, s[1..])
  }

  function SortRecords(s: seq<Record>): (r: seq<Record>)
    ensures |r| == |s| && forall m :: m in r <==> m in s
  {
    if s == [] then [] else InsertRecord(s[0], SortRecords(s[1..]))
  }

  lemma {:induction false} InsertRecordSorted(e: Record, s: seq<Record>)
    requires SortedNames(s)
    ensures SortedNames(InsertRecord(e, s))
  {
    hide CompareNames, SameName;
    if s != [] {
      NamesZero(e.qname, s[0].qname);
      NamesAntisymmetric(e.qname, s[0].qname);
      if Before(e, s[0]) {
        forall j | 0 <= j < |s| ensures CompareNames(e.qname, s[j].qname) <= 0 {
          if j > 0 { NamesTransitive(e.qname, s[0].qname, s[j].qname); }
        }
      } else {
        InsertRecordSorted(e, s[1..]);
        var r := InsertRecord(e, s[1..]);
        forall j | 0 <= j < |r| ensures CompareNames(s[0].qname, r[j].qname) <= 0 {
          assert r[j] in r;
        }
      }
    }
  }

  lemma {:induction false} SortRecordsSorted(s: seq<Record>)
    ensures SortedNames(SortRecords(s))
  {
    if s != [] {
      SortRecordsSorted(s[1..]);
      InsertRecordSorted(s[0], SortRecords(s[1..]));
    }
  }

  /** Sorting keeps every record as often as it came. */
  lemma {:induction false} SortPermutes(s: seq<Record>)
    ensures multiset(SortRecords(s)) == multiset(s)
  {
    if s != [] {
      SortPermutes(s[1..]);
      InsertPermutes(s[0], SortRecords(s[1..]));
      assert s == [s[0]] + s[1..];
    }
  }

  lemma {:induction false} InsertPermutes(e: Record, s: seq<Record>)
    ensures multiset(InsertRecord(e, s)) == multiset{e} + multiset(s)
  {
    hide Before;
    if s != [] {
      assert s == [s[0]] + s[1..];
      InsertPermutes(e, s[1..]);
    }
  }

  /** Records with the same name come by type. */
  lemma {:induction false} SortByType(s: seq<Record>)
    ensures ByType(SortRecords(s))
  {
    if s != [] {
      SortByType(s[1..]);
      SortRecordsSorted(s[1..]);
      InsertByType(s[0], SortRecords(s[1..]));
    }
  }

  ghost predicate ByType(s: seq<Record>) {
    forall i, j :: 0 <= i < j < |s| && SameName(s[i].qname, s[j].qname) ==> TypeCode(s[i].data) <= TypeCode(s[j].data)
  }

  lemma {:induction false} InsertByType(e: Record, s: seq<Record>)
    requires SortedNames(s) && ByType(s)
    ensures ByType(InsertRecord(e, s))
  {
    hide CompareNames, SameName, TypeCode;
    if s != [] {
      if Before(e, s[0]) {
        forall j | 0 <= j < |s| && SameName(e.qname, s[j].qname) ensures TypeCode(e.data) <= TypeCode(s[j].data) {
          SameBetween(e, s, j);
        }
      } else {
        InsertByType(e, s[1..]);
        var r := InsertRecord(e, s[1..]);
        forall j | 0 <= j < |r| && SameName(s[0].qname, r[j].qname) ensures TypeCode(s[0].data) <= TypeCode(r[j].data) {
          assert r[j] in r;
          if r[j] == e {
            SameFlipped(s[0].qname, e.qname);
          } else {
            var k :| 0 <= k < |s[1..]| && s[1..][k] == r[j];
            assert s[k + 1] == r[j];
          }
        }
      }
    }
  }

  lemma SameFlipped(a: Name, b: Name)
    ensures SameName(a, b) <==> SameName(b, a)
  {
  }

  /** A record that sorts before the first one and shares its name with a later one shares it with the first. */
  lemma SameBetween(e: Record, s: seq<Record>, j: nat)
    requires SortedNames(s) && ByType(s) && j < |s| && Before(e, s[0]) && SameName(e.qname, s[j].qname)
    ensures TypeCode(e.data) <= TypeCode(s[j].data)
  {
    hide CompareNames, TypeCode, SameName;
    var a, b, x := e.qname, s[0].qname, s[j].qname;
    NamesZero(a, b);
    NamesZero(a, x);
    NamesZero(b, x);
    NamesAntisymmetric(a, x);
    if j > 0 {
      NamesTransitive(b, x, a);
      NamesAntisymmetric(a, b);
    }
  }

  lemma {:induction false} CountConcat(p: seq<Role>, q: seq<Role>, k: Key)
    ensures Count(p + q, k) == Count(p, k) + Count(q, k)
  {
    if q == [] {
      assert p + q == p;
    } else {
      var n := |q| - 1;
      CountConcat(p, q[..n], k);
      CountGrown(p + q[..n], q[n], k);
      assert p + q == p + q[..n] + [q[n]];
    }
  }

  lemma CountHead(p: seq<Role>, k: Key)
    requires p != []
    ensures Count(p, k) == (if Hits(p[0], k) then 1 else 0) + Count(p[1..], k)
  {
    hide Hits;
    assert p == [p[0]] + p[1..];
    CountConcat([p[0]], p[1..], k);
    assert [p[0]] == [] + [p[0]];
    CountGrown([], p[0], k);
  }

  lemma {:induction false} InsertCounts(zone: Name, e: Record, s: seq<Record>, k: Key)
    ensures Count(Roles(zone, InsertRecord(e, s)), k) == Count(Roles(zone, [e] + s), k)
  {
    hide RoleOf, Before, Count, Hits;
    if s != [] && !Before(e, s[0]) {
      InsertCounts(zone, e, s[1..], k);
      CountHead(Roles(zone, InsertRecord(e, s)), k);
      assert Roles(zone, InsertRecord(e, s))[1..] == Roles(zone, InsertRecord(e, s[1..]));
      CountHead(Roles(zone, [e] + s), k);
      assert Roles(zone, [e] + s)[1..] == Roles(zone, s);
      CountHead(Roles(zone, s), k);
      assert Roles(zone, s)[1..] == Roles(zone, s[1..]);
      CountHead(Roles(zone, [e] + s[1..]), k);
      assert Roles(zone, [e] + s[1..])[1..] == Roles(zone, s[1..]);
    }
  }

  lemma {:induction false} SortCounts(zone: Name, s: seq<Record>, k: Key)
    ensures Count(Roles(zone, SortRecords(s)), k) == Count(Roles(zone, s), k)
  {
    hide RoleOf, Count, Hits;
    if s != [] {
      var t := SortRecords(s[1..]);
      SortCounts(zone, s[1..], k);
      InsertCounts(zone, s[0], t, k);
      CountHead(Roles(zone, [s[0]] + t), k);
      assert Roles(zone, [s[0]] + t)[1..] == Roles(zone, t);
      CountHead(Roles(zone, s), k);
      assert Roles(zone, s)[1..] == Roles(zone, s[1..]);
    }
  }

  /** Sorting the records keeps their roles. */
  lemma SortSameRoles(zone: Name, s: seq<Record>)
    ensures SameRoles(Roles(zone, SortRecords(s)), Roles(zone, s))
  {
    hide RoleOf, Count, Hits, Roles;
    forall x ensures x in Roles(zone, SortRecords(s)) <==> x in Roles(zone, s) {
      RolesIn(zone, SortRecords(s), x);
      RolesIn(zone, s, x);
    }
    forall k ensures Count(Roles(zone, SortRecords(s)), k) == Count(Roles(zone, s), k) {
      SortCounts(zone, s, k);
    }
  }

  // ---------------------------------------------------------------- the loop

  /** A record below zones.<zone>. */
  method ScanZones(st: State, rel: Name, d: Data) returns (next: State)
    requires st.relSet
    ensures Some(next) == Step(st, ZonesRole(rel, d))
  {
    hide LowerName, Unquoted, ZoneOf;
    next := st;
    if |rel| == 1 && d.PTR? {
      if st.unique.Some? {
        if rel != st.unique.value {
          next := next.(members := next.members + [next.ci]);
        } else {
          next := next.(invalid := true);
        }
      }
      var zone := ZoneOf(d.target);
      next := next.(unique := Some(rel), ci := NO_DRAFT.(zone := zone, options := NO_DRAFT.options.(unique := Some(rel))));
      if zone in next.dupcheck {
        next := next.(invalid := true);
      }
      next := next.(dupcheck := next.dupcheck + {zone});
    } else if st.version == 2 {
      var unique := if st.unique.Some? then st.unique.value else [];
      var opts := st.ci.options;
      if rel == [COO] + unique && d.PTR? {
        if opts.coo.Some? {
          next := next.(invalid := true);
        } else {
          next := next.(ci := next.ci.(options := opts.(coo := Some(LowerName(d.target)))));
        }
      } else if rel == [GROUP] + unique && d.TXT? {
        next := next.(ci := next.ci.(options := opts.(group := opts.group + {Unquoted(d.text)})));
      }
    }
  }

  /** One record; None where the scan gives up. */
  method ScanRecord(zone: Name, st: State, r: Record) returns (next: Option<State>)
    ensures next == Step(st, RoleOf(zone, r))
  {
    hide PartOf, SameName, MemberStep, CooStep, GroupStep;
    next := Some(st);
    if SameName(r.qname, zone) {
      if r.data.SOA? { next := Some(st.(hasSoa := true)); }
    } else if SameName(r.qname, VersionName(zone)) && r.data.TXT? {
      if st.version != 0 { return None; }
      if r.data.text == "\"1\"" {
        next := Some(st.(version := 1));
      } else if r.data.text == "\"2\"" {
        next := Some(st.(version := 2));
      } else {
        return None;
      }
    } else if PartOf(r.qname, ZonesName(zone)) {
      if !st.relSet && st.version == 0 { return None; }
      var s := ScanZones(st.(relSet := true), RelativeName(zone, r.qname), r.data);
      RelSetEarly(st, ZonesRole(RelativeName(zone, r.qname), r.data));
      next := Some(s);
    }
  }

  lemma RelSetEarly(st: State, r: Role)
    requires InZones(r) && (st.relSet || st.version != 0)
    ensures Step(st, r) == Step(st.(relSet := true), r)
  {
  }

  datatype Reading = Accepted(version: nat, members: seq<CatalogInfo>) | Rejected | NameTooLong

  /** The apex SOA and NS records stay; the other records of the first n become disabled. */
  function Marked(zone: Name, rs: seq<Record>, n: nat): (r: seq<Record>)
    ensures |r| == |rs|
  {
    seq(|rs|, i requires 0 <= i < |rs| =>
      if i < n && RoleOf(zone, rs[i]) !in {ApexSoa, ApexNs} then rs[i].(disabled := true) else rs[i])
  }

  lemma MarkedGrown(zone: Name, rs: seq<Record>, n: nat)
    requires n < |rs|
    ensures Marked(zone, rs, n)[n] == rs[n]
    ensures Marked(zone, rs, n + 1) ==
              if RoleOf(zone, rs[n]) in {ApexSoa, ApexNs} then Marked(zone, rs, n)
              else Marked(zone, rs, n)[n := rs[n].(disabled := true)]
  {
    hide RoleOf;
  }

  lemma MarkedStart(zone: Name, rs: seq<Record>)
    ensures Marked(zone, rs, 0) == rs
  {
    hide RoleOf;
  }

  lemma RejectSame(zone: Name, rrs: seq<Record>)
    requires forall v :: !Accepts(v, Roles(zone, SortRecords(rrs)))
    ensures forall v :: !Accepts(v, Roles(zone, rrs))
  {
    hide Accepts, SameRoles, Roles, SortRecords;
    SortSameRoles(zone, rrs);
    forall v ensures !Accepts(v, Roles(zone, rrs)) { AcceptsSame(v, Roles(zone, SortRecords(rrs)), Roles(zone, rrs)); }
  }

  lemma ApexRoles(zone: Name, r: Record)
    ensures RoleOf(zone, r) in {ApexSoa, ApexNs} <==> SameName(r.qname, zone) && (r.data.SOA? || r.data.NS?)
  {
    hide SameName, PartOf;
  }

  lemma ApexNeverAborts(zone: Name, st: State, r: Record)
    requires SameName(r.qname, zone)
    ensures Step(st, RoleOf(zone, r)).Some?
  {
    hide SameName, PartOf, MemberStep, CooStep, GroupStep;
  }

  lemma Advance(zone: Name, rs: seq<Record>, i: nat, st: State)
    requires SortedNames(rs) && i < |rs| && Matches(st, Roles(zone, rs)[..i])
    ensures var next := Step(st, RoleOf(zone, rs[i]));
            && (next.Some? ==> Matches(next.value, Roles(zone, rs)[..i + 1]))
            && (next.None? ==> forall v :: !Accepts(v, Roles(zone, rs)))
  {
    hide Step, Matches, Ordered, Accepts, SortedNames, RoleOf;
    var p := Roles(zone, rs);
    CanonicalOrder(zone, rs);
    OrderedPrefix(p, i + 1);
    assert p[..i + 1] == p[..i] + [p[i]];
    if Step(st, p[i]).Some? {
      StepMatches(st, p[..i], p[i]);
    } else {
      forall v ensures !Accepts(v, p) { AbortRejects(st, p, i, v); }
    }
  }

  /** What the scan says about the sorted records holds of the records as they came. */
  lemma Conclude(zone: Name, rrs: seq<Record>, st: State)
    requires Matches(st, Roles(zone, SortRecords(rrs)))
    ensures st.hasSoa && st.version != 0 && !st.invalid ==>
              && Accepts(st.version, Roles(zone, rrs))
              && DraftsMatch(st.version, Roles(zone, rrs), Drafts(st)) && Distinct(Drafts(st))
    ensures !(st.hasSoa && st.version != 0 && !st.invalid) ==> forall v :: !Accepts(v, Roles(zone, rrs))
  {
    hide Basics, DraftsMatch, Clash, SameRoles, Roles, Distinct, Versioned, SortRecords;
    var p, q := Roles(zone, SortRecords(rrs)), Roles(zone, rrs);
    SortSameRoles(zone, rrs);
    forall v: nat ensures Accepts(v, q) <==> v == st.version && st.hasSoa && st.version != 0 && !st.invalid {
      EndDecides(st, p, v);
      AcceptsSame(v, p, q);
    }
    if !st.invalid {
      DraftsSame(st.version, p, q, Drafts(st));
      DraftsDistinct(st.version, p, Drafts(st));
    }
  }

  /**
   Reads a catalog: accepted iff the records form a valid one, with the members the records make; all but the apex
   SOA and NS records are disabled.
   */
  method Process(zone: Name, rrs: seq<Record>) returns (res: Reading, out: seq<Record>)
    ensures res.NameTooLong? <==> WireLength(VersionName(zone)) > MAX_NAME_LENGTH && exists r :: r in rrs && !SameName(r.qname, zone)
    ensures res.Accepted? ==>
              && ValidCatalog(zone, rrs, res.version) && MembersAre(zone, rrs, res.version, res.members)
              && Distinct(res.members) && DisabledUpTo(zone, SortRecords(rrs), |rrs|, out)
    ensures res.Rejected? ==> forall v :: !ValidCatalog(zone, rrs, v)
    ensures exists n :: DisabledUpTo(zone, SortRecords(rrs), n, out)
  {
    hide DisabledUpTo, ValidCatalog, MembersAre;
    var n;
    res, out, n := ScanCatalog(zone, rrs);
    MarkedIs(zone, SortRecords(rrs), n);
    assert DisabledUpTo(zone, SortRecords(rrs), n, out);
    forall v ensures Accepts(v, Roles(zone, rrs)) <==> ValidCatalog(zone, rrs, v) { AcceptsRecords(zone, rrs, v); }
    if res.Accepted? { DraftsAre(zone, rrs, res.version, res.members); }
  }

  /** Of the first n records all but the SOA and NS records at the apex are disabled. */
  ghost predicate DisabledUpTo(zone: Name, rs: seq<Record>, n: int, out: seq<Record>) {
    && 0 <= n <= |rs| == |out|
    && forall i :: 0 <= i < |rs| ==>
         out[i] == if i < n && !(SameName(rs[i].qname, zone) && (rs[i].data.SOA? || rs[i].data.NS?))
                   then rs[i].(disabled := true) else rs[i]
  }

  lemma MarkedIs(zone: Name, rs: seq<Record>, n: nat)
    requires n <= |rs|
    ensures DisabledUpTo(zone, rs, n, Marked(zone, rs, n))
  {
    hide RoleOf, SameName;
    forall i | 0 <= i < |rs|
      ensures RoleOf(zone, rs[i]) in {ApexSoa, ApexNs} <==> SameName(rs[i].qname, zone) && (rs[i].data.SOA? || rs[i].data.NS?)
    {
      ApexRoles(zone, rs[i]);
    }
  }

  lemma DraftsAre(zone: Name, rrs: seq<Record>, version: nat, members: seq<CatalogInfo>)
    requires Accepts(version, Roles(zone, rrs)) && DraftsMatch(version, Roles(zone, rrs), members) && Distinct(members)
    ensures MembersAre(zone, rrs, version, members)
  {
    hide Accepts, Describes, MemberFrom, Roles;
    forall m ensures m in members <==> exists r, u :: MemberFrom(zone, rrs, version, r, u, m) {
      DescribesIs(zone, rrs, version, m);
    }
  }

  /** The scan, by the roles of the records; n is the number of records it got through. */
  method ScanCatalog(zone: Name, rrs: seq<Record>) returns (res: Reading, out: seq<Record>, n: nat)
    ensures res.NameTooLong? <==> WireLength(VersionName(zone)) > MAX_NAME_LENGTH && exists r :: r in rrs && !SameName(r.qname, zone)
    ensures res.Accepted? ==>
              && Accepts(res.version, Roles(zone, rrs))
              && DraftsMatch(res.version, Roles(zone, rrs), res.members) && Distinct(res.members) && n == |rrs|
    ensures res.Rejected? ==> forall v :: !Accepts(v, Roles(zone, rrs))
    ensures n <= |rrs| && out == Marked(zone, SortRecords(rrs), n)
  {
    hide CompareNames, SameName, RoleOf, Step, Matches, Accepts, DraftsMatch, Distinct, Marked, WireLength, Roles,
         SortRecords, SortedNames;
    var rs := SortRecords(rrs);
    SortRecordsSorted(rrs);
    StartMatches();
    var st, i := START, 0;
    out := rs;
    n := 0;
    assert out == Marked(zone, rs, 0) by { MarkedStart(zone, rs); }
    assert Roles(zone, rs)[..0] == [];
    while i < |rs|
      invariant 0 <= i <= |rs| && n == i && out == Marked(zone, rs, i)
      invariant Matches(st, Roles(zone, rs)[..i])
      invariant WireLength(VersionName(zone)) > MAX_NAME_LENGTH ==> forall j :: 0 <= j < i ==> SameName(rs[j].qname, zone)
    {
      var r := rs[i];
      if !SameName(r.qname, zone) && WireLength(VersionName(zone)) > MAX_NAME_LENGTH {
        assert r in rs;
        return NameTooLong, out, n;
      }
      Advance(zone, rs, i, st);
      var next := ScanRecord(zone, st, r);
      if next.None? {
        if SameName(r.qname, zone) { ApexNeverAborts(zone, st, r); }
        RejectSame(zone, rrs);
        return Rejected, out, n;
      }
      st := next.value;
      MarkedGrown(zone, rs, i);
      ApexRoles(zone, r);
      if !(SameName(r.qname, zone) && (r.data.SOA? || r.data.NS?)) {
        out := out[i := r.(disabled := true)];
      }
      i, n := i + 1, n + 1;
    }
    assert Roles(zone, rs)[..i] == Roles(zone, rs);
    Conclude(zone, rrs, st);
    res := if !st.hasSoa || st.version == 0 || st.invalid then Rejected else Accepted(st.version, Drafts(st));
  }

  /** A valid catalog has a record outside its apex. */
  lemma ValidHasVersion(zone: Name, rrs: seq<Record>, version: nat)
    requires ValidCatalog(zone, rrs, version)
    ensures exists r :: r in rrs && !SameName(r.qname, zone)
  {
    var i :| 0 <= i < |rrs| && OnlyVersion(zone, rrs, version, i);
    OtherLength(rrs[i].qname, [VERSION] + zone, zone);
    assert rrs[i] in rrs;
  }

  /** catalogProcess: a valid catalog is merged into the backend, any other leaves it alone. */
  method UpdateCatalog(ctx: Context, rrs: seq<Record>, stored: seq<Zone>, backend: Backend)
    returns (ok: bool, out: seq<Record>, w: Work)
    requires Enumerates(stored, backend)
    ensures ok <==> && !OwnMember(ctx, backend) && WireLength(VersionName(ctx.zone.name)) <= MAX_NAME_LENGTH
                    && exists v :: ValidCatalog(ctx.zone.name, rrs, v)
    ensures ok ==> exists v, members :: Updated(ctx, rrs, backend, w, v, members)
    ensures !ok ==> w == Work(backend, map[], [])
  {
    hide ValidCatalog, MembersAre, DisabledUpTo, Distinct, Enumerates, OwnMember, ListsMembers, Outcome, WireLength, SameName;
    var res;
    res, out := Process(ctx.zone.name, rrs);
    ok, w := false, Work(backend, map[], []);
    if res.Accepted? {
      ValidHasVersion(ctx.zone.name, rrs, res.version);
      var fromDB := GetMembers(ctx, stored, backend);
      if fromDB.Some? {
        ok := true;
        w := Diff(ctx, res.members, fromDB.value, backend);
        assert Updated(ctx, rrs, backend, w, res.version, res.members);
      }
    }
  }

  /** The backend took over the members the catalog's records make. */
  ghost predicate Updated(ctx: Context, rrs: seq<Record>, before: Backend, w: Work, version: nat, members: seq<CatalogInfo>) {
    && ValidCatalog(ctx.zone.name, rrs, version) && MembersAre(ctx.zone.name, rrs, version, members)
    && Distinct(members) && Outcome(ctx, members, before, w)
  }

  /** Afterwards a zone is a member iff a pointer record of the catalog names it and it could be taken in. */
  lemma MembersFollowRecords(ctx: Context, rrs: seq<Record>, before: Backend, w: Work, version: nat,
                             members: seq<CatalogInfo>, z: Zone)
    requires Updated(ctx, rrs, before, w, version, members)
    ensures MemberIn(ctx, w.backend, z) <==>
              exists r, u, m ::
                MemberFrom(ctx.zone.name, rrs, version, r, u, m) && m.zone == z && Admitted(ctx, m, Get(before, z))
  {
    hide ValidCatalog, Outcome, MemberFrom, Admitted, HasProperties, TakenUnlisted;
    MembersAfterRun(ctx, members, before, w, z);
    InfoFinds(members, z);
    if MemberIn(ctx, w.backend, z) {
      var m := Info(members, z).value;
      assert m in members;
    }
    if r, u, m :| MemberFrom(ctx.zone.name, rrs, version, r, u, m) && m.zone == z && Admitted(ctx, m, Get(before, z)) {
      assert m in members;
      InfoOf(members, m);
    }
  }
}
