/**
 Bringing the member zones of a catalog in line with a transferred catalog
 (section 5 of RFC 9432): both member lists are sorted and merged, and the backend is
 edited as the merge goes along.

 The backend maps a zone to its record.  Transactions are left out: nothing here throws.
 */
module CatalogDiff {
  import opened Results
  import opened Wire
  import opened ZoneNames

  datatype Kind = Native | Primary | Secondary | Producer | Consumer

  /** The consumer part of a zone's options; `rest` stands for the other members of the document. */
  datatype Options = Options(coo: Option<Name>, unique: Option<Name>, group: set<string>, rest: string)

  datatype CatalogInfo = CatalogInfo(zone: Zone, options: Options, primaries: seq<string>)

  datatype Domain = Domain(catalog: Option<Zone>, kind: Kind, options: Options, primaries: seq<string>)

  type Backend = map<Zone, Domain>

  datatype Context = Context(zone: Zone, primaries: seq<string>, memberGroup: string)

  function Get(b: Backend, z: Zone): Option<Domain> {
    if z in b then Some(b[z]) else None
  }

  /** The list entry for a zone. */
  function Info(s: seq<CatalogInfo>, z: Zone): Option<CatalogInfo> {
    if s == [] then None else if s[0].zone == z then Some(s[0]) else Info(s[1..], z)
  }

  predicate Carries(ctx: Context, d: Domain) {
    d.catalog == Some(ctx.zone)
  }

  predicate ListedKind(k: Kind) {
    k.Secondary? || k.Consumer?
  }

  /** The backend lists the zone as a member: it carries the catalog and is a secondary of some kind. */
  predicate IsMember(ctx: Context, d: Domain) {
    Carries(ctx, d) && ListedKind(d.kind)
  }

  /** The stored change-of-ownership property names this catalog. */
  predicate HandedOver(ctx: Context, d: Domain) {
    d.options.coo == Some(ctx.zone.name)
  }

  /** The groups the backend reports: a member that is a catalog itself always shows the member group. */
  function ShownGroup(ctx: Context, d: Domain): set<string> {
    if d.kind.Consumer? then d.options.group + {ctx.memberGroup} else d.options.group
  }

  /** The list entry the backend reports for a member. */
  function Entry(ctx: Context, z: Zone, d: Domain): CatalogInfo {
    CatalogInfo(z, d.options.(group := ShownGroup(ctx, d)), d.primaries)
  }

  // ---------------------------------------------------------------- what one zone turns into

  datatype Fate = Untouched | Refreshed | Moved | Created | Dropped

  function FateOf(ctx: Context, x: Option<CatalogInfo>, d: Option<Domain>): Fate {
    if x.None? then
      if d.Some? && IsMember(ctx, d.value) then Dropped else Untouched
    else if d.None? then Created
    else if IsMember(ctx, d.value) then
      if d.value.options.unique.None? || x.value.options.unique == d.value.options.unique then Refreshed else Created
    else if !Carries(ctx, d.value) && HandedOver(ctx, d.value) then
      if x.value.options.unique == d.value.options.unique then Moved else Created
    else Untouched
  }

  predicate InMemberGroup(ctx: Context, group: set<string>) {
    ctx.memberGroup != "" && ctx.memberGroup in group
  }

  function KindFor(ctx: Context, group: set<string>): Kind {
    if InMemberGroup(ctx, group) then Consumer else Secondary
  }

  function CreatedDomain(ctx: Context, x: CatalogInfo): Domain {
    Domain(Some(ctx.zone), KindFor(ctx, x.options.group), x.options, ctx.primaries)
  }

  /** The transfer says nothing about the member that the backend does not show already. */
  predicate Agrees(ctx: Context, x: CatalogInfo, d: Domain) {
    && d.options.unique.Some? && x.options.unique == d.options.unique
    && x.options.coo == d.options.coo && x.options.group == ShownGroup(ctx, d)
  }

  function RefreshedDomain(ctx: Context, x: CatalogInfo, d: Domain): Domain {
    var retype := InMemberGroup(ctx, x.options.group) != InMemberGroup(ctx, ShownGroup(ctx, d));
    d.(options := if Agrees(ctx, x, d) then d.options else x.options.(rest := d.options.rest),
       kind := if retype then KindFor(ctx, x.options.group) else d.kind,
       primaries := ctx.primaries)
  }

  function MovedDomain(ctx: Context, x: CatalogInfo, d: Domain): Domain {
    d.(primaries := ctx.primaries, options := x.options, catalog := Some(ctx.zone))
  }

  function Target(ctx: Context, x: Option<CatalogInfo>, d: Option<Domain>): Option<Domain> {
    match FateOf(ctx, x, d)
    case Untouched => d
    case Refreshed => Some(RefreshedDomain(ctx, x.value, d.value))
    case Moved => Some(MovedDomain(ctx, x.value, d.value))
    case Created => Some(CreatedDomain(ctx, x.value))
    case Dropped => None
  }

  /** A transfer is wanted for zones that are new here or change their primaries. */
  predicate NeedsTransfer(ctx: Context, x: Option<CatalogInfo>, d: Option<Domain>) {
    match FateOf(ctx, x, d)
    case Refreshed => d.value.primaries != ctx.primaries
    case Moved => true
    case Created => true
    case _ => false
  }

  // ---------------------------------------------------------------- theorems about the target

  /** A zone of another owner that is handed over to this catalog. */
  predicate Offered(ctx: Context, d: Domain) {
    !Carries(ctx, d) && HandedOver(ctx, d)
  }

  /** The zone becomes, or stays, a member once the transfer lists it. */
  predicate Admitted(ctx: Context, x: CatalogInfo, d: Option<Domain>) {
    || d.None?
    || IsMember(ctx, d.value)
    || (Offered(ctx, d.value) && (x.options.unique != d.value.options.unique || ListedKind(d.value.kind)))
  }

  /** The zone takes over the catalog and the transferred properties, but its kind keeps it out of every listing. */
  predicate TakenUnlisted(ctx: Context, x: CatalogInfo, d: Option<Domain>) {
    && d.Some? && Offered(ctx, d.value)
    && x.options.unique == d.value.options.unique && !ListedKind(d.value.kind)
  }

  /** The transferred properties, except that a catalog shown with the member group need not have it stored. */
  predicate HasProperties(ctx: Context, x: CatalogInfo, d: Option<Domain>, r: Domain) {
    && r.options.unique == x.options.unique && r.options.coo == x.options.coo && r.primaries == ctx.primaries
    && r.options.group == if d.Some? && IsMember(ctx, d.value) && Agrees(ctx, x, d.value) then d.value.options.group
                          else x.options.group
  }

  /** Who is a member afterwards, with which properties, and what becomes of everyone else. */
  lemma MembersAfterwards(ctx: Context, x: Option<CatalogInfo>, d: Option<Domain>)
    ensures var r := Target(ctx, x, d);
            && (r.Some? && IsMember(ctx, r.value) <==> x.Some? && Admitted(ctx, x.value, d))
            && (x.Some? && Admitted(ctx, x.value, d) ==> HasProperties(ctx, x.value, d, r.value))
            && (x.Some? && TakenUnlisted(ctx, x.value, d) ==>
                  && r.Some? && Carries(ctx, r.value) && r.value.kind == d.value.kind
                  && HasProperties(ctx, x.value, d, r.value))
            && (!(x.Some? && (Admitted(ctx, x.value, d) || TakenUnlisted(ctx, x.value, d))) ==>
                  r == if d.Some? && IsMember(ctx, d.value) then None else d)
  {
  }

  /** The kind a zone is left with is not the one its groups ask for. */
  predicate WrongKind(ctx: Context, x: CatalogInfo, d: Domain) {
    if IsMember(ctx, d) then
      && (d.options.unique.None? || x.options.unique == d.options.unique)
      && if ctx.memberGroup == "" then d.kind.Consumer?
         else d.kind.Secondary? && ctx.memberGroup in d.options.group && ctx.memberGroup in x.options.group
    else Offered(ctx, d) && x.options.unique == d.options.unique && d.kind != KindFor(ctx, x.options.group)
  }

  /** A catalog that is moved here outside the member group keeps its kind until the next run. */
  predicate LateRetype(ctx: Context, x: Option<CatalogInfo>, d: Option<Domain>) {
    && x.Some? && d.Some? && Offered(ctx, d.value) && x.value.options.unique == d.value.options.unique
    && ctx.memberGroup != "" && d.value.kind.Consumer? && ctx.memberGroup !in x.value.options.group
  }

  /** A second run only turns catalogs that were moved outside the member group into plain secondaries. */
  lemma SecondRun(ctx: Context, x: Option<CatalogInfo>, d: Option<Domain>)
    ensures var r := Target(ctx, x, d);
            && FateOf(ctx, x, r) in {Untouched, Refreshed} && !NeedsTransfer(ctx, x, r)
            && Target(ctx, x, r) == if LateRetype(ctx, x, d) then Some(r.value.(kind := Secondary)) else r
  {
  }

  // ---------------------------------------------------------------- sorting

  ghost predicate Distinct(s: seq<CatalogInfo>) {
    forall i, j :: 0 <= i < j < |s| ==> s[i].zone != s[j].zone
  }

  ghost predicate Sorted(s: seq<CatalogInfo>) {
    forall i, j :: 0 <= i < j < |s| ==> ZoneLess(s[i].zone, s[j].zone)
  }

  function InsertSorted(e: CatalogInfo, s: seq<CatalogInfo>): (r: seq<CatalogInfo>)
    ensures forall m :: m in r <==> m == e || m in s
  {
    if s == [] || ZoneLess(e.zone, s[0].zone) then [e] + s else [s[0]] + InsertSorted(e, s[1..])
  }

  function SortByZone(s: seq<CatalogInfo>): (r: seq<CatalogInfo>)
    ensures forall m :: m in r <==> m in s
  {
    if s == [] then [] else InsertSorted(s[0], SortByZone(s[1..]))
  }

  lemma {:induction false} InsertKeepsSorted(e: CatalogInfo, s: seq<CatalogInfo>)
    requires Sorted(s) && forall m :: m in s ==> m.zone != e.zone
    ensures Sorted(InsertSorted(e, s))
  {
    hide ZoneLess;
    if s != [] {
      if ZoneLess(e.zone, s[0].zone) {
        forall j | 0 < j < |s| ensures ZoneLess(e.zone, s[j].zone) {
          ZoneLessTransitive(e.zone, s[0].zone, s[j].zone);
        }
      } else {
        InsertKeepsSorted(e, s[1..]);
        assert s[0] in s;
        ZoneTrichotomy(e.zone, s[0].zone);
        var r := InsertSorted(e, s[1..]);
        forall j | 0 <= j < |r| ensures ZoneLess(s[0].zone, r[j].zone) {
          assert r[j] in r;
        }
      }
    }
  }

  lemma {:induction false} SortSorts(s: seq<CatalogInfo>)
    requires Distinct(s)
    ensures Sorted(SortByZone(s))
  {
    if s != [] {
      SortSorts(s[1..]);
      InsertKeepsSorted(s[0], SortByZone(s[1..]));
    }
  }

  lemma {:induction false} InfoFinds(s: seq<CatalogInfo>, z: Zone)
    ensures Info(s, z).Some? ==> Info(s, z).value in s && Info(s, z).value.zone == z
    ensures Info(s, z).None? ==> forall m :: m in s ==> m.zone != z
  {
    if s != [] && s[0].zone != z { InfoFinds(s[1..], z); }
  }

  lemma InfoOf(s: seq<CatalogInfo>, m: CatalogInfo)
    requires Distinct(s) && m in s
    ensures Info(s, m.zone) == Some(m)
  {
    InfoFinds(s, m.zone);
    var n := Info(s, m.zone).value;
    var i :| 0 <= i < |s| && s[i] == m;
    var j :| 0 <= j < |s| && s[j] == n;
  }

  // ---------------------------------------------------------------- one step of the merge

  /** The backend, the zones to clear from caches (true: created), and the zones to transfer. */
  datatype Work = Work(backend: Backend, clearCache: map<Zone, bool>, retrieve: seq<Zone>)

  /** The work after the zone z met its fate. */
  function Applied(ctx: Context, w: Work, z: Zone, x: Option<CatalogInfo>, d: Option<Domain>): Work {
    var r := Target(ctx, x, d);
    Work(if r.Some? then w.backend[z := r.value] else w.backend - {z},
         match FateOf(ctx, x, d)
         case Created => w.clearCache[z := true]
         case Dropped => w.clearCache[z := false]
         case _ => w.clearCache,
         if NeedsTransfer(ctx, x, d) then w.retrieve + [z] else w.retrieve)
  }

  /** deleteDomain where a zone is recreated, createDomain, and the settings that follow it. */
  method CreateZone(ctx: Context, w: Work, ci: CatalogInfo, remove: bool) returns (r: Work)
    ensures r == Work(w.backend[ci.zone := CreatedDomain(ctx, ci)], w.clearCache[ci.zone := true], w.retrieve + [ci.zone])
  {
    var b := w.backend;
    if remove { b := b - {ci.zone}; }
    b := b[ci.zone := Domain(None, KindFor(ctx, ci.options.group), Options(None, None, {}, ""), ci.primaries)];
    b := b[ci.zone := b[ci.zone].(primaries := ctx.primaries)];
    b := b[ci.zone := b[ci.zone].(options := ci.options)];
    b := b[ci.zone := b[ci.zone].(catalog := Some(ctx.zone))];
    assert b == w.backend[ci.zone := CreatedDomain(ctx, ci)];
    r := Work(b, w.clearCache[ci.zone := true], w.retrieve + [ci.zone]);
  }

  /** A zone only the transfer lists. */
  method OnlyTransferred(ctx: Context, w: Work, ci: CatalogInfo) returns (r: Work)
    ensures !(ci.zone in w.backend && IsMember(ctx, w.backend[ci.zone])) ==>
              r == Applied(ctx, w, ci.zone, Some(ci), Get(w.backend, ci.zone))
    ensures ci.zone in w.backend && IsMember(ctx, w.backend[ci.zone]) ==> r == w
  {
    var remove := false;
    if ci.zone in w.backend {
      var d := w.backend[ci.zone];
      if d.catalog != Some(ctx.zone) && d.options.coo == Some(ctx.zone.name) {
        if ci.options.unique == d.options.unique {
          var b := w.backend[ci.zone := d.(primaries := ctx.primaries)];
          b := b[ci.zone := b[ci.zone].(options := ci.options)];
          b := b[ci.zone := b[ci.zone].(catalog := Some(ctx.zone))];
          assert b == w.backend[ci.zone := MovedDomain(ctx, ci, d)];
          return w.(backend := b, retrieve := w.retrieve + [ci.zone]);
        }
        remove := true;
      } else {
        assert w.backend[ci.zone := d] == w.backend;
        return w;
      }
    }
    r := CreateZone(ctx, w, ci, remove);
  }

  /** A zone both lists have. */
  method InBoth(ctx: Context, w: Work, ci: CatalogInfo, db: CatalogInfo) returns (r: Work)
    requires ci.zone == db.zone && db.zone in w.backend && IsMember(ctx, w.backend[db.zone])
    requires db == Entry(ctx, db.zone, w.backend[db.zone])
    ensures r == Applied(ctx, w, ci.zone, Some(ci), Get(w.backend, ci.zone))
  {
    var z, opts := ci.zone, db.options;
    if opts.unique.None? || ci.options.unique == opts.unique {
      var doOptions, doType := false, false;
      if opts.unique.None? {
        opts := opts.(unique := ci.options.unique);
        doOptions := true;
      }
      if ci.options.coo != opts.coo {
        opts := opts.(coo := ci.options.coo);
        doOptions := true;
      }
      if ci.options.group != opts.group {
        doType := ctx.memberGroup != "" && (ctx.memberGroup in ci.options.group) != (ctx.memberGroup in opts.group);
        opts := opts.(group := ci.options.group);
        doOptions := true;
      }
      var b, retrieve := w.backend, w.retrieve;
      if doOptions { b := b[z := b[z].(options := opts)]; }
      if doType {
        var kind := if ctx.memberGroup in ci.options.group then Consumer else Secondary;
        b := b[z := b[z].(kind := kind)];
      }
      if ctx.primaries != db.primaries {
        b := b[z := b[z].(primaries := ctx.primaries)];
        retrieve := retrieve + [z];
      }
      assert b == w.backend[z := RefreshedDomain(ctx, ci, w.backend[z])];
      r := w.(backend := b, retrieve := retrieve);
    } else {
      r := CreateZone(ctx, w, ci, true);
    }
  }

  /** A zone only the backend lists. */
  method OnlyStored(ctx: Context, w: Work, db: CatalogInfo) returns (r: Work)
    requires db.zone in w.backend && IsMember(ctx, w.backend[db.zone])
    ensures r == Applied(ctx, w, db.zone, None, Get(w.backend, db.zone))
  {
    r := w.(backend := w.backend - {db.zone}, clearCache := w.clearCache[db.zone := false]);
  }

  // ---------------------------------------------------------------- the merge

  /** The members, each once, as the backend shows them. */
  ghost predicate ListsMembers(ctx: Context, fromDB: seq<CatalogInfo>, b: Backend) {
    && Distinct(fromDB)
    && (forall m :: m in fromDB ==>
          m.zone in b && IsMember(ctx, b[m.zone]) && m == Entry(ctx, m.zone, b[m.zone]))
    && (forall z :: z in b && IsMember(ctx, b[z]) ==> Info(fromDB, z).Some?)
  }

  /** The backend's zones, in the order of its list. */
  ghost predicate Enumerates(stored: seq<Zone>, b: Backend) {
    && (forall i, j :: 0 <= i < j < |stored| ==> stored[i] != stored[j])
    && (forall z :: z in stored <==> z in b)
  }

  /** The catalog is listed as a member of itself. */
  predicate OwnMember(ctx: Context, b: Backend) {
    ctx.zone in b && IsMember(ctx, b[ctx.zone]) && b[ctx.zone].kind.Consumer?
  }

  /** getCatalogMembers: the list of members, refused when the catalog would be its own member. */
  method GetMembers(ctx: Context, stored: seq<Zone>, b: Backend) returns (r: Option<seq<CatalogInfo>>)
    requires Enumerates(stored, b)
    ensures r.None? <==> OwnMember(ctx, b)
    ensures r.Some? ==> ListsMembers(ctx, r.value, b)
  {
    hide Info, Entry;
    var out: seq<CatalogInfo> := [];
    for i := 0 to |stored|
      invariant Distinct(out)
      invariant forall m :: m in out ==>
                  m.zone in stored[..i] && m.zone in b && IsMember(ctx, b[m.zone]) && m == Entry(ctx, m.zone, b[m.zone])
      invariant forall j :: 0 <= j < i && IsMember(ctx, b[stored[j]]) ==> Entry(ctx, stored[j], b[stored[j]]) in out
      invariant forall j :: 0 <= j < i ==> !(stored[j] == ctx.zone && OwnMember(ctx, b))
    {
      var z := stored[i];
      if IsMember(ctx, b[z]) {
        if b[z].kind.Consumer? && z == ctx.zone { return None; }
        ZoneOfEntry(ctx, z, b[z]);
        out := out + [Entry(ctx, z, b[z])];
      }
    }
    forall z | z in b && IsMember(ctx, b[z]) ensures Info(out, z).Some? {
      InfoFinds(out, z);
      ZoneOfEntry(ctx, z, b[z]);
      assert Entry(ctx, z, b[z]) in out;
    }
    r := Some(out);
  }

  lemma ZoneOfEntry(ctx: Context, z: Zone, d: Domain)
    ensures Entry(ctx, z, d).zone == z
  {
  }

  /** The zone z met its fate. */
  ghost predicate Settled(ctx: Context, fromXFR: seq<CatalogInfo>, before: Backend, w: Work, z: Zone) {
    var x, d := Info(fromXFR, z), Get(before, z);
    && Get(w.backend, z) == Target(ctx, x, d)
    && (z in w.clearCache <==> FateOf(ctx, x, d) in {Created, Dropped})
    && (z in w.clearCache ==> w.clearCache[z] == (FateOf(ctx, x, d) == Created))
    && (z in w.retrieve <==> NeedsTransfer(ctx, x, d))
  }

  ghost predicate Outcome(ctx: Context, fromXFR: seq<CatalogInfo>, before: Backend, w: Work) {
    forall z :: Settled(ctx, fromXFR, before, w, z)
  }

  /** The zones in `done` have met their fate, the others are as before. */
  ghost predicate Progress(ctx: Context, fromXFR: seq<CatalogInfo>, before: Backend, w: Work, done: set<Zone>) {
    && (forall z :: z in done ==> Settled(ctx, fromXFR, before, w, z))
    && (forall z :: z !in done ==> Get(w.backend, z) == Get(before, z) && z !in w.clearCache && z !in w.retrieve)
  }

  /** Settling z leaves the other zones alone. */
  lemma AppliedElsewhere(ctx: Context, w: Work, z: Zone, x: Option<CatalogInfo>, d: Option<Domain>, y: Zone)
    requires y != z
    ensures var r := Applied(ctx, w, z, x, d);
            && Get(r.backend, y) == Get(w.backend, y)
            && (y in r.clearCache <==> y in w.clearCache)
            && (y in r.clearCache ==> r.clearCache[y] == w.clearCache[y])
            && (y in r.retrieve <==> y in w.retrieve)
  {
  }

  lemma AppliedHere(ctx: Context, fromXFR: seq<CatalogInfo>, before: Backend, w: Work, z: Zone)
    requires Get(w.backend, z) == Get(before, z) && z !in w.clearCache && z !in w.retrieve
    ensures Settled(ctx, fromXFR, before, Applied(ctx, w, z, Info(fromXFR, z), Get(before, z)), z)
  {
    hide Info, FateOf, NeedsTransfer;
  }

  lemma ProgressStep(ctx: Context, fromXFR: seq<CatalogInfo>, before: Backend, w: Work, done: set<Zone>, z: Zone)
    requires Progress(ctx, fromXFR, before, w, done) && z !in done
    ensures Progress(ctx, fromXFR, before, Applied(ctx, w, z, Info(fromXFR, z), Get(w.backend, z)), done + {z})
    ensures Get(w.backend, z) == Get(before, z)
  {
    hide Info, FateOf, Target, NeedsTransfer, Applied;
    var x, d := Info(fromXFR, z), Get(before, z);
    AppliedHere(ctx, fromXFR, before, w, z);
    forall y | y in done ensures Settled(ctx, fromXFR, before, Applied(ctx, w, z, x, d), y) {
      AppliedElsewhere(ctx, w, z, x, d, y);
    }
    var r := Applied(ctx, w, z, x, d);
    forall y | y !in done + {z}
      ensures Get(r.backend, y) == Get(before, y) && y !in r.clearCache && y !in r.retrieve
    {
      AppliedElsewhere(ctx, w, z, x, d, y);
    }
  }

  method Diff(ctx: Context, fromXFR: seq<CatalogInfo>, fromDB: seq<CatalogInfo>, backend: Backend)
    returns (w: Work)
    requires Distinct(fromXFR) && ListsMembers(ctx, fromDB, backend)
    ensures Outcome(ctx, fromXFR, backend, w)
  {
    var xs, ds := SortByZone(fromXFR), SortByZone(fromDB);
    SortSorts(fromXFR);
    SortSorts(fromDB);
    hide SortByZone, ZoneLess, Info, Applied, Target, FateOf, NeedsTransfer, Progress;
    w := Work(backend, map[], []);
    StartProgress(ctx, fromXFR, backend);
    ghost var done: set<Zone> := {};
    var x, d := 0, 0;
    while x < |xs| || d < |ds|
      invariant 0 <= x <= |xs| && 0 <= d <= |ds|
      invariant forall i :: 0 <= i < |xs| ==> (xs[i].zone in done <==> i < x)
      invariant forall j :: 0 <= j < |ds| ==> (ds[j].zone in done <==> j < d)
      invariant Progress(ctx, fromXFR, backend, w, done)
      decreases |xs| - x + |ds| - d
    {
      if x < |xs| && (d == |ds| || ZoneLess(xs[x].zone, ds[d].zone)) {
        var z := xs[x].zone;
        NotInTail(ds, d, z);
        InfoOf(fromXFR, xs[x]);
        ProgressStep(ctx, fromXFR, backend, w, done, z);
        NotMember(ctx, fromDB, ds, backend, z);
        w := OnlyTransferred(ctx, w, xs[x]);
        SortedOnce(xs, x);
        done := done + {z};
        x := x + 1;
      } else if d < |ds| && (x == |xs| || ZoneLess(ds[d].zone, xs[x].zone)) {
        var z := ds[d].zone;
        NotInTail(xs, x, z);
        NotListed(fromXFR, xs, z);
        ProgressStep(ctx, fromXFR, backend, w, done, z);
        assert ds[d] in fromDB;
        w := OnlyStored(ctx, w, ds[d]);
        SortedOnce(ds, d);
        done := done + {z};
        d := d + 1;
      } else {
        var z := xs[x].zone;
        ZoneTrichotomy(xs[x].zone, ds[d].zone);
        InfoOf(fromXFR, xs[x]);
        ProgressStep(ctx, fromXFR, backend, w, done, z);
        assert ds[d] in fromDB;
        w := InBoth(ctx, w, xs[x], ds[d]);
        SortedOnce(xs, x);
        SortedOnce(ds, d);
        done := done + {z};
        x := x + 1;
        d := d + 1;
      }
    }
    FinishProgress(ctx, fromXFR, fromDB, xs, ds, backend, w, done);
  }

  lemma StartProgress(ctx: Context, fromXFR: seq<CatalogInfo>, backend: Backend)
    ensures Progress(ctx, fromXFR, backend, Work(backend, map[], []), {})
  {
  }

  /** A zone before the head of a sorted list is not in the list from there on. */
  lemma NotInTail(s: seq<CatalogInfo>, k: nat, z: Zone)
    requires Sorted(s) && k <= |s| && (k < |s| ==> ZoneLess(z, s[k].zone))
    ensures forall i :: k <= i < |s| ==> s[i].zone != z
  {
    hide ZoneLess;
    forall i | k <= i < |s| ensures s[i].zone != z {
      if i > k { ZoneLessTransitive(z, s[k].zone, s[i].zone); }
      ZoneTrichotomy(z, s[i].zone);
    }
  }

  lemma SortedOnce(s: seq<CatalogInfo>, k: nat)
    requires Sorted(s) && k < |s|
    ensures forall i :: 0 <= i < |s| && i != k ==> s[i].zone != s[k].zone
  {
    hide ZoneLess;
    forall i | 0 <= i < |s| && i != k ensures s[i].zone != s[k].zone {
      ZoneTrichotomy(s[i].zone, s[k].zone);
    }
  }

  lemma NotMember(ctx: Context, fromDB: seq<CatalogInfo>, ds: seq<CatalogInfo>, b: Backend, z: Zone)
    requires ListsMembers(ctx, fromDB, b) && (forall m :: m in ds <==> m in fromDB)
    requires forall i :: 0 <= i < |ds| ==> ds[i].zone != z
    ensures z in b ==> !IsMember(ctx, b[z])
  {
    InfoFinds(fromDB, z);
  }

  lemma NotListed(fromXFR: seq<CatalogInfo>, xs: seq<CatalogInfo>, z: Zone)
    requires forall m :: m in xs <==> m in fromXFR
    requires forall i :: 0 <= i < |xs| ==> xs[i].zone != z
    ensures Info(fromXFR, z) == None
  {
    InfoFinds(fromXFR, z);
  }

  lemma FinishProgress(ctx: Context, fromXFR: seq<CatalogInfo>, fromDB: seq<CatalogInfo>,
                       xs: seq<CatalogInfo>, ds: seq<CatalogInfo>, before: Backend, w: Work, done: set<Zone>)
    requires Progress(ctx, fromXFR, before, w, done) && ListsMembers(ctx, fromDB, before)
    requires (forall m :: m in xs <==> m in fromXFR) && (forall m :: m in ds <==> m in fromDB)
    requires forall i :: 0 <= i < |xs| ==> xs[i].zone in done
    requires forall j :: 0 <= j < |ds| ==> ds[j].zone in done
    ensures Outcome(ctx, fromXFR, before, w)
  {
    forall z ensures Settled(ctx, fromXFR, before, w, z)
    {
      if z !in done {
        NotListed(fromXFR, xs, z);
        NotMember(ctx, fromDB, ds, before, z);
      }
    }
  }

  // ---------------------------------------------------------------- what a run achieves

  ghost predicate MemberIn(ctx: Context, b: Backend, z: Zone) {
    z in b && IsMember(ctx, b[z])
  }

  ghost predicate CarriesIn(ctx: Context, b: Backend, z: Zone) {
    z in b && Carries(ctx, b[z])
  }

  /**
   Afterwards exactly the listed zones that are admitted are members.  They have the transferred properties, and
   so does a zone of another kind that was handed over.  Members the transfer leaves out are gone, and everything
   else, a zone of another kind that carries the catalog included, is as it was.
   */
  lemma MembersAfterRun(ctx: Context, fromXFR: seq<CatalogInfo>, before: Backend, w: Work, z: Zone)
    requires Outcome(ctx, fromXFR, before, w)
    ensures var x, d := Info(fromXFR, z), Get(before, z);
            && (MemberIn(ctx, w.backend, z) <==> x.Some? && Admitted(ctx, x.value, d))
            && (x.Some? && (Admitted(ctx, x.value, d) || TakenUnlisted(ctx, x.value, d)) ==>
                  z in w.backend && HasProperties(ctx, x.value, d, w.backend[z]))
            && (x.Some? && TakenUnlisted(ctx, x.value, d) ==>
                  CarriesIn(ctx, w.backend, z) && w.backend[z].kind == before[z].kind)
            && (!(x.Some? && (Admitted(ctx, x.value, d) || TakenUnlisted(ctx, x.value, d))) ==>
                  Get(w.backend, z) == if MemberIn(ctx, before, z) then None else d)
  {
    assert Settled(ctx, fromXFR, before, w, z);
    MembersAfterwards(ctx, Info(fromXFR, z), Get(before, z));
  }

  /** The zones a transfer is asked of one of the primaries for; without primaries nobody is asked. */
  function Queued(ctx: Context, w: Work): seq<Zone> {
    if ctx.primaries == [] then [] else w.retrieve
  }

  /**
   A cache is cleared for every zone that appears, with true, or disappears, with false, and for a member whose
   unique value changed.  Given primaries, a transfer is queued for exactly the zones of the transferred catalog
   that carry it now and were created, carried another catalog before, or were members with other primaries.
   */
  lemma CachesAndTransfers(ctx: Context, fromXFR: seq<CatalogInfo>, before: Backend, w: Work, z: Zone)
    requires Outcome(ctx, fromXFR, before, w)
    ensures z in w.clearCache ==> w.clearCache[z] == (z in w.backend)
    ensures (z in before) != (z in w.backend) ==> z in w.clearCache
    ensures z in before && z in w.backend ==>
              (z in w.clearCache <==>
               && Info(fromXFR, z).Some? && (MemberIn(ctx, before, z) || Offered(ctx, before[z]))
               && Info(fromXFR, z).value.options.unique != before[z].options.unique
               && (MemberIn(ctx, before, z) ==> before[z].options.unique.Some?))
    ensures z in Queued(ctx, w) <==>
              && ctx.primaries != [] && Info(fromXFR, z).Some? && CarriesIn(ctx, w.backend, z)
              && (z in w.clearCache || !CarriesIn(ctx, before, z)
                  || (MemberIn(ctx, before, z) && before[z].primaries != ctx.primaries))
  {
    assert Settled(ctx, fromXFR, before, w, z);
  }

  /** A zone that took over the catalog has the kind its groups ask for, unless it had the wrong one to begin with. */
  lemma KindAfterRun(ctx: Context, fromXFR: seq<CatalogInfo>, before: Backend, w: Work, z: Zone)
    requires Outcome(ctx, fromXFR, before, w) && Info(fromXFR, z).Some?
    requires || Admitted(ctx, Info(fromXFR, z).value, Get(before, z))
             || TakenUnlisted(ctx, Info(fromXFR, z).value, Get(before, z))
    ensures var x := Info(fromXFR, z).value;
            && z in w.backend
            && (w.backend[z].kind == KindFor(ctx, x.options.group) <==> !(z in before && WrongKind(ctx, x, before[z])))
  {
    assert Settled(ctx, fromXFR, before, w, z);
  }

  /**
   A second run with the same transfer clears and queues nothing.  It changes nothing at all if and only if no
   catalog was moved here outside the member group; each of those becomes a secondary.
   */
  lemma SecondRunChangesNothing(ctx: Context, fromXFR: seq<CatalogInfo>, before: Backend, w: Work, again: Work)
    requires Outcome(ctx, fromXFR, before, w) && Outcome(ctx, fromXFR, w.backend, again)
    ensures again.clearCache == map[] && again.retrieve == []
    ensures forall z :: Get(again.backend, z) == Repeated(ctx, fromXFR, before, w, z)
    ensures again.backend == w.backend <==> forall z :: !LateRetype(ctx, Info(fromXFR, z), Get(before, z))
  {
    forall z
      ensures && Get(again.backend, z) == Repeated(ctx, fromXFR, before, w, z)
              && z !in again.clearCache && z !in again.retrieve
    {
      RepeatedZone(ctx, fromXFR, before, w, again, z);
    }
    assert again.clearCache == map[];
    SomeElement(again.retrieve);
    if again.backend == w.backend {
      forall z ensures !LateRetype(ctx, Info(fromXFR, z), Get(before, z)) {
        LateRetypeShows(ctx, fromXFR, before, w, z);
      }
    } else if forall z :: !LateRetype(ctx, Info(fromXFR, z), Get(before, z)) {
      SameBackend(again.backend, w.backend);
    }
  }

  /** What a second run makes of a zone. */
  ghost function Repeated(ctx: Context, fromXFR: seq<CatalogInfo>, before: Backend, w: Work, z: Zone): Option<Domain> {
    var r := Get(w.backend, z);
    if LateRetype(ctx, Info(fromXFR, z), Get(before, z)) && r.Some? then Some(r.value.(kind := Secondary)) else r
  }

  lemma RepeatedZone(ctx: Context, fromXFR: seq<CatalogInfo>, before: Backend, w: Work, again: Work, z: Zone)
    requires Outcome(ctx, fromXFR, before, w) && Outcome(ctx, fromXFR, w.backend, again)
    ensures Get(again.backend, z) == Repeated(ctx, fromXFR, before, w, z)
    ensures z !in again.clearCache && z !in again.retrieve
  {
    hide Target, NeedsTransfer, LateRetype, Info;
    assert Settled(ctx, fromXFR, before, w, z) && Settled(ctx, fromXFR, w.backend, again, z);
    SecondRun(ctx, Info(fromXFR, z), Get(before, z));
    LateRetypeMoves(ctx, Info(fromXFR, z), Get(before, z));
  }

  lemma LateRetypeMoves(ctx: Context, x: Option<CatalogInfo>, d: Option<Domain>)
    ensures LateRetype(ctx, x, d) ==> Target(ctx, x, d).Some? && Target(ctx, x, d).value.kind == Consumer
  {
  }

  lemma LateRetypeShows(ctx: Context, fromXFR: seq<CatalogInfo>, before: Backend, w: Work, z: Zone)
    requires Outcome(ctx, fromXFR, before, w)
    ensures LateRetype(ctx, Info(fromXFR, z), Get(before, z)) ==> Repeated(ctx, fromXFR, before, w, z) != Get(w.backend, z)
  {
    assert Settled(ctx, fromXFR, before, w, z);
    LateRetypeMoves(ctx, Info(fromXFR, z), Get(before, z));
  }

  /** A third run never changes anything. */
  lemma ThirdRunChangesNothing(ctx: Context, fromXFR: seq<CatalogInfo>, before: Backend, w: Work, again: Work, third: Work)
    requires Outcome(ctx, fromXFR, before, w) && Outcome(ctx, fromXFR, w.backend, again)
    requires Outcome(ctx, fromXFR, again.backend, third)
    ensures third == Work(again.backend, map[], [])
  {
    forall z ensures !LateRetype(ctx, Info(fromXFR, z), Get(w.backend, z)) {
      assert Settled(ctx, fromXFR, before, w, z);
      NotLateTwice(ctx, Info(fromXFR, z), Get(before, z));
    }
    SecondRunChangesNothing(ctx, fromXFR, w.backend, again, third);
  }

  lemma NotLateTwice(ctx: Context, x: Option<CatalogInfo>, d: Option<Domain>)
    ensures !LateRetype(ctx, x, Target(ctx, x, d))
  {
  }

  function HandedCatalog(ctx: Context, unique: Name, other: Zone): Domain {
    Domain(Some(other), Consumer, Options(Some(ctx.zone.name), Some(unique), {ctx.memberGroup}, ""), [])
  }

  function Ungrouped(z: Zone, unique: Name): CatalogInfo {
    CatalogInfo(z, Options(None, Some(unique), {}, ""), [])
  }

  /** A catalog handed over to this one, which lists it without a group: only the second run makes it a secondary. */
  lemma MovedCatalogChangesLater(ctx: Context, z: Zone, unique: Name, other: Zone, w: Work, again: Work)
    requires ctx.memberGroup != "" && other != ctx.zone
    requires Outcome(ctx, [Ungrouped(z, unique)], map[z := HandedCatalog(ctx, unique, other)], w)
    requires Outcome(ctx, [Ungrouped(z, unique)], w.backend, again)
    ensures z in w.backend && w.backend[z].kind == Consumer
    ensures z in again.backend && again.backend[z].kind == Secondary
  {
    var xs, before: Backend := [Ungrouped(z, unique)], map[z := HandedCatalog(ctx, unique, other)];
    assert Settled(ctx, xs, before, w, z) && Settled(ctx, xs, w.backend, again, z);
  }

  lemma SomeElement(s: seq<Zone>)
    ensures s != [] ==> exists z :: z in s
  {
    if s != [] { assert s[0] in s; }
  }

  lemma SameBackend(a: Backend, b: Backend)
    requires forall z :: Get(a, z) == Get(b, z)
    ensures a == b
  {
    assert forall z :: z in a ==> Get(a, z) == Get(b, z);
    assert forall z :: z in b ==> Get(a, z) == Get(b, z);
  }
}
