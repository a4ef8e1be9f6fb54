/** Importing a user's own export into an account without projects rebuilds that account. */
module ArchiveRoundTrip {
  import opened Text
  import opened Numerals
  import opened Json
  import opened Slugs
  import opened ArchiveImport
  import opened ArchiveExport

  // ---- projects ------------------------------------------------------------------------------------------------

  function Copy(p: Project, user: string, id: string): Project { p.(id := id, user := user) }

  /** The same projects under new ids, belonging to another user. */
  function Copies(ps: seq<Project>, user: string, ids: seq<string>): (r: seq<Project>)
    requires |ps| <= |ids|
    ensures |r| == |ps|
    ensures forall i | 0 <= i < |ps| :: r[i] == Copy(ps[i], user, ids[i])
  {
    if ps == [] then [] else [Copy(ps[0], user, ids[0])] + Copies(ps[1..], user, ids[1..])
  }

  function Translate(m: map<string, string>, ps: seq<Project>, ids: seq<string>): map<string, string>
    requires |ps| <= |ids|
    decreases |ps|
  {
    if ps == [] then m else Translate(m[ps[0].id := ids[0]], ps[1..], ids[1..])
  }

  predicate Importable(p: Project) { IsSlug(p.slug) && p.name != "" }

  ghost predicate DistinctSlugs(ps: seq<Project>) { forall i, j | 0 <= i < j < |ps| :: ps[i].slug != ps[j].slug }

  lemma GetAt(ms: seq<Member>, i: nat)
    requires DistinctKeys(ms) && i < |ms|
    ensures Get(ms, ms[i].key) == Some(ms[i].value)
  {
  }

  lemma EntryAccepted(p: Project)
    ensures Accept(ProjectEntry(p)) ==
            match NormalizeSlug(Some(JString(p.slug)))
            case Some(slug) => if p.name == "" then None else Some(Accepted(p.id, slug, p.name, p.description))
            case None => None
  {
    hide NormalizeSlug, IndexOf, Get;
    var ms := ProjectEntry(p).members;
    GetAt(ms, 0);
    GetAt(ms, 1);
    GetAt(ms, 2);
    GetAt(ms, 3);
  }

  lemma FreeIsBase(base: string, taken: set<string>)
    requires base !in taken
    ensures FreeSlug(base, taken) == base && !Renamed(base, taken)
  {
    FreeIs(base, taken, 0);
  }

  lemma PlanKeeps(p: Plan, user: string, q: Project, id: string)
    requires Importable(q) && q.slug !in p.taken
    ensures PlanOne(p, user, ProjectEntry(q), id) ==
            Plan(p.rows + [Copy(q, user, id)], p.ids[q.id := id], p.renames, p.taken + {q.slug})
  {
    hide Accept, IsSlug, FreeSlug, NormalizeSlug, ProjectEntry, Renamed;
    EntryAccepted(q);
    SlugKept(q.slug);
    FreeIsBase(q.slug, p.taken);
  }

  lemma PlanFirst(p: Plan, user: string, ps: seq<Project>, ids: seq<string>)
    requires 0 < |ps| <= |ids|
    ensures PlanAll(p, user, ProjectEntries(ps), ids) ==
            PlanAll(PlanOne(p, user, ProjectEntry(ps[0]), ids[0]), user, ProjectEntries(ps[1..]), ids[1..])
  {
    hide PlanOne, ProjectEntry;
    assert ProjectEntries(ps)[1..] == ProjectEntries(ps[1..]);
  }

  lemma CopiesAfter(rows: seq<Project>, ps: seq<Project>, user: string, ids: seq<string>)
    requires 0 < |ps| <= |ids|
    ensures rows + Copies(ps, user, ids) == rows + [Copy(ps[0], user, ids[0])] + Copies(ps[1..], user, ids[1..])
  {
  }

  /** The plan for exported projects keeps every slug: nothing is renamed and nothing left out. */
  lemma {:induction false} PlanRebuilds(p: Plan, user: string, ps: seq<Project>, ids: seq<string>)
    requires |ps| <= |ids| && DistinctSlugs(ps)
    requires forall i | 0 <= i < |ps| :: Importable(ps[i]) && ps[i].slug !in p.taken
    ensures var q := PlanAll(p, user, ProjectEntries(ps), ids);
            q.rows == p.rows + Copies(ps, user, ids) && q.ids == Translate(p.ids, ps, ids) && q.renames == p.renames
    decreases |ps|
  {
    hide Importable, ProjectEntry, PlanOne, Copies, Copy;
    if ps == [] {
      PlanNothing(p, user, ids);
    } else {
      hide PlanAll;
      PlanFirst(p, user, ps, ids);
      PlanKeeps(p, user, ps[0], ids[0]);
      CopiesAfter(p.rows, ps, user, ids);
      PlanRebuilds(PlanOne(p, user, ProjectEntry(ps[0]), ids[0]), user, ps[1..], ids[1..]);
    }
  }

  lemma PlanNothing(p: Plan, user: string, ids: seq<string>)
    ensures PlanAll(p, user, ProjectEntries([]), ids) == p && p.rows == p.rows + Copies([], user, ids)
  {
  }

  lemma {:induction false} PlanGrows(p: Plan, user: string, raws: seq<JSON>, ids: seq<string>)
    requires |raws| <= |ids|
    ensures var q := PlanAll(p, user, raws, ids); p.rows <= q.rows && |q.rows| <= |p.rows| + |raws|
    ensures (forall r | r in p.rows :: r.user == user) ==>
              forall r | r in PlanAll(p, user, raws, ids).rows :: r.user == user
    decreases |raws|
  {
    hide Accept, FreeSlug;
    if raws != [] {
      PlanGrows(PlanOne(p, user, raws[0], ids[0]), user, raws[1..], ids[1..]);
    }
  }

  predicate SlugChar(c: char) { SlugEnd(c) || c == '-' }

  lemma CandidateChars(base: string, n: nat)
    requires IsSlug(base)
    ensures var c := Candidate(base, n);
            && c != "" && SlugEnd(c[0]) && SlugEnd(c[|c| - 1])
            && forall i | 0 <= i < |c| :: SlugChar(c[i])
  {
    hide Decimal;
    var c := Candidate(base, n);
    if n > 1 {
      assert c[|c| - 1] == Decimal(n)[|Decimal(n)| - 1];
    }
  }

  lemma SlugCharsKept(s: string)
    requires s != "" && SlugEnd(s[0]) && SlugEnd(s[|s| - 1]) && forall i | 0 <= i < |s| :: SlugChar(s[i])
    ensures LowerAll(Strip(s)) == s
  {
    NothingToStrip(s);
    SlugIsLower(s);
    hide Strip, LowerAll;
  }

  /** A slug that comes out of an import as it went in already had the required form. */
  lemma SlugSurvives(s: string, base: string, taken: set<string>)
    requires NormalizeSlug(Some(JString(s))) == Some(base) && FreeSlug(base, taken) == s
    ensures IsSlug(s)
  {
    hide IsSlug, Candidate, Strip, LowerAll, SlugChar;
    CandidateChars(base, FirstFree(base, taken, 0));
    SlugCharsKept(s);
  }

  lemma KeptImportable(p: Plan, user: string, q: Project, id: string)
    requires PlanOne(p, user, ProjectEntry(q), id).rows == p.rows + [Copy(q, user, id)]
    ensures Importable(q)
  {
    hide Accept, IsSlug, FreeSlug, NormalizeSlug, ProjectEntry, Renamed;
    EntryAccepted(q);
    if NormalizeSlug(Some(JString(q.slug))).Some? && q.name != "" {
      var base := NormalizeSlug(Some(JString(q.slug))).value;
      assert (p.rows + [Copy(q, user, id)])[|p.rows|].slug == FreeSlug(base, p.taken);
      SlugSurvives(q.slug, base, p.taken);
    }
  }

  lemma PlanOneGrows(p: Plan, user: string, raw: JSON, id: string)
    ensures var next := PlanOne(p, user, raw, id);
            p.rows <= next.rows && |next.rows| <= |p.rows| + 1
  {
    hide Accept, FreeSlug, Renamed;
  }

  /** If the plan rebuilds every project, every project was importable. */
  lemma {:induction false} RebuiltImportable(p: Plan, user: string, ps: seq<Project>, ids: seq<string>)
    requires |ps| <= |ids|
    requires PlanAll(p, user, ProjectEntries(ps), ids).rows == p.rows + Copies(ps, user, ids)
    ensures forall i | 0 <= i < |ps| :: Importable(ps[i])
    decreases |ps|
  {
    hide Importable, ProjectEntry, PlanOne, PlanAll, Copies, Copy;
    if ps != [] {
      var next := PlanOne(p, user, ProjectEntry(ps[0]), ids[0]);
      PlanFirst(p, user, ps, ids);
      CopiesAfter(p.rows, ps, user, ids);
      PlanOneGrows(p, user, ProjectEntry(ps[0]), ids[0]);
      PlanGrows(next, user, ProjectEntries(ps[1..]), ids[1..]);
      PrefixOf(next.rows, p.rows, Copy(ps[0], user, ids[0]), Copies(ps[1..], user, ids[1..]));
      KeptImportable(p, user, ps[0], ids[0]);
      RebuiltImportable(next, user, ps[1..], ids[1..]);
    }
  }

  lemma PrefixOf(next: seq<Project>, rows: seq<Project>, p: Project, rest: seq<Project>)
    requires next <= rows + [p] + rest && |next| == |rows| + 1
    ensures next == rows + [p]
  {
    assert (rows + [p] + rest)[..|rows| + 1] == rows + [p];
  }

  // ---- the translation of ids --------------------------------------------------------------------------------------

  ghost predicate DistinctIds(ps: seq<Project>) { forall i, j | 0 <= i < j < |ps| :: ps[i].id != ps[j].id }

  ghost predicate Distinct(ids: seq<string>) { forall i, j | 0 <= i < j < |ids| :: ids[i] != ids[j] }

  lemma {:induction false} TranslateElsewhere(m: map<string, string>, ps: seq<Project>, ids: seq<string>, k: string)
    requires |ps| <= |ids| && forall i | 0 <= i < |ps| :: ps[i].id != k
    ensures var t := Translate(m, ps, ids); (k in t <==> k in m) && (k in m ==> t[k] == m[k])
    decreases |ps|
  {
    if ps != [] { TranslateElsewhere(m[ps[0].id := ids[0]], ps[1..], ids[1..], k); }
  }

  lemma {:induction false} TranslateAt(m: map<string, string>, ps: seq<Project>, ids: seq<string>, i: nat)
    requires |ps| <= |ids| && DistinctIds(ps) && i < |ps|
    ensures var t := Translate(m, ps, ids); ps[i].id in t && t[ps[i].id] == ids[i]
    decreases |ps|
  {
    var n := m[ps[0].id := ids[0]];
    if i == 0 {
      TranslateElsewhere(n, ps[1..], ids[1..], ps[0].id);
    } else {
      TranslateAt(n, ps[1..], ids[1..], i - 1);
    }
  }

  /** Only o is mapped to n. */
  ghost predicate Only(m: map<string, string>, o: string, n: string) { o in m && forall k | k in m :: m[k] == n <==> k == o }

  /** The translation is a bijection from the old ids to the new ones. */
  lemma TranslateBijective(ps: seq<Project>, ids: seq<string>, i: nat)
    requires |ps| <= |ids| && DistinctIds(ps) && Distinct(ids) && i < |ps|
    ensures Only(Translate(map[], ps, ids), ps[i].id, ids[i])
  {
    hide Translate;
    var t := Translate(map[], ps, ids);
    TranslateAt(map[], ps, ids, i);
    forall k | k in t ensures t[k] == ids[i] <==> k == ps[i].id {
      if j: nat :| j < |ps| && ps[j].id == k {
        TranslateAt(map[], ps, ids, j);
      } else {
        TranslateElsewhere(map[], ps, ids, k);
      }
    }
  }

  // ---- memories ------------------------------------------------------------------------------------------------

  function Canonical(m: Stored): Stored { m.(metadata := CoerceMetadata(m.metadata)) }

  /** A project's memories with their metadata in canonical form. */
  function AllCanonical(ms: seq<Stored>): seq<Stored> { seq(|ms|, i requires 0 <= i < |ms| => Canonical(ms[i])) }

  lemma CanonicalSnoc(ms: seq<Stored>, m: Stored)
    ensures AllCanonical(ms + [m]) == AllCanonical(ms) + [Canonical(m)] && |AllCanonical(ms)| == |ms|
  {
    hide Canonical;
  }

  /** The canonical form is the memories themselves when their metadata was written by a server. */
  lemma CanonicalAlready(ms: seq<Stored>)
    ensures AllCanonical(ms) == ms <==>
            forall m | m in ms :: exists dict :: WellFormed(JObject(dict)) && m.metadata == DumpMetadata(dict)
  {
    hide CoerceMetadata, DumpMetadata, WellFormed;
    forall m ensures CoerceMetadata(m) == m <==> exists dict :: WellFormed(JObject(dict)) && m == DumpMetadata(dict) {
      CoerceTwice(m);
    }
    if AllCanonical(ms) == ms {
      forall i | 0 <= i < |ms| ensures CoerceMetadata(ms[i].metadata) == ms[i].metadata { assert AllCanonical(ms)[i] == ms[i]; }
    }
  }

  predicate FullSize(m: Stored) { |m.vector| == VECTOR_SIZE }

  /** What an import without re-embedding keeps of a project's memories. */
  function Carried(ms: seq<Stored>): (r: seq<Stored>)
    ensures |r| <= |ms|
    decreases |ms|
  {
    if ms == [] then []
    else Carried(ms[..|ms| - 1]) + if FullSize(ms[|ms| - 1]) then [Canonical(ms[|ms| - 1])] else []
  }

  lemma {:induction false} CarriedWhole(ms: seq<Stored>)
    ensures Carried(ms) == AllCanonical(ms) <==> forall m | m in ms :: FullSize(m)
  {
    hide Canonical, FullSize, AllCanonical;
    if ms == [] {
      NothingCanonical();
    } else {
      var init, last := ms[..|ms| - 1], ms[|ms| - 1];
      assert ms == init + [last];
      CarriedWhole(init);
      CanonicalSnoc(init, last);
      if FullSize(last) {
        SameSnoc(Carried(init), AllCanonical(init), Canonical(last));
      } else {
        assert |Carried(ms)| < |AllCanonical(ms)|;
      }
    }
  }

  lemma NothingCanonical()
    ensures AllCanonical([]) == []
  {
  }

  lemma SameSnoc(a: seq<Stored>, b: seq<Stored>, m: Stored)
    ensures a + [m] == b + [m] <==> a == b
  {
    if a + [m] == b + [m] { assert (a + [m])[..|a|] == a && (b + [m])[..|b|] == b; }
  }

  lemma RowLands(m: Memory, ids: map<string, string>, o: string, n: string, e: Embedding)
    requires !e.again && Only(ids, o, n)
    ensures Destination(ExportRow(m), ids, e) == Some(n) <==> m.project == o && FullSize(m.stored)
    ensures FullSize(m.stored) ==> Convert(ExportRow(m), e) == Some(Canonical(m.stored))
  {
    hide ParseMetadata, DumpMetadata;
    CoerceTwice(m.stored.metadata);
  }

  /** Exported memories land in the project's copy, in order. */
  lemma {:induction false} ExportLands(table: seq<Memory>, user: string, own: set<string>, ids: map<string, string>,
                                       o: string, n: string, e: Embedding)
    requires !e.again && o in own && Only(ids, o, n)
    ensures Landing(ExportRows(table, user, own), n, ids, e) == Carried(Of(table, user, o))
  {
    hide Destination, Convert, ExportRow, Only, FullSize, Canonical, Landing, Carried, ExportRows, Of;
    if table == [] {
      NothingLands(user, own, ids, o, n, e);
    } else {
      var m, init := table[|table| - 1], table[..|table| - 1];
      ExportLands(init, user, own, ids, o, n, e);
      TableSnoc(init, m, user, own, o);
      assert table == init + [m];
      RowLands(m, ids, o, n, e);
      LandingSnoc(ExportRows(init, user, own), ExportRow(m), n, ids, e);
      CarriedSnoc(Of(init, user, o), m.stored);
    }
  }

  lemma NothingLands(user: string, own: set<string>, ids: map<string, string>, o: string, n: string, e: Embedding)
    ensures Landing(ExportRows([], user, own), n, ids, e) == Carried(Of([], user, o))
  {
  }

  lemma TableSnoc(table: seq<Memory>, m: Memory, user: string, own: set<string>, o: string)
    ensures ExportRows(table + [m], user, own) ==
            if m.user == user && m.project in own then ExportRows(table, user, own) + [ExportRow(m)]
            else ExportRows(table, user, own)
    ensures Of(table + [m], user, o) ==
            if m.user == user && m.project == o then Of(table, user, o) + [m.stored] else Of(table, user, o)
  {
    hide ExportRow;
    assert (table + [m])[..|table|] == table;
  }

  lemma LandingSnoc(rows: seq<Row>, r: Row, n: string, ids: map<string, string>, e: Embedding)
    ensures Landing(rows + [r], n, ids, e) ==
            if Destination(r, ids, e) == Some(n) then Landing(rows, n, ids, e) + [Convert(r, e).value]
            else Landing(rows, n, ids, e)
    ensures Landed(rows + [r], ids, e) == Landed(rows, ids, e) + if Destination(r, ids, e).Some? then 1 else 0
  {
    hide Destination, Convert;
    assert (rows + [r])[..|rows|] == rows;
  }

  lemma CarriedSnoc(ms: seq<Stored>, m: Stored)
    ensures Carried(ms + [m]) == if FullSize(m) then Carried(ms) + [Canonical(m)] else Carried(ms)
  {
    hide FullSize, Canonical;
    assert (ms + [m])[..|ms|] == ms;
  }

  // ---- profiles ------------------------------------------------------------------------------------------------

  function ProfileOf(ps: seq<Profile>, user: string, project: string): Option<string> {
    if ps == [] then None
    else if ps[0].user == user && ps[0].project == project then Some(ps[0].json)
    else ProfileOf(ps[1..], user, project)
  }

  /** The primary key of the table of profiles. */
  ghost predicate UniqueProfiles(ps: seq<Profile>) {
    forall i, j | 0 <= i < j < |ps| :: ps[i].user == ps[j].user ==> ps[i].project != ps[j].project
  }

  lemma {:induction false} UpsertLookup(ps: seq<Profile>, p: Profile, user: string, project: string)
    ensures ProfileOf(Upsert(ps, p), user, project) ==
            if p.user == user && p.project == project then Some(p.json) else ProfileOf(ps, user, project)
  {
    if ps != [] { UpsertLookup(ps[1..], p, user, project); }
  }

  lemma {:induction false} AbsentProfile(ps: seq<Profile>, user: string, project: string)
    requires forall i | 0 <= i < |ps| :: ps[i].user == user ==> ps[i].project != project
    ensures ProfileOf(ps, user, project) == None
  {
    if ps != [] { AbsentProfile(ps[1..], user, project); }
  }

  lemma EntryAttached(p: Profile, user: string, ids: map<string, string>)
    ensures ProfileFrom(ProfileEntry(p), user, ids) ==
            if p.project in ids then Some(Profile(user, ids[p.project], p.json)) else None
  {
    hide IndexOf, Get;
    GetAt(ProfileEntry(p).members, 0);
    GetAt(ProfileEntry(p).members, 1);
  }

  lemma UpsertAllFirst(t: seq<Profile>, raw: JSON, rest: seq<JSON>, user: string, ids: map<string, string>)
    ensures UpsertAll(t, [raw] + rest, user, ids) ==
            UpsertAll(match ProfileFrom(raw, user, ids) case Some(p) => Upsert(t, p) case None => t, rest, user, ids)
  {
    hide ProfileFrom, Upsert;
    assert ([raw] + rest)[1..] == rest;
  }

  lemma {:induction false} ProfilesCarried(t: seq<Profile>, ps: seq<Profile>, from: string, user: string,
                                           ids: map<string, string>, o: string, n: string)
    requires UniqueProfiles(ps) && Only(ids, o, n)
    ensures ProfileOf(UpsertAll(t, ProfileEntries(ps, from), user, ids), user, n) ==
            if ProfileOf(ps, from, o).Some? then ProfileOf(ps, from, o) else ProfileOf(t, user, n)
    decreases |ps|
  {
    hide Upsert, ProfileFrom, UpsertAll, ProfileEntry;
    if ps == [] {
      NoEntries(t, user, ids);
    } else if ps[0].user == from {
      var p := ps[0];
      EntryAttached(p, user, ids);
      UpsertAllFirst(t, ProfileEntry(p), ProfileEntries(ps[1..], from), user, ids);
      if p.project in ids {
        var q := Profile(user, ids[p.project], p.json);
        UpsertLookup(t, q, user, n);
        ProfilesCarried(Upsert(t, q), ps[1..], from, user, ids, o, n);
        if p.project == o { AbsentProfile(ps[1..], from, o); }
      } else {
        ProfilesCarried(t, ps[1..], from, user, ids, o, n);
      }
    } else {
      assert [] + ProfileEntries(ps[1..], from) == ProfileEntries(ps[1..], from);
      ProfilesCarried(t, ps[1..], from, user, ids, o, n);
    }
  }

  lemma NoEntries(t: seq<Profile>, user: string, ids: map<string, string>)
    ensures UpsertAll(t, [], user, ids) == t
  {
  }

  // ---- the round trip ----------------------------------------------------------------------------------------------

  /** What the database's keys guarantee about a user's account. */
  ghost predicate Keyed(d: Contents, user: string) {
    var own := OwnProjects(d.projects, user);
    DistinctIds(own) && DistinctSlugs(own) && UniqueProfiles(d.profiles)
  }

  ghost predicate AllFullSize(d: Contents, user: string, own: seq<Project>) {
    forall i | 0 <= i < |own| :: forall m | m in Of(d.memories, user, own[i].id) :: FullSize(m)
  }

  /** Slugs and names an import accepts, and vectors of the size it accepts. */
  ghost predicate Portable(d: Contents, user: string) {
    var own := OwnProjects(d.projects, user);
    (forall i | 0 <= i < |own| :: Importable(own[i])) && AllFullSize(d, user, own)
  }

  /** Nothing is stored under these ids yet. */
  ghost predicate Fresh(d: Contents, user: string, ids: seq<string>) {
    && Distinct(ids)
    && forall i | 0 <= i < |ids| :: Of(d.memories, user, ids[i]) == [] && ProfileOf(d.profiles, user, ids[i]) == None
  }

  ghost predicate SameContents(from: Contents, u: string, past: string, to: Contents, w: string, now: string) {
    && Of(to.memories, w, now) == AllCanonical(Of(from.memories, u, past))
    && ProfileOf(to.profiles, w, now) == ProfileOf(from.profiles, u, past)
  }

  /**
   User w's account is user u's under new ids, project by project: slug, name and description, the memories in their
   order, and the profile.
   */
  ghost predicate Rebuilt(from: Contents, u: string, to: Contents, w: string, ids: seq<string>) {
    var own := OwnProjects(from.projects, u);
    && |own| <= |ids|
    && OwnProjects(to.projects, w) == Copies(own, w, ids)
    && forall i | 0 <= i < |own| :: SameContents(from, u, own[i].id, to, w, ids[i])
  }

  lemma OwnCons(p: Project, ps: seq<Project>, user: string)
    ensures OwnProjects([p] + ps, user) == (if p.user == user then [p] else []) + OwnProjects(ps, user)
  {
    assert ([p] + ps)[1..] == ps;
  }

  lemma {:induction false} OwnAppend(a: seq<Project>, b: seq<Project>, user: string)
    ensures OwnProjects(a + b, user) == OwnProjects(a, user) + OwnProjects(b, user)
  {
    if a == [] {
      assert a + b == b;
    } else {
      hide OwnProjects;
      OwnAppend(a[1..], b, user);
      OwnCons(a[0], a[1..], user);
      OwnCons(a[0], a[1..] + b, user);
      assert a == [a[0]] + a[1..] && a + b == [a[0]] + (a[1..] + b);
    }
  }

  lemma {:induction false} OwnAll(ps: seq<Project>, user: string)
    requires forall p | p in ps :: p.user == user
    ensures OwnProjects(ps, user) == ps
  {
    if ps != [] { OwnAll(ps[1..], user); }
  }

  lemma {:induction false} OwnHas(ps: seq<Project>, user: string, p: Project)
    requires p in ps && p.user == user
    ensures p in OwnProjects(ps, user)
  {
    if ps[0] != p { OwnHas(ps[1..], user, p); }
  }

  lemma NoSlugs(ps: seq<Project>, user: string)
    requires OwnProjects(ps, user) == []
    ensures SlugsOf(ps, user) == {}
  {
    forall p | p in ps && p.user == user ensures false { OwnHas(ps, user, p); }
  }

  const EMPTY := Plan([], map[], 0, {})

  /** What an import of an export does, in terms of the exported projects. */
  lemma ExportImported(d: Contents, u: string, before: Contents, w: string, s: Server, after: Contents, o: Outcome)
    requires |OwnProjects(d.projects, u)| <= |s.ids| && OwnProjects(before.projects, w) == []
    requires EnoughIds(Export(d, u, s.model), s) && ImportStep(before, Export(d, u, s.model), w, s, after, o)
    ensures var own := OwnProjects(d.projects, u);
            var a := Export(d, u, s.model);
            var p := PlanAll(EMPTY, w, ProjectEntries(own), s.ids);
            var e := Embedding(false, s.embed);
            && OwnProjects(after.projects, w) == p.rows
            && (forall n :: Of(after.memories, w, n) == Of(before.memories, w, n) + Landing(a.memories, n, p.ids, e))
            && after.profiles == UpsertAll(before.profiles, ProfileEntries(d.profiles, u), w, p.ids)
            && o.Imported? && o.projects == |p.rows| && o.renamed == p.renames && !o.reembedded
            && o.memories == Landed(a.memories, p.ids, e)
  {
    hide PlanAll, Landing, Landed, UpsertAll, ProfileCount, ReadList, Of, ProjectEntries, ProfileEntries, OwnProjects, ExportRows, SlugsOf;
    ExportReadBack(d, u, s.model);
    NoSlugs(before.projects, w);
    var p := PlanAll(EMPTY, w, ProjectEntries(OwnProjects(d.projects, u)), s.ids);
    PlanGrows(EMPTY, w, ProjectEntries(OwnProjects(d.projects, u)), s.ids);
    OwnAppend(before.projects, p.rows, w);
    OwnAll(p.rows, w);
  }

  /** Every project's memories and profile arrive, except the memories whose vectors have another size. */
  lemma ContentsArrive(d: Contents, u: string, before: Contents, w: string, s: Server, after: Contents, o: Outcome, i: nat)
    requires Keyed(d, u) && Fresh(before, w, s.ids) && i < |OwnProjects(d.projects, u)| <= |s.ids|
    requires forall j | 0 <= j < |OwnProjects(d.projects, u)| :: Importable(OwnProjects(d.projects, u)[j])
    requires OwnProjects(before.projects, w) == []
    requires EnoughIds(Export(d, u, s.model), s) && ImportStep(before, Export(d, u, s.model), w, s, after, o)
    ensures Of(after.memories, w, s.ids[i]) == Carried(Of(d.memories, u, OwnProjects(d.projects, u)[i].id))
    ensures ProfileOf(after.profiles, w, s.ids[i]) == ProfileOf(d.profiles, u, OwnProjects(d.projects, u)[i].id)
  {
    hide PlanAll, Landing, Landed, UpsertAll, ReadList, Of, ProjectEntries, ProfileEntries, OwnProjects, ExportRows, Carried, ProfileOf, ImportStep, EnoughIds, Only, Translate, Importable;
    var own := OwnProjects(d.projects, u);
    ExportImported(d, u, before, w, s, after, o);
    PlanRebuilds(EMPTY, w, own, s.ids);
    var ids := Translate(map[], own, s.ids);
    var n, past := s.ids[i], own[i].id;
    TranslateBijective(own, s.ids, i);
    ExportLands(d.memories, u, set p | p in own :: p.id, ids, past, n, Embedding(false, s.embed));
    ProfilesCarried(before.profiles, d.profiles, u, w, ids, past, n);
  }

  /**
   Importing a user's export on a server with the same model, into an account without projects, rebuilds the account
   exactly when every slug and name is one an import accepts and every vector has the full size.
   */
  lemma RoundTrip(d: Contents, u: string, before: Contents, w: string, s: Server, after: Contents, o: Outcome)
    requires Keyed(d, u) && Fresh(before, w, s.ids) && |OwnProjects(d.projects, u)| <= |s.ids|
    requires OwnProjects(before.projects, w) == []
    requires EnoughIds(Export(d, u, s.model), s) && ImportStep(before, Export(d, u, s.model), w, s, after, o)
    ensures Rebuilt(d, u, after, w, s.ids) <==> Portable(d, u)
  {
    hide SameContents, FullSize, Importable, OwnProjects, ImportStep, EnoughIds, Export, Keyed, Fresh, Copies, Of;
    var own := OwnProjects(d.projects, u);
    RowsRebuilt(d, u, before, w, s, after, o);
    if forall i | 0 <= i < |own| :: Importable(own[i]) {
      forall i | 0 <= i < |own|
        ensures SameContents(d, u, own[i].id, after, w, s.ids[i]) <==> forall m | m in Of(d.memories, u, own[i].id) :: FullSize(m)
      {
        ContentsRebuilt(d, u, before, w, s, after, o, i);
      }
    }
  }

  /** The rows of the table of projects are rebuilt exactly when every project is importable. */
  lemma RowsRebuilt(d: Contents, u: string, before: Contents, w: string, s: Server, after: Contents, o: Outcome)
    requires Keyed(d, u) && |OwnProjects(d.projects, u)| <= |s.ids| && OwnProjects(before.projects, w) == []
    requires EnoughIds(Export(d, u, s.model), s) && ImportStep(before, Export(d, u, s.model), w, s, after, o)
    ensures var own := OwnProjects(d.projects, u);
            OwnProjects(after.projects, w) == Copies(own, w, s.ids) <==> forall i | 0 <= i < |own| :: Importable(own[i])
  {
    hide PlanAll, Landing, Landed, UpsertAll, Of, ProjectEntries, ProfileEntries, OwnProjects, ImportStep, EnoughIds, Importable, Copies, Export, Keyed;
    var own := OwnProjects(d.projects, u);
    ExportImported(d, u, before, w, s, after, o);
    NoRowsBefore(Copies(own, w, s.ids));
    if OwnProjects(after.projects, w) == Copies(own, w, s.ids) {
      RebuiltImportable(EMPTY, w, own, s.ids);
    }
    if forall i | 0 <= i < |own| :: Importable(own[i]) {
      KeyedSlugs(d, u);
      PlanRebuilds(EMPTY, w, own, s.ids);
    }
  }

  /** A project's contents are rebuilt exactly when its vectors have the full size. */
  lemma ContentsRebuilt(d: Contents, u: string, before: Contents, w: string, s: Server, after: Contents, o: Outcome, i: nat)
    requires Keyed(d, u) && Fresh(before, w, s.ids) && i < |OwnProjects(d.projects, u)| <= |s.ids|
    requires forall j | 0 <= j < |OwnProjects(d.projects, u)| :: Importable(OwnProjects(d.projects, u)[j])
    requires OwnProjects(before.projects, w) == []
    requires EnoughIds(Export(d, u, s.model), s) && ImportStep(before, Export(d, u, s.model), w, s, after, o)
    ensures var past := OwnProjects(d.projects, u)[i].id;
            SameContents(d, u, past, after, w, s.ids[i]) <==> forall m | m in Of(d.memories, u, past) :: FullSize(m)
  {
    hide Of, OwnProjects, Carried, AllCanonical, ProfileOf, ImportStep, EnoughIds, Importable, FullSize, Keyed, Fresh, Export;
    ContentsArrive(d, u, before, w, s, after, o, i);
    CarriedWhole(Of(d.memories, u, OwnProjects(d.projects, u)[i].id));
  }

  lemma NoRowsBefore(ps: seq<Project>)
    ensures EMPTY.rows + ps == ps
  {
  }

  lemma KeyedSlugs(d: Contents, user: string)
    requires Keyed(d, user)
    ensures DistinctSlugs(OwnProjects(d.projects, user))
  {
  }

  lemma {:induction false} InOf(table: seq<Memory>, m: Memory)
    requires m in table
    ensures m.stored in Of(table, m.user, m.project)
  {
    var last, init := table[|table| - 1], table[..|table| - 1];
    assert table == init + [last];
    if last != m { InOf(init, m); }
  }

  /** Every exported row lands. */
  lemma {:induction false} AllLand(table: seq<Memory>, user: string, own: set<string>, ids: map<string, string>, e: Embedding)
    requires !e.again && forall k | k in own :: k in ids
    requires forall m | m in table && m.user == user && m.project in own :: FullSize(m.stored)
    ensures Landed(ExportRows(table, user, own), ids, e) == |ExportRows(table, user, own)|
  {
    hide ExportRow, Destination, ExportRows, Landed, FullSize;
    if table == [] {
      NothingExported(user, own, ids, e);
    } else {
      var m, init := table[|table| - 1], table[..|table| - 1];
      assert table == init + [m];
      AllLand(init, user, own, ids, e);
      TableSnoc(init, m, user, own, "");
      LandingSnoc(ExportRows(init, user, own), ExportRow(m), "", ids, e);
      if m.user == user && m.project in own { LandsSomewhere(m, ids, e); }
    }
  }

  lemma NothingExported(user: string, own: set<string>, ids: map<string, string>, e: Embedding)
    ensures Landed(ExportRows([], user, own), ids, e) == |ExportRows([], user, own)|
  {
  }

  lemma LandsSomewhere(m: Memory, ids: map<string, string>, e: Embedding)
    requires !e.again && m.project in ids && FullSize(m.stored)
    ensures Destination(ExportRow(m), ids, e).Some?
  {
    hide CoerceMetadata, ParseMetadata, DumpMetadata;
  }

  /** What the import of a portable export reports: every project, no rename, every row. */
  lemma RoundTripReport(d: Contents, u: string, before: Contents, w: string, s: Server, after: Contents, o: Outcome)
    requires Keyed(d, u) && Portable(d, u) && |OwnProjects(d.projects, u)| <= |s.ids|
    requires OwnProjects(before.projects, w) == []
    requires EnoughIds(Export(d, u, s.model), s) && ImportStep(before, Export(d, u, s.model), w, s, after, o)
    ensures o.Imported? && o.projects == |OwnProjects(d.projects, u)| && o.renamed == 0 && !o.reembedded
    ensures o.memories == |Export(d, u, s.model).memories|
  {
    hide PlanAll, Landing, Landed, UpsertAll, ReadList, Of, ProjectEntries, ProfileEntries, OwnProjects, ExportRows, ImportStep, EnoughIds, Importable, FullSize, Translate;
    var own := OwnProjects(d.projects, u);
    ExportImported(d, u, before, w, s, after, o);
    PlanRebuilds(EMPTY, w, own, s.ids);
    var ids := Translate(map[], own, s.ids);
    var known := set p | p in own :: p.id;
    forall k | k in known ensures k in ids {
      var i: nat :| i < |own| && own[i].id == k;
      TranslateAt(map[], own, s.ids, i);
    }
    forall m | m in d.memories && m.user == u && m.project in known ensures FullSize(m.stored) {
      var i: nat :| i < |own| && own[i].id == m.project;
      InOf(d.memories, m);
      assert m.stored in Of(d.memories, u, own[i].id);
    }
    AllLand(d.memories, u, known, ids, Embedding(false, s.embed));
  }
}
