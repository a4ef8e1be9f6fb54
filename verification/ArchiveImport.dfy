/** Importing an archive into a user's account. */
module ArchiveImport {
  import opened Text
  import opened Json
  import opened JsonText
  import opened Slugs

  const VERSION := 1
  const VECTOR_SIZE := 384

  type Vector = seq<real>

  datatype Project = Project(id: string, user: string, slug: string, name: string, description: Option<string>)

  /** What a memory says; its metadata is JSON text. */
  datatype Stored = Stored(content: string, vector: Vector, tags: seq<string>, metadata: string)

  /** A row of the table of memories. */
  datatype Memory = Memory(user: string, project: string, stored: Stored)

  datatype Profile = Profile(user: string, project: string, json: string)

  /** A row of memories.parquet. */
  datatype Row = Row(project: string, content: string, tags: seq<string>, metadata: string, vector: Vector)

  /** The parts of the manifest that are read, the text of projects.json and profiles.json, and memories.parquet. */
  datatype Archive = Archive(version: int, embedModel: string, vectorSize: int,
                             projects: string, memories: seq<Row>, profiles: string)

  /** The memories of one project of a user, in table order. */
  function Of(table: seq<Memory>, user: string, project: string): seq<Stored>
    decreases |table|
  {
    if table == [] then []
    else
      var m := table[|table| - 1];
      Of(table[..|table| - 1], user, project) + if m.user == user && m.project == project then [m.stored] else []
  }

  lemma OfSnoc(table: seq<Memory>, m: Memory, user: string, project: string)
    ensures Of(table + [m], user, project) ==
            Of(table, user, project) + if m.user == user && m.project == project then [m.stored] else []
  {
    assert (table + [m])[..|table|] == table;
  }

  lemma OfEmpty(user: string, project: string)
    ensures Of([], user, project) == []
  {
  }

  lemma {:induction false} OfAppend(a: seq<Memory>, b: seq<Memory>, user: string, project: string)
    ensures Of(a + b, user, project) == Of(a, user, project) + Of(b, user, project)
  {
    hide Of;
    if b == [] {
      OfEmpty(user, project);
      assert a + b == a;
    } else {
      var init, last := b[..|b| - 1], b[|b| - 1];
      OfAppend(a, init, user, project);
      OfSnoc(init, last, user, project);
      OfSnoc(a + init, last, user, project);
      assert b == init + [last] && a + b == a + init + [last];
    }
  }

  function Entries(user: string, project: string, batch: seq<Stored>): seq<Memory> {
    if batch == [] then [] else Entries(user, project, batch[..|batch| - 1]) + [Memory(user, project, batch[|batch| - 1])]
  }

  lemma {:induction false} OfEntries(user: string, project: string, batch: seq<Stored>, u: string, p: string)
    ensures Of(Entries(user, project, batch), u, p) == if u == user && p == project then batch else []
  {
    hide Of;
    if batch == [] {
      OfEmpty(u, p);
    } else {
      var init := batch[..|batch| - 1];
      OfEntries(user, project, init, u, p);
      OfSnoc(Entries(user, project, init), Memory(user, project, batch[|batch| - 1]), u, p);
      assert batch == init + [batch[|batch| - 1]];
    }
  }

  // ---- metadata --------------------------------------------------------------------------------------------------

  /** _normalize_metadata of JSON text. */
  function ParseMetadata(text: string): seq<Member> {
    match Loads(text)
    case Some(JObject(ms)) => ms
    case _ => []
  }

  function DumpMetadata(ms: seq<Member>): string { Print(JObject(ms), Compact) }

  /** _coerce_metadata_str of JSON text: "{}" is also how an empty dict is written. */
  function CoerceMetadata(text: string): string { DumpMetadata(ParseMetadata(text)) }

  // ---- projects --------------------------------------------------------------------------------------------------

  datatype Accepted = Accepted(id: string, slug: string, name: string, description: Option<string>)

  /** What an entry of projects.json must have to be imported. */
  function Accept(raw: JSON): Option<Accepted> {
    match raw
    case JObject(ms) =>
      (match (Get(ms, "id"), NormalizeSlug(Get(ms, "slug")), Get(ms, "name"))
       case (Some(JString(id)), Some(slug), Some(JString(name))) =>
         if name == "" then None
         else Some(Accepted(id, slug, name, match Get(ms, "description") case Some(JString(d)) => Some(d) case _ => None))
       case _ => None)
    case _ => None
  }

  /** The rows to add, the new id of every old one, the number of renames, and the user's slugs so far. */
  datatype Plan = Plan(rows: seq<Project>, ids: map<string, string>, renames: nat, taken: set<string>)

  function PlanOne(p: Plan, user: string, raw: JSON, id: string): Plan {
    match Accept(raw)
    case None => p
    case Some(a) =>
      var slug := FreeSlug(a.slug, p.taken);
      Plan(p.rows + [Project(id, user, slug, a.name, a.description)], p.ids[a.id := id],
           if Renamed(a.slug, p.taken) then p.renames + 1 else p.renames, p.taken + {slug})
  }

  function PlanAll(p: Plan, user: string, raws: seq<JSON>, ids: seq<string>): Plan
    requires |raws| <= |ids|
    decreases |raws|
  {
    if raws == [] then p else PlanAll(PlanOne(p, user, raws[0], ids[0]), user, raws[1..], ids[1..])
  }

  function SlugsOf(ps: seq<Project>, user: string): set<string> { set p | p in ps && p.user == user :: p.slug }

  function PlanFor(ps: seq<Project>, user: string, raws: seq<JSON>, ids: seq<string>): Plan
    requires |raws| <= |ids|
  {
    PlanAll(Plan([], map[], 0, SlugsOf(ps, user)), user, raws, ids)
  }

  method PlanProjects(ps: seq<Project>, user: string, raws: seq<JSON>, ids: seq<string>) returns (p: Plan)
    requires |raws| <= |ids|
    ensures p == PlanFor(ps, user, raws, ids)
  {
    hide Accept, FreeSlug, Renamed;
    var existing := SlugsOf(ps, user);
    var rows: seq<Project> := [];
    var idMap: map<string, string> := map[];
    var renames := 0;
    assert raws[0..] == raws && ids[0..] == ids;
    for i := 0 to |raws|
      invariant PlanAll(Plan(rows, idMap, renames, existing), user, raws[i..], ids[i..]) == PlanFor(ps, user, raws, ids)
    {
      assert raws[i..][1..] == raws[i + 1..] && ids[i..][1..] == ids[i + 1..];
      match Accept(raws[i]) {
        case None =>
        case Some(a) =>
          var slug, renamed := NextFreeSlug(a.slug, existing);
          if renamed {
            renames := renames + 1;
          }
          existing := existing + {slug};
          idMap := idMap[a.id := ids[i]];
          rows := rows + [Project(ids[i], user, slug, a.name, a.description)];
      }
    }
    assert raws[|raws|..] == [];
    p := Plan(rows, idMap, renames, existing);
  }

  // ---- memories --------------------------------------------------------------------------------------------------

  /** The embedding the server computes, and whether the archive's vectors must be replaced by it. */
  datatype Embedding = Embedding(again: bool, embed: string -> Vector)

  /** What is stored for a row, or None if its content or its vector is of no use. */
  function Convert(r: Row, e: Embedding): Option<Stored> {
    if e.again && Strip(r.content) == "" then None
    else if !e.again && |r.vector| != VECTOR_SIZE then None
    else Some(Stored(r.content, if e.again then e.embed(r.content) else r.vector, r.tags, DumpMetadata(ParseMetadata(r.metadata))))
  }

  /** Where a row lands: a new project, or None when its project was not imported or the row is of no use. */
  function Destination(r: Row, ids: map<string, string>, e: Embedding): Option<string> {
    if r.project in ids && Convert(r, e).Some? then Some(ids[r.project]) else None
  }

  /** The memories that land in a project, in archive order. */
  function Landing(rows: seq<Row>, project: string, ids: map<string, string>, e: Embedding): seq<Stored>
    decreases |rows|
  {
    if rows == [] then []
    else
      var r := rows[|rows| - 1];
      Landing(rows[..|rows| - 1], project, ids, e)
      + if Destination(r, ids, e) == Some(project) then [Convert(r, e).value] else []
  }

  function Landed(rows: seq<Row>, ids: map<string, string>, e: Embedding): nat
    decreases |rows|
  {
    if rows == [] then 0
    else Landed(rows[..|rows| - 1], ids, e) + if Destination(rows[|rows| - 1], ids, e).Some? then 1 else 0
  }

  /** The positions of the rows that land in a project. */
  ghost function LandingAt(rows: seq<Row>, project: string, ids: map<string, string>, e: Embedding): seq<nat>
    decreases |rows|
  {
    if rows == [] then []
    else
      LandingAt(rows[..|rows| - 1], project, ids, e)
      + if Destination(rows[|rows| - 1], ids, e) == Some(project) then [|rows| - 1] else []
  }

  /** A project receives exactly the rows bound for it, each once and in archive order; other rows land nowhere. */
  lemma {:induction false} LandingMeaning(rows: seq<Row>, project: string, ids: map<string, string>, e: Embedding)
    ensures var at, landed := LandingAt(rows, project, ids, e), Landing(rows, project, ids, e);
            && |at| == |landed|
            && (forall k | 0 <= k < |at| :: at[k] < |rows| && Convert(rows[at[k]], e) == Some(landed[k]))
            && (forall j, k | 0 <= j < k < |at| :: at[j] < at[k])
            && (forall i | 0 <= i < |rows| :: i in at <==> Destination(rows[i], ids, e) == Some(project))
  {
    hide Convert;
    if rows != [] {
      var init := rows[..|rows| - 1];
      LandingMeaning(init, project, ids, e);
      assert forall i | 0 <= i < |init| :: rows[i] == init[i];
    }
  }

  /** A dict from project to batch, with the order in which the keys were first used. */
  datatype Groups = Groups(order: seq<string>, batches: map<string, seq<Stored>>)

  function Batch(g: Groups, p: string): seq<Stored> { if p in g.batches then g.batches[p] else [] }

  /** grouped.setdefault(p, []).append(m) */
  function AddTo(g: Groups, p: string, m: Stored): Groups {
    Groups(if p in g.batches then g.order else g.order + [p], g.batches[p := Batch(g, p) + [m]])
  }

  ghost predicate GroupsFine(g: Groups) {
    && (forall p :: p in g.order <==> p in g.batches)
    && (forall i, j | 0 <= i < j < |g.order| :: g.order[i] != g.order[j])
  }

  /** The number of memories in the batches of the listed projects. */
  function Total(g: Groups, order: seq<string>): nat {
    if order == [] then 0 else Total(g, order[..|order| - 1]) + |Batch(g, order[|order| - 1])|
  }

  lemma {:induction false} TotalElsewhere(g: Groups, order: seq<string>, p: string, m: Stored)
    requires p !in order
    ensures Total(AddTo(g, p, m), order) == Total(g, order)
  {
    if order != [] { TotalElsewhere(g, order[..|order| - 1], p, m); }
  }

  lemma {:induction false} TotalHere(g: Groups, order: seq<string>, p: string, m: Stored)
    requires p in order && forall i, j | 0 <= i < j < |order| :: order[i] != order[j]
    ensures Total(AddTo(g, p, m), order) == Total(g, order) + 1
  {
    var init := order[..|order| - 1];
    assert order == init + [order[|order| - 1]];
    if order[|order| - 1] == p {
      TotalElsewhere(g, init, p, m);
    } else {
      TotalHere(g, init, p, m);
    }
  }

  lemma BatchAfter(g: Groups, p: string, m: Stored, q: string)
    ensures Batch(AddTo(g, p, m), q) == if q == p then Batch(g, p) + [m] else Batch(g, q)
  {
  }

  lemma OrderAfter(g: Groups, p: string, m: Stored)
    requires GroupsFine(g)
    ensures GroupsFine(AddTo(g, p, m))
  {
    hide Batch;
    var h := AddTo(g, p, m);
    assert forall q :: q in h.order <==> q in g.order || q == p;
  }

  lemma OrderUnchanged(g: Groups, p: string, m: Stored)
    requires GroupsFine(g)
    ensures (p in g.order) == (p in g.batches)
    ensures AddTo(g, p, m).order == if p in g.batches then g.order else g.order + [p]
    ensures forall i, j | 0 <= i < j < |g.order| :: g.order[i] != g.order[j]
  {
    hide Batch;
  }

  lemma TotalSnoc(g: Groups, order: seq<string>, p: string)
    ensures Total(g, order + [p]) == Total(g, order) + |Batch(g, p)|
  {
    hide Batch;
    assert (order + [p])[..|order|] == order;
  }

  lemma AddedTo(g: Groups, p: string, m: Stored)
    requires GroupsFine(g)
    ensures var h := AddTo(g, p, m);
            && GroupsFine(h) && Total(h, h.order) == Total(g, g.order) + 1
            && forall q :: Batch(h, q) == if q == p then Batch(g, p) + [m] else Batch(g, q)
  {
    hide AddTo, Batch, Total, GroupsFine;
    var h := AddTo(g, p, m);
    OrderAfter(g, p, m);
    OrderUnchanged(g, p, m);
    forall q ensures Batch(h, q) == if q == p then Batch(g, p) + [m] else Batch(g, q) { BatchAfter(g, p, m, q); }
    if p in g.batches {
      TotalHere(g, g.order, p, m);
    } else {
      TotalElsewhere(g, g.order, p, m);
      TotalSnoc(h, g.order, p);
      NoBatch(g, p);
    }
  }

  lemma NoBatch(g: Groups, p: string)
    requires p !in g.batches
    ensures Batch(g, p) == []
  {
  }

  method GroupMemories(rows: seq<Row>, ids: map<string, string>, e: Embedding) returns (g: Groups)
    ensures GroupsFine(g) && Total(g, g.order) == Landed(rows, ids, e)
    ensures forall p :: Batch(g, p) == Landing(rows, p, ids, e)
  {
    hide Convert, AddTo, Batch, Total, GroupsFine;
    g := Groups([], map[]);
    NoGroups();
    for i := 0 to |rows|
      invariant GroupsFine(g) && Total(g, g.order) == Landed(rows[..i], ids, e)
      invariant forall p :: Batch(g, p) == Landing(rows[..i], p, ids, e)
    {
      var r := rows[i];
      assert rows[..i + 1][..i] == rows[..i];
      if r.project in ids {
        match Convert(r, e) {
          case None =>
          case Some(m) =>
            AddedTo(g, ids[r.project], m);
            g := AddTo(g, ids[r.project], m);
        }
      }
    }
    assert rows[..|rows|] == rows;
  }

  lemma NoGroups()
    ensures GroupsFine(Groups([], map[])) && Total(Groups([], map[]), []) == 0
    ensures forall p :: Batch(Groups([], map[]), p) == []
  {
  }

  // ---- profiles --------------------------------------------------------------------------------------------------

  /** insert ... on conflict (user_id, project_id) do update */
  function Upsert(ps: seq<Profile>, p: Profile): seq<Profile> {
    if ps == [] then [p]
    else if ps[0].user == p.user && ps[0].project == p.project then [p] + ps[1..]
    else [ps[0]] + Upsert(ps[1..], p)
  }

  /** The profile an entry of profiles.json becomes, if it becomes one. */
  function ProfileFrom(raw: JSON, user: string, ids: map<string, string>): Option<Profile> {
    match raw
    case JObject(ms) =>
      (match (Get(ms, "project_id"), Get(ms, "profile_json"))
       case (Some(JString(p)), Some(JString(text))) => if p in ids then Some(Profile(user, ids[p], text)) else None
       case _ => None)
    case _ => None
  }

  function UpsertAll(ps: seq<Profile>, raws: seq<JSON>, user: string, ids: map<string, string>): seq<Profile>
    decreases |raws|
  {
    if raws == [] then ps
    else UpsertAll(match ProfileFrom(raws[0], user, ids) case Some(p) => Upsert(ps, p) case None => ps, raws[1..], user, ids)
  }

  function ProfileCount(raws: seq<JSON>, user: string, ids: map<string, string>): nat {
    if raws == [] then 0 else (if ProfileFrom(raws[0], user, ids).Some? then 1 else 0) + ProfileCount(raws[1..], user, ids)
  }

  // ---- the import --------------------------------------------------------------------------------------------------

  /** Unreadable is a JSON error that the import does not turn into an ArchiveError. */
  datatype Outcome =
    | Rejected(status: nat)
    | Unreadable
    | Imported(projects: nat, renamed: nat, memories: nat, profiles: nat, reembedded: bool)

  /** Whether the archive's vectors cannot be used by this server. */
  predicate NeedsReembed(a: Archive, model: string) { a.embedModel != model || a.vectorSize != VECTOR_SIZE }

  datatype Listing = NotJson | NotList | Items(items: seq<JSON>)

  function ReadList(text: string): Listing {
    match Loads(text)
    case None => NotJson
    case Some(JArray(items)) => Items(items)
    case Some(_) => NotList
  }

  /** Why the archive is refused, if it is. */
  function Refusal(a: Archive, model: string, allow: bool): Option<Outcome> {
    if a.version != VERSION then Some(Rejected(400))
    else if ReadList(a.projects).NotJson? then Some(Unreadable)
    else if ReadList(a.projects).NotList? then Some(Rejected(400))
    else if ReadList(a.profiles).NotJson? then Some(Unreadable)
    else if ReadList(a.profiles).NotList? then Some(Rejected(400))
    else if NeedsReembed(a, model) && !allow then Some(Rejected(409))
    else None
  }

  /** What a server holds. */
  datatype Contents = Contents(projects: seq<Project>, memories: seq<Memory>, profiles: seq<Profile>)

  /** The server's own settings, and the ids it draws for new projects. */
  datatype Server = Server(model: string, embed: string -> Vector, allow: bool, ids: seq<string>)

  predicate EnoughIds(a: Archive, s: Server) {
    ReadList(a.projects).Items? ==> |ReadList(a.projects).items| <= |s.ids|
  }

  /** What importing archive a for a user does to a server's contents, and what it reports. */
  ghost predicate ImportStep(before: Contents, a: Archive, user: string, s: Server, after: Contents, o: Outcome)
    requires EnoughIds(a, s)
  {
    match Refusal(a, s.model, s.allow)
    case Some(r) => after == before && o == r
    case None =>
      var again := NeedsReembed(a, s.model);
      var p := PlanFor(before.projects, user, ReadList(a.projects).items, s.ids);
      var e := Embedding(again, s.embed);
      var profiles := ReadList(a.profiles).items;
      && after.projects == before.projects + p.rows
      && (forall u, q :: Of(after.memories, u, q) ==
                         Of(before.memories, u, q) + if u == user then Landing(a.memories, q, p.ids, e) else [])
      && after.profiles == UpsertAll(before.profiles, profiles, user, p.ids)
      && o == Imported(|p.rows|, p.renames, Landed(a.memories, p.ids, e), ProfileCount(profiles, user, p.ids), again)
  }

  class Database {
    var projects: seq<Project>
    var memories: seq<Memory>
    var profiles: seq<Profile>

    function Held(): Contents
      reads this
    {
      Contents(projects, memories, profiles)
    }

    /** One save_many per group. */
    method SaveGroups(user: string, g: Groups) returns (saved: nat)
      requires GroupsFine(g)
      modifies this`memories
      ensures saved == Total(g, g.order)
      ensures forall u, q :: Of(memories, u, q) == Of(old(memories), u, q) + if u == user then Batch(g, q) else []
    {
      hide Batch, Total, GroupsFine, Of, Entries;
      NoTotal(g);
      saved := 0;
      for i := 0 to |g.order|
        invariant saved == Total(g, g.order[..i])
        invariant forall u, q :: Of(memories, u, q) ==
                    Of(old(memories), u, q) + if u == user && q in g.order[..i] then Batch(g, q) else []
      {
        var p := g.order[i];
        assert g.order[..i + 1] == g.order[..i] + [p];
        NotBefore(g, i);
        TotalSnoc(g, g.order[..i], p);
        var batch := Entries(user, p, Batch(g, p));
        forall u, q ensures Of(memories + batch, u, q) ==
                            Of(memories, u, q) + if u == user && q == p then Batch(g, p) else []
        {
          OfAppend(memories, batch, u, q);
          OfEntries(user, p, Batch(g, p), u, q);
        }
        memories := memories + batch;
        saved := saved + |Batch(g, p)|;
      }
      assert g.order[..|g.order|] == g.order;
      forall p ensures p !in g.order ==> Batch(g, p) == [] { OutsideOrder(g, p); }
    }

    method SaveProfiles(user: string, raws: seq<JSON>, ids: map<string, string>) returns (count: nat)
      modifies this`profiles
      ensures profiles == UpsertAll(old(profiles), raws, user, ids) && count == ProfileCount(raws, user, ids)
    {
      hide ProfileFrom, Upsert;
      count := 0;
      assert raws[0..] == raws;
      for i := 0 to |raws|
        invariant UpsertAll(profiles, raws[i..], user, ids) == UpsertAll(old(profiles), raws, user, ids)
        invariant count + ProfileCount(raws[i..], user, ids) == ProfileCount(raws, user, ids)
      {
        assert raws[i..][1..] == raws[i + 1..];
        match ProfileFrom(raws[i], user, ids) {
          case None =>
          case Some(p) =>
            profiles := Upsert(profiles, p);
            count := count + 1;
        }
      }
      assert raws[|raws|..] == [];
    }

    method ImportArchive(a: Archive, user: string, s: Server) returns (o: Outcome)
      requires EnoughIds(a, s)
      modifies this
      ensures ImportStep(old(Held()), a, user, s, Held(), o)
    {
      hide PlanFor, Landing, Landed, UpsertAll, ProfileCount, Batch, Total, GroupsFine, ReadList, Of;
      var listed, profiled := ReadList(a.projects), ReadList(a.profiles);
      if a.version != VERSION {
        return Rejected(400);
      }
      match listed {
        case NotJson => return Unreadable;
        case NotList => return Rejected(400);
        case Items(raws) =>
          match profiled {
            case NotJson => return Unreadable;
            case NotList => return Rejected(400);
            case Items(attached) =>
              var again := NeedsReembed(a, s.model);
              if again && !s.allow {
                return Rejected(409);
              }
              var p := PlanProjects(projects, user, raws, s.ids);
              projects := projects + p.rows;
              var g := GroupMemories(a.memories, p.ids, Embedding(again, s.embed));
              var saved := SaveGroups(user, g);
              var count := SaveProfiles(user, attached, p.ids);
              return Imported(|p.rows|, p.renames, saved, count, again);
          }
      }
    }
  }

  lemma NoTotal(g: Groups)
    ensures Total(g, g.order[..0]) == 0
  {
  }

  lemma NotBefore(g: Groups, i: nat)
    requires GroupsFine(g) && i < |g.order|
    ensures g.order[i] !in g.order[..i]
  {
  }

  lemma OutsideOrder(g: Groups, p: string)
    requires GroupsFine(g)
    ensures p !in g.order ==> Batch(g, p) == []
  {
  }

  // ---- slugs over any run of imports ---------------------------------------------------------------------------------

  ghost predicate UniqueSlugs(ps: seq<Project>) {
    forall i, j | 0 <= i < j < |ps| :: ps[i].user == ps[j].user ==> ps[i].slug != ps[j].slug
  }

  lemma FreeIsFree(base: string, taken: set<string>)
    ensures FreeSlug(base, taken) !in taken
  {
    hide Candidate;
  }

  lemma AppendUnique(ps: seq<Project>, p: Project, taken: set<string>)
    requires UniqueSlugs(ps) && SlugsOf(ps, p.user) <= taken && p.slug !in taken
    ensures UniqueSlugs(ps + [p]) && SlugsOf(ps + [p], p.user) <= taken + {p.slug}
  {
    var qs := ps + [p];
    forall i, j | 0 <= i < j < |qs| && qs[i].user == qs[j].user ensures qs[i].slug != qs[j].slug {
      if j == |ps| { assert ps[i].slug in SlugsOf(ps, p.user); }
    }
  }

  lemma {:induction false} PlanKeepsUnique(ps: seq<Project>, p: Plan, user: string, raws: seq<JSON>, ids: seq<string>)
    requires |raws| <= |ids| && UniqueSlugs(ps + p.rows) && SlugsOf(ps + p.rows, user) <= p.taken
    requires forall r | r in p.rows :: r.user == user
    ensures var q := PlanAll(p, user, raws, ids); UniqueSlugs(ps + q.rows) && forall r | r in q.rows :: r.user == user
    decreases |raws|
  {
    hide FreeSlug, Accept, Renamed, UniqueSlugs, SlugsOf;
    if raws != [] {
      var next := PlanOne(p, user, raws[0], ids[0]);
      match Accept(raws[0]) {
        case None =>
        case Some(a) =>
          FreeIsFree(a.slug, p.taken);
          var row := next.rows[|p.rows|];
          AppendUnique(ps + p.rows, row, p.taken);
          assert ps + next.rows == ps + p.rows + [row];
      }
      PlanKeepsUnique(ps, next, user, raws[1..], ids[1..]);
    }
  }

  /** An import by one user: its archive entries and the ids drawn for them. */
  datatype Import = Import(user: string, raws: seq<JSON>, ids: seq<string>)

  ghost predicate AllReady(imports: seq<Import>) { forall i | 0 <= i < |imports| :: |imports[i].raws| <= |imports[i].ids| }

  /** The projects table after a run of imports. */
  ghost function AfterImports(ps: seq<Project>, imports: seq<Import>): seq<Project>
    requires AllReady(imports)
    decreases |imports|
  {
    if imports == [] then ps
    else
      var before := AfterImports(ps, imports[..|imports| - 1]);
      var last := imports[|imports| - 1];
      before + PlanFor(before, last.user, last.raws, last.ids).rows
  }

  /** Over any run of imports slugs stay unique per user and the projects that were there stay as they are. */
  lemma {:induction false} ImportsKeepSlugs(ps: seq<Project>, imports: seq<Import>)
    requires AllReady(imports) && UniqueSlugs(ps)
    ensures UniqueSlugs(AfterImports(ps, imports)) && ps <= AfterImports(ps, imports)
    decreases |imports|
  {
    hide PlanAll, UniqueSlugs;
    if imports != [] {
      var before := AfterImports(ps, imports[..|imports| - 1]);
      var last := imports[|imports| - 1];
      ImportsKeepSlugs(ps, imports[..|imports| - 1]);
      assert before + [] == before;
      PlanKeepsUnique(before, Plan([], map[], 0, SlugsOf(before, last.user)), last.user, last.raws, last.ids);
    }
  }
}
