/** Exporting one user's account as an archive. */
module ArchiveExport {
  import opened Text
  import opened Json
  import opened JsonText
  import opened ParseFacts
  import opened ArchiveImport

  function OwnProjects(ps: seq<Project>, user: string): seq<Project> {
    if ps == [] then [] else (if ps[0].user == user then [ps[0]] else []) + OwnProjects(ps[1..], user)
  }

  /** An entry of projects.json. */
  function ProjectEntry(p: Project): JSON {
    JObject([Member("id", JString(p.id)), Member("slug", JString(p.slug)), Member("name", JString(p.name)),
             Member("description", match p.description case None => JNull case Some(d) => JString(d))])
  }

  function ProjectEntries(ps: seq<Project>): (r: seq<JSON>)
    ensures |r| == |ps|
  {
    if ps == [] then [] else [ProjectEntry(ps[0])] + ProjectEntries(ps[1..])
  }

  /** An entry of profiles.json. */
  function ProfileEntry(p: Profile): JSON {
    JObject([Member("project_id", JString(p.project)), Member("profile_json", JString(p.json))])
  }

  function ProfileEntries(ps: seq<Profile>, user: string): seq<JSON> {
    if ps == [] then [] else (if ps[0].user == user then [ProfileEntry(ps[0])] else []) + ProfileEntries(ps[1..], user)
  }

  /** A row of memories.parquet. */
  function ExportRow(m: Memory): Row {
    Row(m.project, m.stored.content, m.stored.tags, CoerceMetadata(m.stored.metadata), m.stored.vector)
  }

  function ExportRows(table: seq<Memory>, user: string, own: set<string>): seq<Row>
    decreases |table|
  {
    if table == [] then []
    else
      var m := table[|table| - 1];
      ExportRows(table[..|table| - 1], user, own) + if m.user == user && m.project in own then [ExportRow(m)] else []
  }

  function Export(d: Contents, user: string, model: string): Archive {
    var own := OwnProjects(d.projects, user);
    Archive(VERSION, model, VECTOR_SIZE, Print(JArray(ProjectEntries(own)), Compact),
                    ExportRows(d.memories, user, set p | p in own :: p.id),
                    Print(JArray(ProfileEntries(d.profiles, user)), Compact))
  }

  /** The column lists of memories.parquet. */
  datatype Columns = Columns(project: seq<string>, content: seq<string>, tags: seq<seq<string>>, metadata: seq<string>,
                             vector: seq<Vector>)

  /** The rows whose columns these are. */
  ghost predicate ColumnsOf(c: Columns, rows: seq<Row>) {
    && |c.project| == |c.content| == |c.tags| == |c.metadata| == |c.vector| == |rows|
    && forall i | 0 <= i < |rows| :: rows[i] == Row(c.project[i], c.content[i], c.tags[i], c.metadata[i], c.vector[i])
  }

  method BuildMemoryColumns(table: seq<Memory>, user: string, own: seq<Project>) returns (c: Columns)
    ensures ColumnsOf(c, ExportRows(table, user, set p | p in own :: p.id))
  {
    hide CoerceMetadata;
    c := Columns([], [], [], [], []);
    var ids := set p | p in own :: p.id;
    for i := 0 to |table|
      invariant ColumnsOf(c, ExportRows(table[..i], user, ids))
    {
      assert table[..i + 1][..i] == table[..i];
      var m := table[i];
      if m.user == user && m.project in ids {
        var r := ExportRow(m);
        c := Columns(c.project + [r.project], c.content + [r.content], c.tags + [r.tags],
                     c.metadata + [r.metadata], c.vector + [r.vector]);
      }
    }
    assert table[..|table|] == table;
  }

  // ---- what the importer reads back ------------------------------------------------------------------------------

  lemma ListReadBack(items: seq<JSON>)
    requires forall v | v in items :: WellFormed(v)
    ensures ReadList(Print(JArray(items), Compact)) == Items(items)
  {
    hide Print, Loads;
    DumpsLoads(JArray(items), Compact);
  }

  lemma ProjectEntryWellFormed(p: Project)
    ensures WellFormed(ProjectEntry(p))
  {
  }

  lemma {:induction false} ProjectEntriesWellFormed(ps: seq<Project>)
    ensures forall v | v in ProjectEntries(ps) :: WellFormed(v)
  {
    hide ProjectEntry, WellFormed;
    if ps != [] {
      ProjectEntryWellFormed(ps[0]);
      ProjectEntriesWellFormed(ps[1..]);
    }
  }

  lemma {:induction false} ProfileEntriesWellFormed(ps: seq<Profile>, user: string)
    ensures forall v | v in ProfileEntries(ps, user) :: WellFormed(v)
  {
    if ps != [] {
      var entry := ProfileEntry(ps[0]);
      assert WellFormed(entry);
      ProfileEntriesWellFormed(ps[1..], user);
    }
  }

  /** Both lists of an export are read back as they were written. */
  lemma ExportReadBack(d: Contents, user: string, model: string)
    ensures var a := Export(d, user, model);
            && ReadList(a.projects) == Items(ProjectEntries(OwnProjects(d.projects, user)))
            && ReadList(a.profiles) == Items(ProfileEntries(d.profiles, user))
  {
    hide ReadList, Print, ProjectEntries, ProfileEntries, WellFormed, ExportRows;
    ProjectEntriesWellFormed(OwnProjects(d.projects, user));
    ProfileEntriesWellFormed(d.profiles, user);
    ListReadBack(ProjectEntries(OwnProjects(d.projects, user)));
    ListReadBack(ProfileEntries(d.profiles, user));
  }

  // ---- metadata ------------------------------------------------------------------------------------------------

  lemma ParsedMetadataWellFormed(text: string)
    ensures WellFormed(JObject(ParseMetadata(text)))
  {
    hide ReadValue, SkipBlanks, WellFormed;
    match Loads(text) {
      case Some(JObject(ms)) => ReadWellFormed(SkipBlanks(text));
      case _ => NoMembers();
    }
  }

  lemma NoMembers()
    ensures WellFormed(JObject([]))
  {
  }

  /** Metadata that was dumped from a dict is parsed as that dict. */
  lemma MetadataReadBack(ms: seq<Member>)
    requires WellFormed(JObject(ms))
    ensures ParseMetadata(DumpMetadata(ms)) == ms
  {
    hide Loads, Print, WellFormed;
    DumpsLoads(JObject(ms), Compact);
  }

  /** Coercing metadata twice is coercing it once; it changes nothing exactly when the text was dumped from a dict. */
  lemma CoerceTwice(text: string)
    ensures CoerceMetadata(CoerceMetadata(text)) == CoerceMetadata(text)
    ensures ParseMetadata(CoerceMetadata(text)) == ParseMetadata(text)
    ensures CoerceMetadata(text) == text <==> exists ms :: WellFormed(JObject(ms)) && text == DumpMetadata(ms)
  {
    hide ParseMetadata, DumpMetadata, WellFormed;
    ParsedMetadataWellFormed(text);
    MetadataReadBack(ParseMetadata(text));
    forall ms | WellFormed(JObject(ms)) && text == DumpMetadata(ms) ensures CoerceMetadata(text) == text {
      MetadataReadBack(ms);
    }
  }

  /** What is kept of an imported row: everything but the vector, which a re-embedding import computes from the content. */
  lemma ConvertMeaning(r: Row, e: Embedding)
    ensures Convert(r, e).None? <==> if e.again then Strip(r.content) == "" else |r.vector| != VECTOR_SIZE
    ensures Convert(r, e).Some? ==>
              var m := Convert(r, e).value;
              && m.content == r.content && m.tags == r.tags && ParseMetadata(m.metadata) == ParseMetadata(r.metadata)
              && m.vector == if e.again then e.embed(m.content) else r.vector
  {
    hide Strip, ParseMetadata, DumpMetadata, WellFormed;
    ParsedMetadataWellFormed(r.metadata);
    MetadataReadBack(ParseMetadata(r.metadata));
  }
}
