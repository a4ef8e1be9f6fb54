/** The migration as one run over the database: plan, SQLite transaction, then the vector tables. */
module ConsolidateDb {
  import opened Text
  import opened Consolidate
  import opened ConsolidateRun

  // ---- the projects table ----------------------------------------------------------------------------------------

  /** delete from projects where id in gone */
  function Remaining(ps: seq<Project>, merges: seq<Merge>, deletes: seq<string>): seq<Project> {
    if ps == [] then []
    else (if Gone(ps[0].id, merges, deletes) then [] else [ps[0]]) + Remaining(ps[1..], merges, deletes)
  }

  datatype Restamp = Restamp(id: string, stamp: Stamp)

  /** root_by_survivor: the survivors by canonical root. */
  function RestampsOf(ps: seq<Project>, names: seq<Stamp>): seq<Restamp> {
    if names == [] then []
    else
      var init, last := RestampsOf(ps, names[..|names| - 1]), names[|names| - 1];
      match ProjectAt(ps, last.root) case Some(id) => init + [Restamp(id, last)] case None => init
  }

  /** Another project of the same user already has the slug: UNIQUE(user_id, slug) refuses the update. */
  predicate Clash(ps: seq<Project>, r: Restamp) {
    exists i, j | 0 <= i < |ps| && 0 <= j < |ps| ::
      ps[i].id == r.id && ps[j].id != r.id && ps[i].user == ps[j].user && ps[j].slug == r.stamp.slug
  }

  function StampRow(p: Project, r: Restamp): Project {
    if p.id == r.id then p.(name := r.stamp.name, slug := r.stamp.slug, cwd := Some(r.stamp.root)) else p
  }

  function StampRows(ps: seq<Project>, r: Restamp): (s: seq<Project>)
    ensures |s| == |ps| && forall i | 0 <= i < |ps| :: s[i] == StampRow(ps[i], r)
  {
    if ps == [] then [] else [StampRow(ps[0], r)] + StampRows(ps[1..], r)
  }

  /** The updates one after the other; None when one of them is refused. */
  function StampAll(ps: seq<Project>, rs: seq<Restamp>): Option<seq<Project>>
    decreases |rs|
  {
    if rs == [] then Some(ps)
    else match StampAll(ps, rs[..|rs| - 1])
         case None => None
         case Some(qs) => if Clash(qs, rs[|rs| - 1]) then None else Some(StampRows(qs, rs[|rs| - 1]))
  }

  ghost predicate UniqueSlugs(ps: seq<Project>) {
    forall i, j | 0 <= i < j < |ps| :: ps[i].user == ps[j].user ==> ps[i].slug != ps[j].slug
  }

  lemma StampKeepsUnique(ps: seq<Project>, r: Restamp)
    requires DistinctIds(ps) && UniqueSlugs(ps) && !Clash(ps, r)
    ensures UniqueSlugs(StampRows(ps, r)) && DistinctIds(StampRows(ps, r))
  {
    var s := StampRows(ps, r);
    forall i, j | 0 <= i < j < |s| && s[i].user == s[j].user ensures s[i].slug != s[j].slug {
      if ps[i].id == r.id { assert ps[j].id != r.id; } else if ps[j].id == r.id { assert ps[i].id != r.id; }
    }
  }

  /** When every update is accepted, ids and owners are as before and slugs are still unique per user. */
  lemma {:induction false} StampsKeep(ps: seq<Project>, rs: seq<Restamp>)
    requires DistinctIds(ps) && UniqueSlugs(ps) && StampAll(ps, rs).Some?
    ensures var after := StampAll(ps, rs).value;
            && |after| == |ps| && DistinctIds(after) && UniqueSlugs(after)
            && forall i | 0 <= i < |ps| :: after[i].id == ps[i].id && after[i].user == ps[i].user
    decreases |rs|
  {
    hide Clash, DistinctIds, UniqueSlugs;
    if rs != [] {
      StampsKeep(ps, rs[..|rs| - 1]);
      StampKeepsUnique(StampAll(ps, rs[..|rs| - 1]).value, rs[|rs| - 1]);
    }
  }

  /** The last stamp given to an id. */
  function StampFor(id: string, rs: seq<Restamp>): Option<Stamp>
    decreases |rs|
  {
    if rs == [] then None
    else if rs[|rs| - 1].id == id then Some(rs[|rs| - 1].stamp) else StampFor(id, rs[..|rs| - 1])
  }

  /** Every row carries the name, slug and path it was stamped with, or is untouched. */
  lemma {:induction false} StampsApplied(ps: seq<Project>, rs: seq<Restamp>, i: nat)
    requires StampAll(ps, rs).Some? && i < |ps|
    ensures |StampAll(ps, rs).value| == |ps|
    ensures var p := StampAll(ps, rs).value[i];
            match StampFor(ps[i].id, rs)
            case Some(s) => p == ps[i].(name := s.name, slug := s.slug, cwd := Some(s.root))
            case None => p == ps[i]
    decreases |rs|
  {
    hide Clash;
    if rs != [] { StampsApplied(ps, rs[..|rs| - 1], i); }
  }

  /** The projects that remain are those the plan keeps. */
  lemma {:induction false} RemainingAreKept(all: seq<Project>, ps: seq<Project>, p: Project)
    requires DistinctIds(all) && p in all && (forall q | q in ps :: q in all)
    ensures p in Remaining(ps, MergesOf(all, all), DeletesOf(all, all)) <==> p in ps && FateOf(all, p).Keep?
  {
    hide FateOf, Gone, DistinctIds;
    if ps != [] {
      RemainingAreKept(all, ps[1..], p);
      GoneIsNotKept(all, ps[0]);
    }
  }

  lemma GoneIsNotKept(all: seq<Project>, p: Project)
    requires DistinctIds(all) && p in all
    ensures Gone(p.id, MergesOf(all, all), DeletesOf(all, all)) <==> !FateOf(all, p).Keep?
  {
    hide FateOf, DistinctIds;
    var ms, ds := MergesOf(all, all), DeletesOf(all, all);
    DeletesAre(all, all, p.id);
    forall q | q in all && q.id == p.id ensures q == p { IdIsUnique(all, q, p); }
    if i :| 0 <= i < |ms| && ms[i].absorbed == p.id { MergesAre(all, all, ms[i]); }
    if FateOf(all, p).MergeInto? {
      var m := Merge(p.id, FateOf(all, p).survivor);
      MergesAre(all, all, m);
      var i :| 0 <= i < |ms| && ms[i] == m;
    }
  }

  // ---- the run -------------------------------------------------------------------------------------------------------

  /** One table after the plan. */
  function TableOf(rows: seq<Row>, ps: seq<Project>): seq<Row> { Placed(rows, MergesOf(ps, ps), DeletesOf(ps, ps)) }

  function VectorsOf(tables: seq<seq<Row>>, ps: seq<Project>): seq<seq<Row>> {
    seq(|tables|, i requires 0 <= i < |tables| => TableOf(tables[i], ps))
  }

  /** The projects table after the transaction, None when a re-stamp is refused. */
  function ProjectsOf(ps: seq<Project>): Option<seq<Project>> {
    StampAll(Remaining(ps, MergesOf(ps, ps), DeletesOf(ps, ps)), RestampsOf(ps, NAMES))
  }

  class Database {
    var projects: seq<Project>
    var sessions: seq<Row>
    var analyses: seq<Row>
    var tokens: seq<Row>
    var profiles: Profiles
    /** The LanceDB tables that have a project_id column. */
    var vectors: seq<seq<Row>>

    static method MoveTable(rows: seq<Row>, merges: seq<Merge>, deletes: seq<string>) returns (after: seq<Row>)
      requires SoundPlan(merges, deletes)
      ensures after == Placed(rows, merges, deletes)
    {
      hide MoveRows, DropRows, Placed, SoundPlan;
      after := rows;
      for i := 0 to |merges|
        invariant after == MoveAll(rows, merges[..i])
      {
        assert merges[..i + 1][..i] == merges[..i];
        after := MoveRows(after, merges[i]);
      }
      assert merges[..|merges|] == merges;
      ghost var moved := after;
      for i := 0 to |deletes|
        invariant after == DropAll(moved, deletes[..i])
      {
        assert deletes[..i + 1][..i] == deletes[..i];
        after := DropRows(after, deletes[i]);
      }
      assert deletes[..|deletes|] == deletes;
      TableAfter(rows, merges, deletes);
    }

    /** The same on user_profiles. No update ever meets its primary key, which MoveProfiles demands. */
    method MoveProfileTable(merges: seq<Merge>, deletes: seq<string>) returns (after: Profiles)
      requires SoundPlan(merges, deletes)
      ensures forall u, p :: ProfileOf(after, u, p) ==
                if Gone(p, merges, deletes) then None else FirstProfile(profiles, u, Group(p, merges))
    {
      hide MergeProfiles, DropProfiles, SoundPlan;
      Irreflexive(merges, deletes);
      after := profiles;
      for i := 0 to |merges|
        invariant after == MergeAllProfiles(profiles, merges[..i])
      {
        assert merges[..i + 1][..i] == merges[..i];
        var m := merges[i];
        var cleared := DropColliding(after, m);
        after := MoveProfiles(cleared, m);
        IsMergeProfiles(MergeAllProfiles(profiles, merges[..i]), m);
      }
      assert merges[..|merges|] == merges;
      ghost var merged := after;
      for i := 0 to |deletes|
        invariant after == DropAllProfiles(merged, deletes[..i])
      {
        assert deletes[..i + 1][..i] == deletes[..i];
        after := DropProfiles(after, deletes[i]);
      }
      assert deletes[..|deletes|] == deletes;
      forall u, p ensures ProfileOf(after, u, p) ==
                            if Gone(p, merges, deletes) then None else FirstProfile(profiles, u, Group(p, merges)) {
        ProfileAfter(profiles, merged, merges, deletes, u, p);
      }
    }

    /** main with --execute: all of it, or nothing when a re-stamp is refused and the transaction is lost. */
    method Migrate() returns (ok: bool)
      requires DistinctIds(projects)
      modifies this
      ensures ok == ProjectsOf(old(projects)).Some?
      ensures ok ==>
                && projects == ProjectsOf(old(projects)).value
                && sessions == TableOf(old(sessions), old(projects))
                && analyses == TableOf(old(analyses), old(projects))
                && tokens == TableOf(old(tokens), old(projects))
                && vectors == VectorsOf(old(vectors), old(projects))
                && var ms, ds := MergesOf(old(projects), old(projects)), DeletesOf(old(projects), old(projects));
                   forall u, p :: ProfileOf(profiles, u, p) ==
                     if Gone(p, ms, ds) then None else FirstProfile(old(profiles), u, Group(p, ms))
      ensures !ok ==> projects == old(projects) && sessions == old(sessions) && analyses == old(analyses)
                      && tokens == old(tokens) && profiles == old(profiles) && vectors == old(vectors)
    {
      hide MergesOf, DeletesOf, SoundPlan, Placed, Remaining, RestampsOf, DistinctIds, Gone, NAMES, Clash, StampRows;
      var merges, deletes := BuildPlan(projects);
      PlanIsSound(projects);
      var newSessions := MoveTable(sessions, merges, deletes);
      var newAnalyses := MoveTable(analyses, merges, deletes);
      var newTokens := MoveTable(tokens, merges, deletes);
      var newProfiles := MoveProfileTable(merges, deletes);
      var rows := Remaining(projects, merges, deletes);
      var stamps := RestampsOf(projects, NAMES);
      ghost var start := rows;
      for i := 0 to |stamps|
        invariant StampAll(start, stamps[..i]) == Some(rows)
      {
        assert stamps[..i + 1][..i] == stamps[..i];
        if Clash(rows, stamps[i]) {
          RefusedStays(start, stamps, i + 1);
          return false;
        }
        rows := StampRows(rows, stamps[i]);
      }
      assert stamps[..|stamps|] == stamps;
      var tables, ps := vectors, projects;
      var newVectors := [];
      for i := 0 to |tables|
        invariant |newVectors| == i && forall j | 0 <= j < i :: newVectors[j] == TableOf(tables[j], ps)
      {
        var t := MoveTable(tables[i], merges, deletes);
        newVectors := newVectors + [t];
      }
      assert newVectors == VectorsOf(tables, ps);
      projects, sessions, analyses, tokens := rows, newSessions, newAnalyses, newTokens;
      profiles, vectors := newProfiles, newVectors;
      return true;
    }
  }

  lemma IsMergeProfiles(ps: Profiles, m: Merge)
    requires m.absorbed != m.survivor
    ensures MergeProfiles(ps, m) == MoveProfiles(DropColliding(ps, m), m)
  {
  }

  lemma ProfileAfter(ps: Profiles, merged: Profiles, merges: seq<Merge>, deletes: seq<string>, u: string, p: string)
    requires SoundPlan(merges, deletes)
    requires forall i | 0 <= i < |merges| :: merges[i].absorbed != merges[i].survivor
    requires merged == MergeAllProfiles(ps, merges)
    ensures ProfileOf(DropAllProfiles(merged, deletes), u, p)
         == if Gone(p, merges, deletes) then None else FirstProfile(ps, u, Group(p, merges))
  {
    hide ProfileOf, MergeAllProfiles, DropAllProfiles, SoundPlan;
    MergedProfiles(ps, merges, deletes, u, p);
    DroppedProfiles(merged, deletes, u, p);
  }

  lemma {:induction false} RefusedStays(ps: seq<Project>, rs: seq<Restamp>, n: nat)
    requires n <= |rs| && StampAll(ps, rs[..n]) == None
    ensures StampAll(ps, rs) == None
    decreases |rs|
  {
    hide Clash;
    if n == |rs| {
      assert rs[..n] == rs;
    } else {
      assert rs[..|rs| - 1][..n] == rs[..n];
      RefusedStays(ps, rs[..|rs| - 1], n);
    }
  }

  /**
   A committed migration: nothing but junk rows is lost from a table, and what is left names only projects the
   plan keeps.
   */
  lemma TablesConserved(rows: seq<Row>, ps: seq<Project>)
    requires DistinctIds(ps)
    ensures var after := TableOf(rows, ps);
            && |after| + JunkRows(rows, DeletesOf(ps, ps)) == |rows|
            && forall r, p | r in after && p in ps && r.project == Some(p.id) :: FateOf(ps, p).Keep?
  {
    hide MergesOf, DeletesOf, SoundPlan, Placed, DistinctIds, Gone, FateOf;
    PlanIsSound(ps);
    RowsConserved(rows, MergesOf(ps, ps), DeletesOf(ps, ps));
    forall r, p | r in TableOf(rows, ps) && p in ps && r.project == Some(p.id) ensures FateOf(ps, p).Keep? {
      GoneIsNotKept(ps, p);
    }
  }
}
