/** Executing a merge plan on the tables, and what the tables hold afterwards. */
module ConsolidateRun {
  import opened Text
  import opened Consolidate

  /** A row of a table with a project_id column; only the project matters here. */
  datatype Row = Row(key: string, project: Option<string>)

  datatype ProfileKey = ProfileKey(user: string, project: string)

  /** user_profiles: its primary key is (user_id, project_id). */
  type Profiles = map<ProfileKey, string>

  // ---- single statements -----------------------------------------------------------------------------------------

  /** update t set project_id = m.survivor where project_id = m.absorbed */
  function MoveRow(r: Row, m: Merge): Row { if r.project == Some(m.absorbed) then r.(project := Some(m.survivor)) else r }

  function MoveRows(rows: seq<Row>, m: Merge): (r: seq<Row>)
    ensures |r| == |rows| && forall i | 0 <= i < |rows| :: r[i] == MoveRow(rows[i], m)
  {
    if rows == [] then [] else [MoveRow(rows[0], m)] + MoveRows(rows[1..], m)
  }

  /** delete from t where project_id = d */
  function DropRows(rows: seq<Row>, d: string): seq<Row> {
    if rows == [] then [] else (if rows[0].project == Some(d) then [] else [rows[0]]) + DropRows(rows[1..], d)
  }

  /** The absorbed project's profiles go where the survivor has one for the same user. */
  function DropColliding(ps: Profiles, m: Merge): Profiles {
    map k | k in ps && !(k.project == m.absorbed && ProfileKey(k.user, m.survivor) in ps) :: ps[k]
  }

  function MoveKey(k: ProfileKey, m: Merge): ProfileKey { if k.project == m.absorbed then k.(project := m.survivor) else k }

  /** The same update on user_profiles; it would fail if two rows came to share a primary key. */
  function MoveProfiles(ps: Profiles, m: Merge): Profiles
    requires m.absorbed != m.survivor
    requires forall u :: !(ProfileKey(u, m.absorbed) in ps && ProfileKey(u, m.survivor) in ps)
  {
    map k | k in ps :: MoveKey(k, m) := ps[k]
  }

  function DropProfiles(ps: Profiles, d: string): Profiles { map k | k in ps && k.project != d :: ps[k] }

  function ProfileOf(ps: Profiles, u: string, p: string): Option<string> {
    if ProfileKey(u, p) in ps then Some(ps[ProfileKey(u, p)]) else None
  }

  function MergeProfiles(ps: Profiles, m: Merge): Profiles
    requires m.absorbed != m.survivor
  {
    MoveProfiles(DropColliding(ps, m), m)
  }

  lemma MergedProfile(ps: Profiles, m: Merge, u: string, p: string)
    requires m.absorbed != m.survivor
    ensures ProfileOf(MergeProfiles(ps, m), u, p) ==
              if p == m.absorbed then None
              else if p == m.survivor && ProfileOf(ps, u, p) == None then ProfileOf(ps, u, m.absorbed)
              else ProfileOf(ps, u, p)
  {
    var d := DropColliding(ps, m);
    var r := MoveProfiles(d, m);
    var k := ProfileKey(u, p);
    if k in r {
      var x :| x in d && MoveKey(x, m) == k && r[k] == d[x];
    }
    if k in d && p != m.absorbed { assert MoveKey(k, m) == k && k in r; }
    if p == m.survivor && ProfileKey(u, m.absorbed) in d { assert MoveKey(ProfileKey(u, m.absorbed), m) in r; }
  }

  // ---- whole loops -----------------------------------------------------------------------------------------------

  function MoveAll(rows: seq<Row>, merges: seq<Merge>): seq<Row>
    decreases |merges|
  {
    if merges == [] then rows else MoveRows(MoveAll(rows, merges[..|merges| - 1]), merges[|merges| - 1])
  }

  function DropAll(rows: seq<Row>, deletes: seq<string>): seq<Row>
    decreases |deletes|
  {
    if deletes == [] then rows else DropRows(DropAll(rows, deletes[..|deletes| - 1]), deletes[|deletes| - 1])
  }

  function MergeAllProfiles(ps: Profiles, merges: seq<Merge>): Profiles
    requires forall i | 0 <= i < |merges| :: merges[i].absorbed != merges[i].survivor
    decreases |merges|
  {
    if merges == [] then ps else MergeProfiles(MergeAllProfiles(ps, merges[..|merges| - 1]), merges[|merges| - 1])
  }

  function DropAllProfiles(ps: Profiles, deletes: seq<string>): Profiles
    decreases |deletes|
  {
    if deletes == [] then ps else DropProfiles(DropAllProfiles(ps, deletes[..|deletes| - 1]), deletes[|deletes| - 1])
  }

  // ---- where every row ends up -------------------------------------------------------------------------------------

  /** The project that takes over p's rows. */
  function Successor(p: string, merges: seq<Merge>): string {
    if merges == [] then p else if merges[0].absorbed == p then merges[0].survivor else Successor(p, merges[1..])
  }

  function PlacedRow(r: Row, merges: seq<Merge>): Row {
    match r.project
    case Some(p) => r.(project := Some(Successor(p, merges)))
    case None => r
  }

  /** Rows of junk projects go; every other row stays, in place, under the project that took its own over. */
  function Placed(rows: seq<Row>, merges: seq<Merge>, deletes: seq<string>): seq<Row> {
    if rows == [] then []
    else
      var first := if rows[0].project.Some? && rows[0].project.value in deletes then [] else [PlacedRow(rows[0], merges)];
      first + Placed(rows[1..], merges, deletes)
  }

  /** The positions of the rows that stay. */
  ghost function StayingAt(rows: seq<Row>, deletes: seq<string>): seq<nat>
    decreases |rows|
  {
    if rows == [] then []
    else
      var r := rows[|rows| - 1];
      StayingAt(rows[..|rows| - 1], deletes) + if r.project.Some? && r.project.value in deletes then [] else [|rows| - 1]
  }

  lemma {:induction false} PlacedSnoc(rows: seq<Row>, r: Row, merges: seq<Merge>, deletes: seq<string>)
    ensures Placed(rows + [r], merges, deletes) == Placed(rows, merges, deletes)
              + if r.project.Some? && r.project.value in deletes then [] else [PlacedRow(r, merges)]
  {
    hide PlacedRow;
    if rows == [] {
      assert [] + [r] == [r] && [r][1..] == [];
    } else {
      assert (rows + [r])[1..] == rows[1..] + [r];
      PlacedSnoc(rows[1..], r, merges, deletes);
    }
  }

  ghost predicate DistinctAbsorbed(merges: seq<Merge>) {
    forall i, j | 0 <= i < j < |merges| :: merges[i].absorbed != merges[j].absorbed
  }

  lemma {:induction false} SuccessorIs(p: string, merges: seq<Merge>, m: Merge)
    requires DistinctAbsorbed(merges)
    ensures m in merges && m.absorbed == p ==> Successor(p, merges) == m.survivor
    ensures (forall n | n in merges :: n.absorbed != p) ==> Successor(p, merges) == p
  {
    if merges != [] {
      assert forall i | 1 <= i < |merges| :: merges[i] == merges[1..][i - 1];
      SuccessorIs(p, merges[1..], m);
      assert m in merges ==> m == merges[0] || m in merges[1..];
    }
  }

  /** The row kept its key; it is the survivor's if its project was absorbed, and unchanged otherwise. */
  ghost predicate Follows(r: Row, after: Row, merges: seq<Merge>) {
    && after.key == r.key
    && (forall m | m in merges && r.project == Some(m.absorbed) :: after.project == Some(m.survivor))
    && ((forall m | m in merges :: r.project != Some(m.absorbed)) ==> after == r)
  }

  lemma PlacedFollows(r: Row, merges: seq<Merge>)
    requires DistinctAbsorbed(merges)
    ensures Follows(r, PlacedRow(r, merges), merges)
  {
    hide Successor, DistinctAbsorbed;
    if r.project.Some? {
      forall m | m in merges ensures m.absorbed == r.project.value ==> Successor(r.project.value, merges) == m.survivor {
        SuccessorIs(r.project.value, merges, m);
      }
      SuccessorIs(r.project.value, merges, Merge("", ""));
    }
  }

  /**
   A table afterwards: exactly the rows of no junk project, each once, in order and with its key; a row of an absorbed
   project is its survivor's, every other row keeps its project.
   */
  lemma {:induction false} PlacedMeaning(rows: seq<Row>, merges: seq<Merge>, deletes: seq<string>)
    requires DistinctAbsorbed(merges)
    ensures var at, after := StayingAt(rows, deletes), Placed(rows, merges, deletes);
            && |at| == |after|
            && (forall j, k | 0 <= j < k < |at| :: at[j] < at[k])
            && (forall i: nat | i < |rows| :: i in at <==> forall d | d in deletes :: rows[i].project != Some(d))
            && forall k | 0 <= k < |at| :: at[k] < |rows| && Follows(rows[at[k]], after[k], merges)
    decreases |rows|
  {
    hide PlacedRow, Follows, DistinctAbsorbed, Placed;
    if rows == [] {
      NonePlaced(merges, deletes);
    } else {
      var init, r := rows[..|rows| - 1], rows[|rows| - 1];
      PlacedMeaning(init, merges, deletes);
      assert rows == init + [r];
      PlacedSnoc(init, r, merges, deletes);
      PlacedFollows(r, merges);
      assert forall i | 0 <= i < |init| :: rows[i] == init[i];
    }
  }

  lemma NonePlaced(merges: seq<Merge>, deletes: seq<string>)
    ensures Placed([], merges, deletes) == []
  {
  }

  lemma {:induction false} SuccessorSnoc(p: string, merges: seq<Merge>, m: Merge)
    requires forall i | 0 <= i < |merges| :: merges[i].survivor != m.absorbed && merges[i].absorbed != m.absorbed
    ensures Successor(p, merges + [m]) == MoveName(Successor(p, merges), m)
  {
    if merges == [] {
      assert [] + [m] == [m] && [m][1..] == [];
    } else {
      assert (merges + [m])[1..] == merges[1..] + [m];
      if merges[0].absorbed != p { SuccessorSnoc(p, merges[1..], m); }
    }
  }

  function MoveName(p: string, m: Merge): string { if p == m.absorbed then m.survivor else p }

  /** Sequential re-pointing is simultaneous re-pointing, because a plan has no chains. */
  lemma {:induction false} MovedRow(rows: seq<Row>, merges: seq<Merge>, deletes: seq<string>, i: nat)
    requires SoundPlan(merges, deletes) && i < |rows|
    ensures |MoveAll(rows, merges)| == |rows| && MoveAll(rows, merges)[i] == PlacedRow(rows[i], merges)
    decreases |merges|
  {
    if merges != [] {
      var init, m := merges[..|merges| - 1], merges[|merges| - 1];
      assert merges == init + [m];
      assert forall j | 0 <= j < |init| :: init[j] == merges[j];
      MovedRow(rows, init, deletes, i);
      if rows[i].project.Some? { SuccessorSnoc(rows[i].project.value, init, m); }
    }
  }

  /** The rows that name none of the given projects. */
  function Keeping(rows: seq<Row>, deletes: seq<string>): seq<Row> {
    if rows == [] then []
    else (if rows[0].project.Some? && rows[0].project.value in deletes then [] else [rows[0]]) + Keeping(rows[1..], deletes)
  }

  predicate Names(r: Row, deletes: seq<string>) { r.project.Some? && r.project.value in deletes }

  lemma DropCons(r: Row, rest: seq<Row>, d: string)
    ensures DropRows([r] + rest, d) == (if r.project == Some(d) then [] else [r]) + DropRows(rest, d)
  {
    assert ([r] + rest)[1..] == rest;
  }

  lemma DropNone(d: string)
    ensures DropRows([], d) == []
  {
  }

  lemma {:induction false} DropAfterKeeping(rows: seq<Row>, deletes: seq<string>, d: string)
    ensures DropRows(Keeping(rows, deletes), d) == Keeping(rows, deletes + [d])
  {
    hide DropRows;
    if rows == [] {
      DropNone(d);
    } else {
      DropAfterKeeping(rows[1..], deletes, d);
      var r, rest := rows[0], Keeping(rows[1..], deletes);
      assert Names(r, deletes + [d]) <==> Names(r, deletes) || r.project == Some(d);
      if Names(r, deletes) { assert [] + rest == rest; } else { DropCons(r, rest, d); }
    }
  }

  lemma {:induction false} KeepingNone(rows: seq<Row>)
    ensures Keeping(rows, []) == rows
  {
    if rows != [] { KeepingNone(rows[1..]); }
  }

  lemma {:induction false} DropAllIsKeeping(rows: seq<Row>, deletes: seq<string>)
    ensures DropAll(rows, deletes) == Keeping(rows, deletes)
    decreases |deletes|
  {
    hide Keeping, DropRows;
    if deletes == [] {
      KeepingNone(rows);
    } else {
      var init, d := deletes[..|deletes| - 1], deletes[|deletes| - 1];
      DropAllIsKeeping(rows, init);
      DropAfterKeeping(rows, init, d);
      assert deletes == init + [d];
    }
  }

  lemma {:induction false} SuccessorNotJunk(p: string, merges: seq<Merge>, deletes: seq<string>)
    requires forall i | 0 <= i < |merges| :: merges[i].survivor !in deletes && merges[i].absorbed !in deletes
    ensures Successor(p, merges) in deletes <==> p in deletes
  {
    if merges != [] && merges[0].absorbed != p {
      SuccessorNotJunk(p, merges[1..], deletes);
    }
  }

  lemma {:induction false} PlacedIsKeeping(rows: seq<Row>, moved: seq<Row>, merges: seq<Merge>, deletes: seq<string>)
    requires SoundPlan(merges, deletes)
    requires |moved| == |rows| && forall i | 0 <= i < |rows| :: moved[i] == PlacedRow(rows[i], merges)
    ensures Keeping(moved, deletes) == Placed(rows, merges, deletes)
  {
    hide Successor, SoundPlan;
    if rows != [] {
      PlacedIsKeeping(rows[1..], moved[1..], merges, deletes);
      if rows[0].project.Some? { JunkStays(rows[0].project.value, merges, deletes); }
    }
  }

  lemma JunkStays(p: string, merges: seq<Merge>, deletes: seq<string>)
    requires SoundPlan(merges, deletes)
    ensures Successor(p, merges) in deletes <==> p in deletes
  {
    SuccessorNotJunk(p, merges, deletes);
  }

  /** What the two loops of statements make of a table with a project_id column. */
  lemma TableAfter(rows: seq<Row>, merges: seq<Merge>, deletes: seq<string>)
    requires SoundPlan(merges, deletes)
    ensures DropAll(MoveAll(rows, merges), deletes) == Placed(rows, merges, deletes)
  {
    hide Placed, MoveAll, DropAll, Keeping, SoundPlan;
    var moved := MoveAll(rows, merges);
    DropAllIsKeeping(moved, deletes);
    MovedLength(rows, merges);
    forall i | 0 <= i < |rows| ensures moved[i] == PlacedRow(rows[i], merges) { MovedRow(rows, merges, deletes, i); }
    PlacedIsKeeping(rows, moved, merges, deletes);
  }

  lemma {:induction false} MovedLength(rows: seq<Row>, merges: seq<Merge>)
    ensures |MoveAll(rows, merges)| == |rows|
    decreases |merges|
  {
    if merges != [] { MovedLength(rows, merges[..|merges| - 1]); }
  }

  // ---- what that means -------------------------------------------------------------------------------------------

  predicate Gone(p: string, merges: seq<Merge>, deletes: seq<string>) {
    p in deletes || exists i | 0 <= i < |merges| :: merges[i].absorbed == p
  }

  lemma {:induction false} SuccessorCases(p: string, merges: seq<Merge>)
    ensures (Successor(p, merges) == p && forall i | 0 <= i < |merges| :: merges[i].absorbed != p)
         || exists i :: 0 <= i < |merges| && merges[i].absorbed == p && Successor(p, merges) == merges[i].survivor
  {
    if merges != [] {
      if merges[0].absorbed != p {
        SuccessorCases(p, merges[1..]);
        if i :| 0 <= i < |merges[1..]| && merges[1..][i].absorbed == p && Successor(p, merges[1..]) == merges[1..][i].survivor {
          assert merges[i + 1].absorbed == p;
        }
      }
    }
  }

  lemma SuccessorStays(p: string, merges: seq<Merge>, deletes: seq<string>)
    requires SoundPlan(merges, deletes) && p !in deletes
    ensures !Gone(Successor(p, merges), merges, deletes)
  {
    SuccessorCases(p, merges);
  }

  function JunkRows(rows: seq<Row>, deletes: seq<string>): nat {
    if rows == [] then 0
    else (if rows[0].project.Some? && rows[0].project.value in deletes then 1 else 0) + JunkRows(rows[1..], deletes)
  }

  /** After execution no row names a removed project, and only the junk projects' rows are lost. */
  lemma {:induction false} RowsConserved(rows: seq<Row>, merges: seq<Merge>, deletes: seq<string>)
    requires SoundPlan(merges, deletes)
    ensures var after := Placed(rows, merges, deletes);
            && |after| + JunkRows(rows, deletes) == |rows|
            && forall i | 0 <= i < |after| :: after[i].project.Some? ==> !Gone(after[i].project.value, merges, deletes)
  {
    hide Successor, SoundPlan, Gone;
    if rows != [] {
      RowsConserved(rows[1..], merges, deletes);
      var r := rows[0];
      if r.project.Some? && r.project.value !in deletes { SuccessorStays(r.project.value, merges, deletes); }
    }
  }

  // ---- profiles ----------------------------------------------------------------------------------------------------

  /** A survivor and the projects merged into it, in plan order. */
  function Group(p: string, merges: seq<Merge>): seq<string>
    decreases |merges|
  {
    if merges == [] then [p]
    else
      var m := merges[|merges| - 1];
      Group(p, merges[..|merges| - 1]) + if m.survivor == p then [m.absorbed] else []
  }

  /** The first profile user u has in the listed projects. */
  function FirstProfile(ps: Profiles, u: string, ids: seq<string>): Option<string> {
    if ids == [] then None
    else match ProfileOf(ps, u, ids[0])
         case Some(x) => Some(x)
         case None => FirstProfile(ps, u, ids[1..])
  }

  lemma {:induction false} FirstSnoc(ps: Profiles, u: string, ids: seq<string>, id: string)
    ensures FirstProfile(ps, u, ids + [id])
         == match FirstProfile(ps, u, ids) case Some(x) => Some(x) case None => ProfileOf(ps, u, id)
  {
    hide ProfileOf;
    if ids == [] {
      assert [] + [id] == [id] && [id][1..] == [];
    } else {
      assert (ids + [id])[1..] == ids[1..] + [id];
      FirstSnoc(ps, u, ids[1..], id);
    }
  }

  lemma FirstOne(ps: Profiles, u: string, p: string)
    ensures FirstProfile(ps, u, [p]) == ProfileOf(ps, u, p)
  {
    hide ProfileOf;
    assert FirstProfile(ps, u, [p][1..]) == None;
  }

  lemma {:induction false} GroupOfAbsorbed(p: string, merges: seq<Merge>)
    requires forall i | 0 <= i < |merges| :: merges[i].survivor != p
    ensures Group(p, merges) == [p]
    decreases |merges|
  {
    if merges != [] { GroupOfAbsorbed(p, merges[..|merges| - 1]); }
  }

  ghost predicate Absorbed(p: string, merges: seq<Merge>) { exists i | 0 <= i < |merges| :: merges[i].absorbed == p }

  lemma AbsorbedSnoc(p: string, merges: seq<Merge>)
    requires merges != []
    ensures Absorbed(p, merges) <==> Absorbed(p, merges[..|merges| - 1]) || merges[|merges| - 1].absorbed == p
  {
    var init := merges[..|merges| - 1];
    if Absorbed(p, init) {
      var i :| 0 <= i < |init| && init[i].absorbed == p;
      assert merges[i].absorbed == p;
    }
    if Absorbed(p, merges) {
      var i :| 0 <= i < |merges| && merges[i].absorbed == p;
      if i < |init| { assert init[i].absorbed == p; }
    }
  }

  lemma SoundPrefix(merges: seq<Merge>, deletes: seq<string>)
    requires SoundPlan(merges, deletes) && merges != []
    ensures var init, m := merges[..|merges| - 1], merges[|merges| - 1];
            && SoundPlan(init, deletes) && m.absorbed != m.survivor
            && !Absorbed(m.absorbed, init) && !Absorbed(m.survivor, init)
            && forall i | 0 <= i < |init| :: init[i].survivor != m.absorbed
  {
    var init := merges[..|merges| - 1];
    assert forall i | 0 <= i < |init| :: init[i] == merges[i];
  }

  lemma Irreflexive(merges: seq<Merge>, deletes: seq<string>)
    requires SoundPlan(merges, deletes)
    ensures forall i | 0 <= i < |merges| :: merges[i].absorbed != merges[i].survivor
  {
  }

  lemma AbsorbedNone(p: string)
    ensures !Absorbed(p, [])
  {
  }

  /**
   After the merges an absorbed project has no profile, and any other has one for a user exactly when some
   member of its group had one: its own if there was one, else that of the first member in plan order.
   */
  lemma {:induction false} MergedProfiles(ps: Profiles, merges: seq<Merge>, deletes: seq<string>, u: string, p: string)
    requires SoundPlan(merges, deletes)
    requires forall i | 0 <= i < |merges| :: merges[i].absorbed != merges[i].survivor
    ensures ProfileOf(MergeAllProfiles(ps, merges), u, p)
         == if Absorbed(p, merges) then None else FirstProfile(ps, u, Group(p, merges))
    decreases |merges|
  {
    hide MergeProfiles, ProfileOf, SoundPlan, Absorbed;
    if merges == [] {
      AbsorbedNone(p);
      FirstOne(ps, u, p);
    } else {
      var init, m := merges[..|merges| - 1], merges[|merges| - 1];
      SoundPrefix(merges, deletes);
      AbsorbedSnoc(p, merges);
      var before := MergeAllProfiles(ps, init);
      MergedProfile(before, m, u, p);
      MergedProfiles(ps, init, deletes, u, p);
      if p == m.survivor {
        MergedProfiles(ps, init, deletes, u, m.absorbed);
        GroupOfAbsorbed(m.absorbed, init);
        FirstOne(ps, u, m.absorbed);
        FirstSnoc(ps, u, Group(p, init), m.absorbed);
      } else {
        assert Group(p, init) + [] == Group(p, init);
      }
    }
  }

  lemma DroppedProfile(ps: Profiles, d: string, u: string, p: string)
    ensures ProfileOf(DropProfiles(ps, d), u, p) == if p == d then None else ProfileOf(ps, u, p)
  {
  }

  lemma {:induction false} DroppedProfiles(ps: Profiles, deletes: seq<string>, u: string, p: string)
    ensures ProfileOf(DropAllProfiles(ps, deletes), u, p) == if p in deletes then None else ProfileOf(ps, u, p)
    decreases |deletes|
  {
    hide DropProfiles, ProfileOf;
    if deletes != [] {
      var init, d := deletes[..|deletes| - 1], deletes[|deletes| - 1];
      assert deletes == init + [d];
      DroppedProfiles(ps, init, u, p);
      DroppedProfile(DropAllProfiles(ps, init), d, u, p);
    }
  }
}
