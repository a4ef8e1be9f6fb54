/** When the migration moves rows between users, and when the database refuses it. */
module ConsolidateLimits {
  import opened Text
  import opened Consolidate
  import opened Routing
  import opened ConsolidateRun
  import opened ConsolidateDb

  // ---- merges across users ---------------------------------------------------------------------------------------

  ghost predicate WithinOwners(ps: seq<Project>) {
    forall p, q | p in ps && q in ps && Merge(p.id, q.id) in MergesOf(ps, ps) :: p.user == q.user
  }

  /** Every root that has a survivor has the projects of one owner routed to it. */
  ghost predicate OneOwnerPerRoot(ps: seq<Project>) {
    forall p, q | p in ps && q in ps && Route(p.cwd).Root? && ProjectAt(ps, Route(p.cwd).path) == Some(q.id) :: p.user == q.user
  }

  /** Every merge stays with one user exactly when whatever is routed to a survivor's root is its owner's. */
  lemma OwnersKept(ps: seq<Project>)
    requires DistinctIds(ps)
    ensures WithinOwners(ps) <==> OneOwnerPerRoot(ps)
  {
    hide DistinctIds, MergesOf, Route, ProjectAt;
    forall p, q | p in ps && q in ps
      ensures Merge(p.id, q.id) in MergesOf(ps, ps) <==> FateOf(ps, p) == MergeInto(q.id)
    {
      MergesAre(ps, ps, Merge(p.id, q.id));
      forall r | r in ps && r.id == p.id ensures r == p { IdIsUnique(ps, r, p); }
    }
    forall p, q | p in ps && q in ps && p.id == q.id ensures p == q { IdIsUnique(ps, p, q); }
    forall p | p in ps && Route(p.cwd).Root? && ProjectAt(ps, Route(p.cwd).path) == Some(p.id) ensures FateOf(ps, p).Keep? {}
  }

  lemma {:induction false} SlashesSame(t: string)
    requires '\\' !in t
    ensures Slashes(t) == t
  {
    if t != "" {
      SlashesSame(t[1..]);
      assert t == [t[0]] + t[1..];
    }
  }

  lemma NormalizedSame(t: string)
    requires '\\' !in t && t != "" && t[|t| - 1] != '/'
    ensures Normalized(Some(t)) == t
  {
    SlashesSame(t);
  }

  lemma DeployedPath()
    ensures '\\' !in DEPLOYED && DEPLOYED != "" && DEPLOYED[|DEPLOYED| - 1] != '/' && !IsJunk(DEPLOYED)
    ensures DEPLOYED != PILOCI_ROOT
  {
  }

  lemma RootPath()
    ensures '\\' !in PILOCI_ROOT && PILOCI_ROOT != "" && PILOCI_ROOT[|PILOCI_ROOT| - 1] != '/'
  {
  }

  /** Ann's deploy checkout and Bob's repository. */
  function TwoUsers(): seq<Project> {
    [Project("1", "ann", "piloci", "piloci", Some(DEPLOYED)), Project("2", "bob", "piloci", "piloci", Some(PILOCI_ROOT))]
  }

  lemma TwoUsersPlan()
    ensures var ps := TwoUsers();
            && DistinctIds(ps)
            && FateOf(ps, ps[0]) == MergeInto("2") && FateOf(ps, ps[1]) == Keep
  {
    hide Normalized, RouteNormalized, DEPLOYED, PILOCI_ROOT;
    var ps := TwoUsers();
    DeployedPath();
    RootPath();
    NormalizedSame(DEPLOYED);
    NormalizedSame(PILOCI_ROOT);
    DeployedRoutes();
    RootRoutesHere();
    assert ps[..1] == [ps[0]];
    assert ProjectAt(ps, PILOCI_ROOT) == Some("2");
  }

  lemma DeployedRoutes()
    ensures RouteNormalized(DEPLOYED) == Root(PILOCI_ROOT)
  {
    hide IsJunk, StartsWith, Find, PILOCI_ROOT;
    DeployedPath();
  }

  lemma RootRoutesHere()
    ensures RouteNormalized(PILOCI_ROOT) == Root(PILOCI_ROOT)
  {
    hide RouteNormalized;
    HomeRootsRoute(PILOCI_ROOT);
  }

  /** Ann's sessions end up in Bob's project. */
  lemma AnnsRowsBecomeBobs(key: string)
    ensures !WithinOwners(TwoUsers())
    ensures TableOf([Row(key, Some("1"))], TwoUsers()) == [Row(key, Some("2"))]
  {
    hide FateOf, DistinctIds, TwoUsers;
    var ps := TwoUsers();
    TwoUsersAre();
    TwoUsersPlan();
    TwoMerges(ps);
    assert [Row(key, Some("1"))][1..] == [];
    assert Placed([], [Merge("1", "2")], []) == [];
    assert Placed([Row(key, Some("1"))], [Merge("1", "2")], []) == [PlacedRow(Row(key, Some("1")), [Merge("1", "2")])];
    assert ps[0] in ps && ps[1] in ps;
    assert Merge(ps[0].id, ps[1].id) in MergesOf(ps, ps);
  }

  lemma TwoUsersAre()
    ensures |TwoUsers()| == 2
    ensures TwoUsers()[0].id == "1" && TwoUsers()[1].id == "2" && TwoUsers()[0].user != TwoUsers()[1].user
  {
  }

  lemma TwoMerges(ps: seq<Project>)
    requires |ps| == 2 && ps[0].id == "1" && FateOf(ps, ps[0]) == MergeInto("2") && FateOf(ps, ps[1]) == Keep
    ensures MergesOf(ps, ps) == [Merge("1", "2")] && DeletesOf(ps, ps) == []
  {
    hide FateOf;
    var rest := ps[1..];
    assert rest == [ps[1]] && rest[1..] == [];
    assert MergesOf(ps, []) == [] && DeletesOf(ps, []) == [];
    assert MergesOf(ps, rest) == [] && DeletesOf(ps, rest) == [];
  }

  // ---- refused migrations ----------------------------------------------------------------------------------------

  /** Two rows of the table with the same owner, s to be stamped with names[k], p already holding its slug. */
  ghost predicate Taken(ps: seq<Project>, rows: seq<Project>, names: seq<Stamp>, k: nat, s: Project, p: Project) {
    && k < |names| && s in rows && p in rows
    && ProjectAt(ps, names[k].root) == Some(s.id)
    && p.id != s.id && p.user == s.user && p.slug == names[k].slug
    && forall t: nat | t < k :: ProjectAt(ps, names[t].root) != Some(p.id)
  }

  ghost predicate SlugsDiffer(names: seq<Stamp>) { forall i, j | 0 <= i < j < |names| :: names[i].slug != names[j].slug }

  /** The stamp an id has after the updates for these names, if one of the roots is its own. */
  lemma {:induction false} StampForNames(ps: seq<Project>, names: seq<Stamp>, id: string)
    ensures match StampFor(id, RestampsOf(ps, names))
            case Some(st) => exists t: nat :: t < |names| && names[t] == st && ProjectAt(ps, st.root) == Some(id)
            case None => forall t: nat | t < |names| :: ProjectAt(ps, names[t].root) != Some(id)
  {
    hide ProjectAt;
    if names != [] {
      var init, last := names[..|names| - 1], names[|names| - 1];
      StampForNames(ps, init, id);
      var rs := RestampsOf(ps, init);
      var found := StampFor(id, rs);
      match ProjectAt(ps, last.root) {
        case Some(s) => StampForSnoc(id, rs, Restamp(s, last));
        case None =>
      }
      if found.Some? && StampFor(id, RestampsOf(ps, names)) == found {
        var t: nat :| t < |init| && init[t] == found.value && ProjectAt(ps, found.value.root) == Some(id);
        assert names[t] == found.value;
      }
    }
  }

  lemma StampForSnoc(id: string, rs: seq<Restamp>, r: Restamp)
    ensures StampFor(id, rs + [r]) == if r.id == id then Some(r.stamp) else StampFor(id, rs)
  {
    assert (rs + [r])[..|rs|] == rs;
  }

  lemma StampAllSnoc(rows: seq<Project>, rs: seq<Restamp>, r: Restamp)
    ensures StampAll(rows, rs + [r]) ==
            match StampAll(rows, rs)
            case None => None
            case Some(qs) => if Clash(qs, r) then None else Some(StampRows(qs, r))
  {
    hide Clash;
    assert (rs + [r])[..|rs|] == rs;
  }

  /** What an update meets in the table the earlier ones left, said of the table before all of them. */
  lemma ClashFromStart(ps: seq<Project>, rows: seq<Project>, names: seq<Stamp>, k: nat, id: string, now: seq<Project>)
    requires k < |names| && SlugsDiffer(names) && ProjectAt(ps, names[k].root) == Some(id)
    requires StampAll(rows, RestampsOf(ps, names[..k])) == Some(now)
    ensures Clash(now, Restamp(id, names[k])) <==> exists s, p :: Taken(ps, rows, names, k, s, p)
  {
    hide ProjectAt, StampAll, RestampsOf, StampFor;
    var rs := RestampsOf(ps, names[..k]);
    SameLength(rows, rs);
    forall i: nat | i < |rows|
      ensures now[i].id == rows[i].id && now[i].user == rows[i].user
      ensures now[i].slug == names[k].slug <==>
              rows[i].slug == names[k].slug && forall t: nat | t < k :: ProjectAt(ps, names[t].root) != Some(rows[i].id)
    {
      StampsApplied(rows, rs, i);
      StampForNames(ps, names[..k], rows[i].id);
      SlugNow(ps, rows, names, k, i, now);
    }
    if s, p :| Taken(ps, rows, names, k, s, p) {
      var i :| 0 <= i < |rows| && rows[i] == s;
      var j :| 0 <= j < |rows| && rows[j] == p;
      assert now[i].id == id && now[j].id != id;
    }
    if Clash(now, Restamp(id, names[k])) {
      var i, j :| 0 <= i < |now| && 0 <= j < |now| &&
        now[i].id == id && now[j].id != id && now[i].user == now[j].user && now[j].slug == names[k].slug;
      assert Taken(ps, rows, names, k, rows[i], rows[j]);
    }
  }

  lemma {:induction false} SameLength(rows: seq<Project>, rs: seq<Restamp>)
    requires StampAll(rows, rs).Some?
    ensures |StampAll(rows, rs).value| == |rows|
    decreases |rs|
  {
    hide Clash;
    if rs != [] { SameLength(rows, rs[..|rs| - 1]); }
  }

  lemma SlugNow(ps: seq<Project>, rows: seq<Project>, names: seq<Stamp>, k: nat, i: nat, now: seq<Project>)
    requires k < |names| && SlugsDiffer(names) && i < |rows| == |now|
    requires var st := StampFor(rows[i].id, RestampsOf(ps, names[..k]));
             && now[i].slug == (match st case Some(x) => x.slug case None => rows[i].slug)
             && match st
                case Some(x) => exists t: nat :: t < k && names[..k][t] == x && ProjectAt(ps, x.root) == Some(rows[i].id)
                case None => forall t: nat | t < k :: ProjectAt(ps, names[..k][t].root) != Some(rows[i].id)
    ensures now[i].slug == names[k].slug <==>
            rows[i].slug == names[k].slug && forall t: nat | t < k :: ProjectAt(ps, names[t].root) != Some(rows[i].id)
  {
    hide ProjectAt, RestampsOf, StampFor;
    assert forall t: nat | t < k :: names[..k][t] == names[t];
  }

  lemma {:induction false} RefusedAmong(ps: seq<Project>, rows: seq<Project>, names: seq<Stamp>, n: nat)
    requires n <= |names| && SlugsDiffer(names)
    ensures StampAll(rows, RestampsOf(ps, names[..n])) == None <==> exists k: nat, s, p :: k < n && Taken(ps, rows, names, k, s, p)
  {
    hide ProjectAt, StampAll, Clash, StampRows, Taken;
    if n == 0 {
      NoStamps(ps, rows);
      assert names[..0] == [];
    } else {
      var k := n - 1;
      RefusedAmong(ps, rows, names, k);
      assert names[..n][..k] == names[..k] && names[..n][k] == names[k];
      var before := StampAll(rows, RestampsOf(ps, names[..k]));
      match ProjectAt(ps, names[k].root) {
        case Some(id) =>
          StampAllSnoc(rows, RestampsOf(ps, names[..k]), Restamp(id, names[k]));
          if before.Some? { ClashFromStart(ps, rows, names, k, id, before.value); }
        case None =>
          forall s, p ensures !Taken(ps, rows, names, k, s, p) { NoSurvivor(ps, rows, names, k, s, p); }
      }
    }
  }

  lemma NoSurvivor(ps: seq<Project>, rows: seq<Project>, names: seq<Stamp>, k: nat, s: Project, p: Project)
    requires k < |names| && ProjectAt(ps, names[k].root) == None
    ensures !Taken(ps, rows, names, k, s, p)
  {
    hide ProjectAt;
  }

  lemma NoStamps(ps: seq<Project>, rows: seq<Project>)
    ensures StampAll(rows, RestampsOf(ps, [])) == Some(rows)
  {
  }

  lemma NamesDiffer()
    ensures SlugsDiffer(NAMES)
  {
    assert |NAMES| == 5;
    assert |NAMES[0].slug| == 6 && |NAMES[1].slug| == 16 && |NAMES[2].slug| == 18 && |NAMES[3].slug| == 5 && |NAMES[4].slug| == 11;
  }

  /**
   A survivor s is to get the slug of NAMES[k], and another project p of its owner, which the plan keeps, holds that
   slug and is not itself a survivor re-stamped earlier.
   */
  ghost predicate Refuses(ps: seq<Project>, k: nat, s: Project, p: Project) {
    && k < |NAMES| && s in ps && p in ps && ProjectAt(ps, NAMES[k].root) == Some(s.id)
    && p.id != s.id && p.user == s.user && p.slug == NAMES[k].slug && FateOf(ps, p).Keep?
    && forall t: nat | t < k :: ProjectAt(ps, NAMES[t].root) != Some(p.id)
  }

  lemma NamedRoots(k: nat)
    requires k < |NAMES|
    ensures IsRoot(NAMES[k].root)
  {
  }

  /** A survivor is kept, whether or not anything is merged into it. */
  lemma SurvivorStays(ps: seq<Project>, root: string, s: Project)
    requires DistinctIds(ps) && IsRoot(root) && s in ps && ProjectAt(ps, root) == Some(s.id)
    ensures FateOf(ps, s).Keep?
  {
    hide RouteNormalized, IsRoot, Normalized;
    var q: Project :| q in ps && q.id == s.id && Normalized(q.cwd) == root;
    IdIsUnique(ps, s, q);
    RootRoutes(root);
  }

  /** In terms of the table before the run: exactly when the database refuses the migration. */
  lemma RefusedIff(ps: seq<Project>)
    requires DistinctIds(ps)
    ensures ProjectsOf(ps) == None <==> exists k: nat, s, p :: Refuses(ps, k, s, p)
  {
    hide NAMES, ProjectAt, StampAll, RestampsOf, Remaining, MergesOf, DeletesOf, FateOf, DistinctIds, IsRoot;
    var rows := Remaining(ps, MergesOf(ps, ps), DeletesOf(ps, ps));
    NamesDiffer();
    RefusedAmong(ps, rows, NAMES, |NAMES|);
    assert NAMES[..|NAMES|] == NAMES;
    forall p | p in rows ensures p in ps { RemainingWereThere(ps, MergesOf(ps, ps), DeletesOf(ps, ps), p); }
    forall p | p in ps ensures p in rows <==> FateOf(ps, p).Keep? { RemainingAreKept(ps, ps, p); }
    forall k: nat, s, p ensures Taken(ps, rows, NAMES, k, s, p) <==> Refuses(ps, k, s, p) {
      if k < |NAMES| && s in ps && ProjectAt(ps, NAMES[k].root) == Some(s.id) {
        NamedRoots(k);
        SurvivorStays(ps, NAMES[k].root, s);
      }
    }
  }

  lemma {:induction false} RemainingWereThere(ps: seq<Project>, merges: seq<Merge>, deletes: seq<string>, p: Project)
    requires p in Remaining(ps, merges, deletes)
    ensures p in ps
  {
    hide Gone;
    if ps != [] && p != ps[0] { RemainingWereThere(ps[1..], merges, deletes, p); }
  }
}
