/** Finding or creating the project of a working directory, one handler at a time. */
module Resolve {
  import opened Text

  datatype Project = Project(id: string, user: string, slug: string, cwd: Option<string>)

  /** The string functions the handler calls, any of them: _is_home_or_root, cwd_to_slug, the hash suffix. */
  datatype Naming = Naming(isHome: string -> bool, slugOf: string -> string, suffixed: (string, string) -> string)

  const WORKTREES := "/.claude/worktrees/"

  function Slashes(t: string): (r: string)
    ensures |r| == |t| && forall i | 0 <= i < |t| :: r[i] == if t[i] == '\\' then '/' else t[i]
  {
    if t == "" then "" else [if t[0] == '\\' then '/' else t[0]] + Slashes(t[1..])
  }

  /** The directory a subagent worktree belongs to; any other directory is left as it is. */
  function WorktreeRoot(cwd: string): string {
    match Find(Slashes(cwd), WORKTREES)
    case Some(i) => assert OccursAt(Slashes(cwd), WORKTREES, i); Slashes(cwd)[..i]
    case None => cwd
  }

  lemma WorktreesShape()
    ensures |WORKTREES| == 19 && WORKTREES[0] == '/' && WORKTREES[18] == '/' && WORKTREES[1] == '.' && WORKTREES[9] == 'w'
    ensures forall d | 0 < d < 18 && d != 8 :: WORKTREES[d] != '/'
  {
  }

  lemma OccursChars(t: string, p: string, i: nat)
    requires OccursAt(t, p, i)
    ensures i + |p| <= |t| && forall k | 0 <= k < |p| :: t[i + k] == p[k]
  {
    forall k | 0 <= k < |p| ensures t[i + k] == p[k] { assert t[i..i + |p|][k] == t[i + k]; }
  }

  /** The path overlaps itself in one slash at most. */
  lemma WorktreesBorder(d: nat)
    requires 0 < d < 19 <= |WORKTREES| && forall k | 0 <= k < 19 - d :: WORKTREES[d + k] == WORKTREES[k]
    ensures d == 18
  {
    hide WORKTREES;
    WorktreesShape();
    assert WORKTREES[d + 0] == WORKTREES[0];
    var next := if d < 18 then 1 else 0;
    assert WORKTREES[d + next] == WORKTREES[next];
  }

  /** An occurrence of the worktree path in front of the one behind root lies in root and one slash. */
  lemma EarlierWorktree(root: string, name: string, i: nat)
    requires i < |root| && OccursAt(root + (WORKTREES + name), WORKTREES, i)
    ensures OccursAt(root + "/", WORKTREES, i)
  {
    hide WORKTREES;
    WorktreesShape();
    var t, u, d := root + (WORKTREES + name), root + "/", |root| - i;
    OccursChars(t, WORKTREES, i);
    if d < 19 {
      forall k | 0 <= k < 19 - d ensures WORKTREES[d + k] == WORKTREES[k] {
        assert t[i + (d + k)] == WORKTREES[d + k] && t[|root| + k] == WORKTREES[k];
      }
      WorktreesBorder(d);
    }
    assert forall k | 0 <= k < |u| :: u[k] == t[k];
    assert u[i..i + 19] == WORKTREES;
  }

  /** A directory inside a worktree of root, with any separators, is normalised to root. */
  lemma WorktreeCollapses(cwd: string, root: string, name: string)
    requires Slashes(cwd) == root + (WORKTREES + name) && !Contains(root + "/", WORKTREES)
    ensures WorktreeRoot(cwd) == root
  {
    hide WORKTREES, Slashes, OccursAt;
    forall j: nat | j < |root| ensures OccursAt(Slashes(cwd), WORKTREES, j) ==> OccursAt(root + "/", WORKTREES, j) {
      if OccursAt(Slashes(cwd), WORKTREES, j) { EarlierWorktree(root, name, j); }
    }
    OccursShift(root, WORKTREES + name, WORKTREES, 0);
    FindIsFirst(Slashes(cwd), WORKTREES, |root|);
  }

  lemma NoWorktree(cwd: string)
    requires !Contains(Slashes(cwd), WORKTREES)
    ensures WorktreeRoot(cwd) == cwd
  {
    hide WORKTREES, Slashes, OccursAt, Find, Contains;
    FindContains(Slashes(cwd), WORKTREES);
  }

  /** The part in front of the first worktree path holds none, and has no backslash any more. */
  lemma RootHasNone(n: string, i: nat)
    requires Find(n, WORKTREES) == Some(i) && i <= |n| && '\\' !in n
    ensures !Contains(Slashes(n[..i]), WORKTREES)
  {
    hide WORKTREES, OccursAt, Find;
    WorktreesShape();
    var root := n[..i];
    assert Slashes(root) == root;
    assert n == root + n[i..];
    NoneBefore(n, WORKTREES, i);
    forall j: nat ensures !OccursAt(root, WORKTREES, j) {
      if j + |WORKTREES| <= i { OccursLeft(root, n[i..], WORKTREES, j); } else { OccursBound(root, WORKTREES, j); }
    }
  }

  lemma OccursBound(t: string, p: string, i: nat)
    requires i + |p| > |t|
    ensures !OccursAt(t, p, i)
  {
  }

  lemma NoneBefore(t: string, p: string, i: nat)
    requires Find(t, p) == Some(i)
    ensures forall j: nat | j + |p| <= i && p != "" :: !OccursAt(t, p, j)
  {
  }

  /** Any other directory is left as it is, and normalising twice is normalising once. */
  lemma WorktreeElse(cwd: string)
    ensures !Contains(Slashes(cwd), WORKTREES) ==> WorktreeRoot(cwd) == cwd
    ensures WorktreeRoot(WorktreeRoot(cwd)) == WorktreeRoot(cwd)
  {
    hide WORKTREES, OccursAt, Find, Contains;
    if !Contains(Slashes(cwd), WORKTREES) { NoWorktree(cwd); }
    match Find(Slashes(cwd), WORKTREES)
    case Some(i) =>
      FoundInside(Slashes(cwd), i);
      RootHasNone(Slashes(cwd), i);
      NoWorktree(Slashes(cwd)[..i]);
    case None =>
  }

  lemma FoundInside(n: string, i: nat)
    requires Find(n, WORKTREES) == Some(i)
    ensures i <= |n|
  {
    hide WORKTREES;
    assert OccursAt(n, WORKTREES, i);
  }

  // ---- the projects table ----------------------------------------------------------------------------------------

  predicate Owns(p: Project, user: string, cwd: string) { p.user == user && p.cwd == Some(cwd) }

  predicate Legacy(p: Project, user: string, slug: string) { p.user == user && p.slug == slug && p.cwd == None }

  /** UNIQUE (user_id, slug), and at most one project per user and directory. */
  ghost predicate Sound(ps: seq<Project>) {
    && (forall i, j | 0 <= i < j < |ps| :: ps[i].id != ps[j].id)
    && (forall i, j | 0 <= i < j < |ps| :: ps[i].user == ps[j].user ==> ps[i].slug != ps[j].slug)
    && (forall i, j | 0 <= i < j < |ps| :: ps[i].user == ps[j].user && ps[i].cwd.Some? ==> ps[i].cwd != ps[j].cwd)
  }

  predicate Taken(ps: seq<Project>, user: string, slug: string) {
    exists i | 0 <= i < |ps| :: ps[i].user == user && ps[i].slug == slug
  }

  /** The first row of a user at a directory, or |ps|. */
  function AtCwd(ps: seq<Project>, user: string, cwd: string): (i: nat)
    ensures i <= |ps| && (i < |ps| ==> Owns(ps[i], user, cwd)) && forall j | 0 <= j < i :: !Owns(ps[j], user, cwd)
  {
    if ps == [] || Owns(ps[0], user, cwd) then 0 else 1 + AtCwd(ps[1..], user, cwd)
  }

  function LegacyAt(ps: seq<Project>, user: string, slug: string): (i: nat)
    ensures i <= |ps| && (i < |ps| ==> Legacy(ps[i], user, slug)) && forall j | 0 <= j < i :: !Legacy(ps[j], user, slug)
  {
    if ps == [] || Legacy(ps[0], user, slug) then 0 else 1 + LegacyAt(ps[1..], user, slug)
  }

  // ---- the handler -------------------------------------------------------------------------------------------------

  datatype Answer = Refused | Resolved(id: string) | Collision

  datatype Outcome = Outcome(answer: Answer, rows: seq<Project>)

  /** _resolve_or_create_project, the new ids being handed in. */
  function Step(n: Naming, ps: seq<Project>, user: string, cwd: string, id: string): Outcome {
    if n.isHome(cwd) then Outcome(Refused, ps)
    else
      var root := WorktreeRoot(cwd);
      var slug := n.slugOf(root);
      var i := AtCwd(ps, user, root);
      var j := LegacyAt(ps, user, slug);
      if i < |ps| then Outcome(Resolved(ps[i].id), ps)
      else if j < |ps| then Outcome(Resolved(ps[j].id), ps[j := ps[j].(cwd := Some(root))])
      else if !Taken(ps, user, slug) then Outcome(Resolved(id), ps + [Project(id, user, slug, Some(root))])
      else if !Taken(ps, user, n.suffixed(slug, root)) then
        Outcome(Resolved(id), ps + [Project(id, user, n.suffixed(slug, root), Some(root))])
      else Outcome(Collision, ps)
  }

  class Projects {
    var rows: seq<Project>
    const naming: Naming

    constructor (naming: Naming)
      ensures rows == [] && this.naming == naming
    {
      rows := [];
      this.naming := naming;
    }

    /** An insert that the unique constraint may refuse. */
    method TryInsert(p: Project) returns (ok: bool)
      modifies this`rows
      ensures ok == !Taken(old(rows), p.user, p.slug)
      ensures rows == if ok then old(rows) + [p] else old(rows)
    {
      ok := !Taken(rows, p.user, p.slug);
      if ok {
        rows := rows + [p];
      }
    }

    method ResolveOrCreate(user: string, cwd: string, id: string) returns (answer: Answer)
      modifies this`rows
      ensures Step(naming, old(rows), user, cwd, id) == Outcome(answer, rows)
      ensures Effect(naming, old(rows), user, cwd, id, answer, rows)
    {
      hide Taken, AtCwd, LegacyAt, WorktreeRoot, Effect;
      StepEffect(naming, rows, user, cwd, id);
      if naming.isHome(cwd) {
        return Refused;
      }
      var root := WorktreeRoot(cwd);
      var slug := naming.slugOf(root);
      var i := AtCwd(rows, user, root);
      if i < |rows| {
        return Resolved(rows[i].id);
      }
      var j := LegacyAt(rows, user, slug);
      LegacyBound(rows, user, slug);
      if j < |rows| {
        rows := rows[j := rows[j].(cwd := Some(root))];
        return Resolved(rows[j].id);
      }
      var candidate := slug;
      for attempt := 0 to 2
        invariant rows == old(rows)
        invariant candidate == if attempt == 0 then slug else naming.suffixed(slug, root)
        invariant attempt > 0 ==> Taken(rows, user, slug)
        invariant attempt > 1 ==> Taken(rows, user, naming.suffixed(slug, root))
      {
        var ok := TryInsert(Project(id, user, candidate, Some(root)));
        if ok {
          return Resolved(id);
        }
        candidate := naming.suffixed(slug, root);
      }
      return Collision;
    }
  }

  lemma LegacyBound(ps: seq<Project>, user: string, slug: string)
    ensures LegacyAt(ps, user, slug) <= |ps|
  {
  }

  // ---- every step keeps the table sound ----------------------------------------------------------------------------

  lemma AppendKeeps(ps: seq<Project>, p: Project)
    requires Sound(ps) && !Taken(ps, p.user, p.slug)
    requires forall q | q in ps :: q.id != p.id && (q.user == p.user && q.cwd.Some? ==> q.cwd != p.cwd)
    ensures Sound(ps + [p])
  {
  }

  lemma ClaimKeeps(ps: seq<Project>, j: nat, cwd: string)
    requires Sound(ps) && j < |ps| && forall q | q in ps :: q.user == ps[j].user ==> q.cwd != Some(cwd)
    ensures Sound(ps[j := ps[j].(cwd := Some(cwd))])
  {
  }

  lemma NotOwned(ps: seq<Project>, user: string, cwd: string)
    requires AtCwd(ps, user, cwd) == |ps|
    ensures forall q | q in ps :: q.user == user ==> q.cwd != Some(cwd)
  {
    forall q | q in ps && q.user == user ensures q.cwd != Some(cwd) {
      var i :| 0 <= i < |ps| && ps[i] == q;
      assert !Owns(ps[i], user, cwd);
    }
  }

  /** One request: the table stays sound, no row goes, no id, owner, slug or set directory changes. */
  lemma StepKeeps(n: Naming, ps: seq<Project>, user: string, cwd: string, id: string)
    requires Sound(ps) && forall q | q in ps :: q.id != id
    ensures var after := Step(n, ps, user, cwd, id).rows;
            && Sound(after) && |ps| <= |after|
            && forall i | 0 <= i < |ps| :: after[i].(cwd := ps[i].cwd) == ps[i] && (ps[i].cwd.Some? ==> after[i] == ps[i])
  {
    hide Sound, Taken, AtCwd, LegacyAt, WorktreeRoot;
    var root := WorktreeRoot(cwd);
    var slug := n.slugOf(root);
    AtCwdBound(ps, user, root);
    LegacyCwd(ps, user, slug);
    if !n.isHome(cwd) && AtCwd(ps, user, root) == |ps| {
      NotOwned(ps, user, root);
      var j := LegacyAt(ps, user, slug);
      if j < |ps| {
        ClaimKeeps(ps, j, root);
      } else if !Taken(ps, user, slug) {
        AppendKeeps(ps, Project(id, user, slug, Some(root)));
      } else if !Taken(ps, user, n.suffixed(slug, root)) {
        AppendKeeps(ps, Project(id, user, n.suffixed(slug, root), Some(root)));
      }
    }
  }

  lemma AtCwdBound(ps: seq<Project>, user: string, cwd: string)
    ensures AtCwd(ps, user, cwd) <= |ps|
  {
  }

  lemma LegacyCwd(ps: seq<Project>, user: string, slug: string)
    ensures var j := LegacyAt(ps, user, slug); j <= |ps| && (j < |ps| ==> Legacy(ps[j], user, slug))
  {
  }

  ghost predicate Holds(ps: seq<Project>, id: string, user: string, cwd: string) {
    exists i :: 0 <= i < |ps| && ps[i].id == id && Owns(ps[i], user, cwd)
  }

  /** A resolved request answers with the one row of that user at the normalised directory. */
  lemma StepAnswers(n: Naming, ps: seq<Project>, user: string, cwd: string, id: string)
    ensures match Step(n, ps, user, cwd, id).answer
            case Resolved(x) => Holds(Step(n, ps, user, cwd, id).rows, x, user, WorktreeRoot(cwd))
            case _ => Step(n, ps, user, cwd, id).rows == ps
  {
    hide Taken, WorktreeRoot;
    var root := WorktreeRoot(cwd);
    var after := Step(n, ps, user, cwd, id).rows;
    if !n.isHome(cwd) {
      var i, j := AtCwd(ps, user, root), LegacyAt(ps, user, n.slugOf(root));
      var k := if i < |ps| then i else if j < |ps| then j else |ps|;
      if k < |after| { assert after[k].user == user && after[k].cwd == Some(root); }
    }
  }

  /**
   What a request does, told from the rows alone: the user's row at the directory is answered as it is; else a row with
   the plain slug and no directory is claimed; else one row is added, under the plain slug unless a row of the user
   holds it, and then under the suffixed one; and if that is held too, nothing happens.
   */
  ghost predicate Effect(n: Naming, ps: seq<Project>, user: string, cwd: string, id: string, answer: Answer, after: seq<Project>) {
    var root := WorktreeRoot(cwd);
    var slug := n.slugOf(root);
    var plainHeld := exists p :: p in ps && p.user == user && p.slug == slug;
    var suffixedHeld := exists p :: p in ps && p.user == user && p.slug == n.suffixed(slug, root);
    if n.isHome(cwd) then answer == Refused && after == ps
    else if exists p :: p in ps && Owns(p, user, root) then
      after == ps && exists p :: p in ps && Owns(p, user, root) && answer == Resolved(p.id)
    else if exists p :: p in ps && Legacy(p, user, slug) then
      exists j :: 0 <= j < |ps| && Legacy(ps[j], user, slug) && answer == Resolved(ps[j].id) && after == ps[j := ps[j].(cwd := Some(root))]
    else if plainHeld && suffixedHeld then answer == Collision && after == ps
    else answer == Resolved(id) && after == ps + [Project(id, user, if plainHeld then n.suffixed(slug, root) else slug, Some(root))]
  }

  lemma RowAtCwd(ps: seq<Project>, user: string, cwd: string)
    ensures var i := AtCwd(ps, user, cwd);
            if exists p :: p in ps && Owns(p, user, cwd) then i < |ps| && ps[i] in ps && Owns(ps[i], user, cwd) else i == |ps|
  {
    var i := AtCwd(ps, user, cwd);
    if p :| p in ps && Owns(p, user, cwd) {
      var j :| 0 <= j < |ps| && ps[j] == p;
    }
  }

  lemma RowWithSlug(ps: seq<Project>, user: string, slug: string)
    ensures var j := LegacyAt(ps, user, slug);
            if exists p :: p in ps && Legacy(p, user, slug) then j < |ps| && ps[j] in ps && Legacy(ps[j], user, slug) else j == |ps|
  {
    var i := LegacyAt(ps, user, slug);
    if p :| p in ps && Legacy(p, user, slug) {
      var j :| 0 <= j < |ps| && ps[j] == p;
    }
  }

  lemma TakenIs(ps: seq<Project>, user: string, slug: string)
    ensures Taken(ps, user, slug) <==> exists p :: p in ps && p.user == user && p.slug == slug
  {
    if p :| p in ps && p.user == user && p.slug == slug {
      var j :| 0 <= j < |ps| && ps[j] == p;
    }
  }

  lemma StepEffect(n: Naming, ps: seq<Project>, user: string, cwd: string, id: string)
    ensures Effect(n, ps, user, cwd, id, Step(n, ps, user, cwd, id).answer, Step(n, ps, user, cwd, id).rows)
  {
    hide AtCwd, LegacyAt, Taken, WorktreeRoot, Owns, Legacy;
    var root := WorktreeRoot(cwd);
    var slug := n.slugOf(root);
    RowAtCwd(ps, user, root);
    RowWithSlug(ps, user, slug);
    TakenIs(ps, user, slug);
    TakenIs(ps, user, n.suffixed(slug, root));
  }

  /** Both of a request's slugs are taken by other directories: it fails and changes nothing. */
  lemma CollisionIff(n: Naming, ps: seq<Project>, user: string, cwd: string, id: string)
    ensures Step(n, ps, user, cwd, id).answer == Collision <==>
              var root := WorktreeRoot(cwd);
              && !n.isHome(cwd) && AtCwd(ps, user, root) == |ps| && LegacyAt(ps, user, n.slugOf(root)) == |ps|
              && Taken(ps, user, n.slugOf(root)) && Taken(ps, user, n.suffixed(n.slugOf(root), root))
  {
    hide Taken, AtCwd, LegacyAt, WorktreeRoot;
    AtCwdBound(ps, user, WorktreeRoot(cwd));
    LegacyCwd(ps, user, n.slugOf(WorktreeRoot(cwd)));
  }

  // ---- runs ----------------------------------------------------------------------------------------------------------

  datatype Request = Request(user: string, cwd: string, id: string)

  /** The tables along a run of requests, starting from any sound table; new ids are fresh. */
  ghost predicate IsRun(n: Naming, tables: seq<seq<Project>>, requests: seq<Request>) {
    && |tables| == |requests| + 1 && Sound(tables[0])
    && forall k | 0 <= k < |requests| ::
         && (forall q | q in tables[k] :: q.id != requests[k].id)
         && tables[k + 1] == Step(n, tables[k], requests[k].user, requests[k].cwd, requests[k].id).rows
  }

  ghost function AnswerAt(n: Naming, tables: seq<seq<Project>>, requests: seq<Request>, k: nat): Answer
    requires IsRun(n, tables, requests) && k < |requests|
  {
    Step(n, tables[k], requests[k].user, requests[k].cwd, requests[k].id).answer
  }

  lemma {:induction false} RunSound(n: Naming, tables: seq<seq<Project>>, requests: seq<Request>, k: nat)
    requires IsRun(n, tables, requests) && k <= |requests|
    ensures Sound(tables[k])
  {
    hide Sound, Step;
    if k > 0 {
      RunSound(n, tables, requests, k - 1);
      var r := requests[k - 1];
      StepKeeps(n, tables[k - 1], r.user, r.cwd, r.id);
    }
  }

  lemma StillHolds(n: Naming, ps: seq<Project>, r: Request, id: string, user: string, cwd: string)
    requires Sound(ps) && (forall q | q in ps :: q.id != r.id) && Holds(ps, id, user, cwd)
    ensures Holds(Step(n, ps, r.user, r.cwd, r.id).rows, id, user, cwd)
  {
    hide Step, Sound;
    StepKeeps(n, ps, r.user, r.cwd, r.id);
    var i :| 0 <= i < |ps| && ps[i].id == id && Owns(ps[i], user, cwd);
    assert Step(n, ps, r.user, r.cwd, r.id).rows[i] == ps[i];
  }

  lemma {:induction false} HoldsOn(n: Naming, tables: seq<seq<Project>>, requests: seq<Request>, k: nat, m: nat,
                                   id: string, user: string, cwd: string)
    requires IsRun(n, tables, requests) && k <= m <= |requests| && Holds(tables[k], id, user, cwd)
    ensures Holds(tables[m], id, user, cwd)
    decreases m
  {
    hide Sound, Step, Holds;
    if k < m {
      HoldsOn(n, tables, requests, k, m - 1, id, user, cwd);
      RunSound(n, tables, requests, m - 1);
      StillHolds(n, tables[m - 1], requests[m - 1], id, user, cwd);
    }
  }

  lemma SameRow(ps: seq<Project>, x: string, y: string, user: string, c: string, d: string)
    requires Sound(ps) && Holds(ps, x, user, c) && Holds(ps, y, user, d)
    ensures x == y <==> c == d
  {
    var i :| 0 <= i < |ps| && ps[i].id == x && Owns(ps[i], user, c);
    var j :| 0 <= j < |ps| && ps[j].id == y && Owns(ps[j], user, d);
    if i < j {
      assert ps[i].id != ps[j].id;
    } else if j < i {
      assert ps[j].id != ps[i].id;
    }
  }

  /**
   Over any run, two successful requests of one user get the same project exactly when their directories are
   the same after worktrees are folded into their repository.
   */
  lemma SameProjectIffSameDirectory(n: Naming, tables: seq<seq<Project>>, requests: seq<Request>, k: nat, m: nat)
    requires IsRun(n, tables, requests) && k < |requests| && m < |requests| && requests[k].user == requests[m].user
    requires AnswerAt(n, tables, requests, k).Resolved? && AnswerAt(n, tables, requests, m).Resolved?
    ensures AnswerAt(n, tables, requests, k) == AnswerAt(n, tables, requests, m)
       <==> WorktreeRoot(requests[k].cwd) == WorktreeRoot(requests[m].cwd)
  {
    hide Sound, Step, Holds, WorktreeRoot;
    var a, b := requests[k], requests[m];
    var x, y := AnswerAt(n, tables, requests, k).id, AnswerAt(n, tables, requests, m).id;
    StepAnswers(n, tables[k], a.user, a.cwd, a.id);
    StepAnswers(n, tables[m], b.user, b.cwd, b.id);
    var last := |requests|;
    HoldsOn(n, tables, requests, k + 1, last, x, a.user, WorktreeRoot(a.cwd));
    HoldsOn(n, tables, requests, m + 1, last, y, b.user, WorktreeRoot(b.cwd));
    RunSound(n, tables, requests, last);
    SameRow(tables[last], x, y, a.user, WorktreeRoot(a.cwd), WorktreeRoot(b.cwd));
  }

  // ---- create_project_fn ---------------------------------------------------------------------------------------------

  /** The row of a user with a slug, or |ps|. */
  function AtSlug(ps: seq<Project>, user: string, slug: string): (i: nat)
    ensures i <= |ps| && (i < |ps| ==> ps[i].user == user && ps[i].slug == slug)
    ensures Taken(ps, user, slug) ==> i < |ps|
  {
    if ps == [] || (ps[0].user == user && ps[0].slug == slug) then 0
    else
      assert Taken(ps, user, slug) ==> Taken(ps[1..], user, slug) by {
        if Taken(ps, user, slug) {
          var j :| 0 <= j < |ps| && ps[j].user == user && ps[j].slug == slug;
          assert ps[1..][j - 1] == ps[j];
        }
      }
      1 + AtSlug(ps[1..], user, slug)
  }

  /** `cwd or None` */
  function OrNone(cwd: Option<string>): Option<string> { if cwd == Some("") then None else cwd }

  /** The MCP server's create_project_fn: claim the row that has the slug, or split off a second project. */
  function CreateStep(n: Naming, ps: seq<Project>, user: string, slug: string, cwd: Option<string>, id: string): Outcome {
    if !Taken(ps, user, slug) then Outcome(Resolved(id), ps + [Project(id, user, slug, cwd)])
    else
      var i := AtSlug(ps, user, slug);
      if ps[i].cwd == None && cwd.Some? then Outcome(Resolved(ps[i].id), ps[i := ps[i].(cwd := cwd)])
      else if OrNone(ps[i].cwd) == OrNone(cwd) then Outcome(Resolved(ps[i].id), ps)
      else if OrNone(cwd).Some? && !Taken(ps, user, n.suffixed(slug, cwd.value)) then
        Outcome(Resolved(id), ps + [Project(id, user, n.suffixed(slug, cwd.value), cwd)])
      else Outcome(Collision, ps)
  }

  ghost predicate UniqueSlugs(ps: seq<Project>) {
    forall i, j | 0 <= i < j < |ps| :: ps[i].user == ps[j].user ==> ps[i].slug != ps[j].slug
  }

  /** Creating keeps (user, slug) unique, removes no row and never changes a directory that is set. */
  lemma CreateKeeps(n: Naming, ps: seq<Project>, user: string, slug: string, cwd: Option<string>, id: string)
    requires UniqueSlugs(ps)
    ensures var o := CreateStep(n, ps, user, slug, cwd, id);
            && UniqueSlugs(o.rows) && |ps| <= |o.rows| && (o.answer == Collision ==> o.rows == ps)
            && forall i | 0 <= i < |ps| :: o.rows[i].(cwd := ps[i].cwd) == ps[i] && (ps[i].cwd.Some? ==> o.rows[i] == ps[i])
  {
    hide AtSlug;
  }

  lemma {:induction false} AtSlugFirst(ps: seq<Project>, user: string, slug: string, i: nat)
    requires i < |ps| && ps[i].user == user && ps[i].slug == slug
    requires forall j | 0 <= j < i :: !(ps[j].user == user && ps[j].slug == slug)
    ensures AtSlug(ps, user, slug) == i && Taken(ps, user, slug)
  {
    if i > 0 {
      assert !(ps[0].user == user && ps[0].slug == slug);
      AtSlugFirst(ps[1..], user, slug, i - 1);
    }
  }

  lemma {:induction false} NoneBeforeSlug(ps: seq<Project>, user: string, slug: string)
    ensures forall j | 0 <= j < AtSlug(ps, user, slug) && j < |ps| :: !(ps[j].user == user && ps[j].slug == slug)
  {
    if ps != [] && !(ps[0].user == user && ps[0].slug == slug) {
      NoneBeforeSlug(ps[1..], user, slug);
      assert forall j | 1 <= j < |ps| :: ps[j] == ps[1..][j - 1];
    }
  }

  /** The slug belongs to a project at another directory. */
  predicate Elsewhere(ps: seq<Project>, user: string, slug: string, cwd: Option<string>) {
    && Taken(ps, user, slug)
    && var row := ps[AtSlug(ps, user, slug)]; !(row.cwd == None && cwd.Some?) && OrNone(row.cwd) != OrNone(cwd)
  }

  /** Which row is answered: one of the user's at that directory, under the slug asked for unless it was elsewhere. */
  lemma CreateAnswers(n: Naming, ps: seq<Project>, user: string, slug: string, cwd: Option<string>, id: string)
    ensures var o := CreateStep(n, ps, user, slug, cwd, id);
            match o.answer
            case Resolved(x) =>
              exists i :: 0 <= i < |o.rows| && o.rows[i].id == x && o.rows[i].user == user && OrNone(o.rows[i].cwd) == OrNone(cwd)
                && o.rows[i].slug == if Elsewhere(ps, user, slug, cwd) then n.suffixed(slug, cwd.value) else slug
            case Collision => Elsewhere(ps, user, slug, cwd) && (OrNone(cwd) == None || Taken(ps, user, n.suffixed(slug, cwd.value)))
            case Refused => false
  {
    hide AtSlug;
    AtSlugBound(ps, user, slug);
    var o := CreateStep(n, ps, user, slug, cwd, id);
    if o.answer.Resolved? {
      var i := if |o.rows| > |ps| then |ps| else AtSlug(ps, user, slug);
      assert o.rows[i].id == o.answer.id;
    }
  }

  lemma AtSlugBound(ps: seq<Project>, user: string, slug: string)
    ensures var i := AtSlug(ps, user, slug); i <= |ps| && (i < |ps| ==> ps[i].user == user && ps[i].slug == slug)
    ensures Taken(ps, user, slug) ==> AtSlug(ps, user, slug) < |ps|
  {
  }

  /**
   Asking again for the same slug and directory, after an answer: the same answer and nothing changed, if and only if
   the slug did not belong to another directory at first. If it did, the second project is not found again: the
   suffixed slug is now taken too, and the request fails.
   */
  lemma CreateTwice(n: Naming, ps: seq<Project>, user: string, slug: string, cwd: Option<string>, id: string, id': string)
    requires CreateStep(n, ps, user, slug, cwd, id).answer.Resolved?
    ensures var once := CreateStep(n, ps, user, slug, cwd, id);
            var again := CreateStep(n, once.rows, user, slug, cwd, id');
            && again.rows == once.rows
            && (again.answer == once.answer <==> !Elsewhere(ps, user, slug, cwd))
            && (Elsewhere(ps, user, slug, cwd) ==> again.answer == Collision)
  {
    hide AtSlug, Taken;
    AtSlugBound(ps, user, slug);
    NoneBeforeSlug(ps, user, slug);
    var once := CreateStep(n, ps, user, slug, cwd, id).rows;
    var i := AtSlug(ps, user, slug);
    if Taken(ps, user, slug) {
      AtSlugFirst(once, user, slug, i);
      if |once| > |ps| { TakenLast(ps, once[|ps|]); }
    } else {
      NotTaken(ps, user, slug);
      AtSlugFirst(once, user, slug, |ps|);
    }
  }

  lemma TakenLast(ps: seq<Project>, p: Project)
    ensures Taken(ps + [p], p.user, p.slug)
  {
    assert (ps + [p])[|ps|] == p;
  }

  lemma NotTaken(ps: seq<Project>, user: string, slug: string)
    requires !Taken(ps, user, slug)
    ensures forall i | 0 <= i < |ps| :: !(ps[i].user == user && ps[i].slug == slug)
  {
  }
}
