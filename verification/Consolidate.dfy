/** The one-off migration that folds fragmented projects into their roots. */
module Consolidate {
  import opened Text

  const PILOCI_ROOT := "/home/pi/app/jupyterLab/notebooks/piloci"
  const MIYOO_ROOT := "/home/pi/app/jupyterLab/notebooks/miyoo-expedition"
  const MFA_ROOT := "/home/pi/app/jupyterLab/notebooks/mfa-servicenow-mcp"
  const SORIN_ROOT := "/Users/jshsakura/Documents/workspace/sorin"
  const XYERGB_ROOT := "/Users/jshsakura/Documents/workspace/sorin/temp/yokogawabpmdev/x_yergb_bpm"
  const XYERGB_PART := "/x_yergb_bpm"

  datatype Stamp = Stamp(root: string, name: string, slug: string)

  /** NAMES, in the order it is written. */
  const NAMES: seq<Stamp> :=
    [Stamp(PILOCI_ROOT, "piLoci", "piloci"), Stamp(MIYOO_ROOT, "miyoo-expedition", "miyoo-expedition"),
     Stamp(MFA_ROOT, "mfa-servicenow-mcp", "mfa-servicenow-mcp"), Stamp(SORIN_ROOT, "sorin", "sorin"),
     Stamp(XYERGB_ROOT, "x_yergb_bpm", "x-yergb-bpm")]

  predicate IsJunk(n: string) {
    n == "/tmp" || n == "/home/pi/.local/share/fonts/MesloLGS" || n == "/home/pi/app/jupyterLab/notebooks"
  }

  predicate IsRoot(r: string) {
    r == PILOCI_ROOT || r == MIYOO_ROOT || r == MFA_ROOT || r == SORIN_ROOT || r == XYERGB_ROOT
  }

  // ---- routing ---------------------------------------------------------------------------------------------------

  function Slashes(t: string): string {
    if t == "" then "" else [if t[0] == '\\' then '/' else t[0]] + Slashes(t[1..])
  }

  function DropSlashes(t: string): string {
    if t != "" && t[|t| - 1] == '/' then DropSlashes(t[..|t| - 1]) else t
  }

  /** (cwd or "").replace("\\", "/").rstrip("/") */
  function Normalized(cwd: Option<string>): string {
    match cwd
    case Some(t) => DropSlashes(Slashes(t))
    case None => ""
  }

  /** n.split("/")[-1] */
  function LastPart(n: string): string {
    if n == "" || n[|n| - 1] == '/' then "" else LastPart(n[..|n| - 1]) + [n[|n| - 1]]
  }

  predicate IsEnvironment(part: string) {
    part == "yokogawabpm" || part == "yokogawabpmdev" || part == "yokogawabpmtest"
  }

  datatype Destination = Standalone | Junk | Root(path: string)

  function RouteNormalized(n: string): Destination {
    if IsJunk(n) then Junk
    else if n == "/home/pi/app/piloci" || StartsWith(n, PILOCI_ROOT) then Root(PILOCI_ROOT)
    else if StartsWith(n, MIYOO_ROOT) then Root(MIYOO_ROOT)
    else if StartsWith(n, MFA_ROOT) then Root(MFA_ROOT)
    else if Find(n, XYERGB_PART).Some? || IsEnvironment(LastPart(n)) then Root(XYERGB_ROOT)
    else if StartsWith(n, SORIN_ROOT + "/temp") then Root(XYERGB_ROOT)
    else if StartsWith(n, SORIN_ROOT + "/") then Root(SORIN_ROOT)
    else Standalone
  }

  function Route(cwd: Option<string>): (d: Destination)
    ensures d.Root? ==> IsRoot(d.path)
  {
    if cwd == None || cwd == Some("") then Standalone else RouteNormalized(Normalized(cwd))
  }

  // ---- the plan --------------------------------------------------------------------------------------------------

  datatype Project = Project(id: string, user: string, name: string, slug: string, cwd: Option<string>)

  ghost predicate DistinctIds(ps: seq<Project>) { forall i, j | 0 <= i < j < |ps| :: ps[i].id != ps[j].id }

  /** by_cwd.get(root): the last project at that path. */
  function ProjectAt(ps: seq<Project>, root: string): (r: Option<string>)
    ensures r.Some? ==> exists p :: p in ps && p.id == r.value && Normalized(p.cwd) == root
  {
    if ps == [] then None
    else if Normalized(ps[|ps| - 1].cwd) == root then
      assert ps[|ps| - 1] in ps;
      Some(ps[|ps| - 1].id)
    else ProjectAt(ps[..|ps| - 1], root)
  }

  datatype Fate = Keep | Delete | MergeInto(survivor: string)

  function FateOf(all: seq<Project>, p: Project): Fate {
    match Route(p.cwd)
    case Standalone => Keep
    case Junk => Delete
    case Root(root) =>
      match ProjectAt(all, root)
      case None => Keep
      case Some(s) => if p.id == s then Keep else MergeInto(s)
  }

  datatype Merge = Merge(absorbed: string, survivor: string)

  function MergesOf(all: seq<Project>, ps: seq<Project>): seq<Merge> {
    if ps == [] then []
    else (match FateOf(all, ps[0]) case MergeInto(s) => [Merge(ps[0].id, s)] case _ => []) + MergesOf(all, ps[1..])
  }

  function DeletesOf(all: seq<Project>, ps: seq<Project>): seq<string> {
    if ps == [] then [] else (if FateOf(all, ps[0]).Delete? then [ps[0].id] else []) + DeletesOf(all, ps[1..])
  }

  method BuildPlan(projects: seq<Project>) returns (merges: seq<Merge>, deletes: seq<string>)
    ensures merges == MergesOf(projects, projects) && deletes == DeletesOf(projects, projects)
  {
    hide Route, ProjectAt, MergesOf, DeletesOf;
    merges := [];
    deletes := [];
    assert projects[0..] == projects;
    for i := 0 to |projects|
      invariant merges + MergesOf(projects, projects[i..]) == MergesOf(projects, projects)
      invariant deletes + DeletesOf(projects, projects[i..]) == DeletesOf(projects, projects)
    {
      var p := projects[i];
      PlanStep(projects, i);
      match Route(p.cwd) {
        case Standalone =>
        case Junk => deletes := deletes + [p.id];
        case Root(root) =>
          match ProjectAt(projects, root) {
            case None =>
            case Some(survivor) =>
              if p.id != survivor {
                merges := merges + [Merge(p.id, survivor)];
              }
          }
      }
    }
    PlanEnd(projects);
    assert projects[|projects|..] == [] && merges + [] == merges && deletes + [] == deletes;
  }

  lemma PlanEnd(all: seq<Project>)
    ensures MergesOf(all, []) == [] && DeletesOf(all, []) == []
  {
  }

  lemma PlanStep(ps: seq<Project>, i: nat)
    requires i < |ps|
    ensures MergesOf(ps, ps[i..]) == (match FateOf(ps, ps[i]) case MergeInto(s) => [Merge(ps[i].id, s)] case _ => []) + MergesOf(ps, ps[i + 1..])
    ensures DeletesOf(ps, ps[i..]) == (if FateOf(ps, ps[i]).Delete? then [ps[i].id] else []) + DeletesOf(ps, ps[i + 1..])
  {
    hide FateOf;
    assert ps[i..][1..] == ps[i + 1..];
  }

  // ---- a survivor is never absorbed or deleted ---------------------------------------------------------------------

  lemma HomeLetters()
    ensures PILOCI_ROOT[1] == 'h' && MIYOO_ROOT[1] == 'h' && MFA_ROOT[1] == 'h'
    ensures PILOCI_ROOT[34] == 'p' && MIYOO_ROOT[34] == 'm' && MFA_ROOT[34] == 'm'
    ensures MIYOO_ROOT[35] == 'i' && MFA_ROOT[35] == 'f'
    ensures |PILOCI_ROOT| == 40 && |MIYOO_ROOT| == 50 && |MFA_ROOT| == 52
  {
  }

  lemma UsersLetters()
    ensures SORIN_ROOT[1] == 'U' && |SORIN_ROOT| == 42
    ensures XYERGB_ROOT[1] == 'U' && |XYERGB_ROOT| == 74
  {
  }

  lemma RootLetters()
    ensures PILOCI_ROOT[1] == 'h' && MIYOO_ROOT[1] == 'h' && MFA_ROOT[1] == 'h'
    ensures PILOCI_ROOT[34] == 'p' && MIYOO_ROOT[34] == 'm' && MFA_ROOT[34] == 'm'
    ensures MIYOO_ROOT[35] == 'i' && MFA_ROOT[35] == 'f' && SORIN_ROOT[1] == 'U' && XYERGB_ROOT[1] == 'U'
    ensures |PILOCI_ROOT| == 40 && |MIYOO_ROOT| == 50 && |MFA_ROOT| == 52 && |SORIN_ROOT| == 42 && |XYERGB_ROOT| == 74
  {
    hide PILOCI_ROOT, MIYOO_ROOT, MFA_ROOT, SORIN_ROOT, XYERGB_ROOT;
    HomeLetters();
    UsersLetters();
  }

  lemma JunkLengths(n: string)
    ensures IsJunk(n) ==> |n| == 4 || |n| == 36 || |n| == 33
  {
  }

  lemma StartsLetter(n: string, p: string, i: nat)
    requires StartsWith(n, p) && i < |p|
    ensures |n| >= |p| && n[i] == p[i]
  {
    assert n[..|p|][i] == n[i];
  }

  lemma StartsItself(n: string)
    ensures StartsWith(n, n)
  {
    assert n[..|n|] == n;
  }

  lemma HomeRootsRoute(r: string)
    requires r == PILOCI_ROOT || r == MIYOO_ROOT || r == MFA_ROOT
    ensures RouteNormalized(r) == Root(r)
  {
    hide StartsWith, Find, LastPart, PILOCI_ROOT, MIYOO_ROOT, MFA_ROOT, SORIN_ROOT, IsJunk;
    RootLetters();
    JunkLengths(r);
    StartsItself(r);
    if StartsWith(r, PILOCI_ROOT) { StartsLetter(r, PILOCI_ROOT, 34); }
    if StartsWith(r, MIYOO_ROOT) { StartsLetter(r, MIYOO_ROOT, 35); }
  }

  lemma NotHome(r: string)
    requires |r| > 36 && r[1] == 'U'
    ensures !IsJunk(r) && r != "/home/pi/app/piloci"
    ensures !StartsWith(r, PILOCI_ROOT) && !StartsWith(r, MIYOO_ROOT) && !StartsWith(r, MFA_ROOT)
  {
    hide StartsWith, PILOCI_ROOT, MIYOO_ROOT, MFA_ROOT, IsJunk;
    RootLetters();
    JunkLengths(r);
    if StartsWith(r, PILOCI_ROOT) { StartsLetter(r, PILOCI_ROOT, 1); }
    if StartsWith(r, MIYOO_ROOT) { StartsLetter(r, MIYOO_ROOT, 1); }
    if StartsWith(r, MFA_ROOT) { StartsLetter(r, MFA_ROOT, 1); }
  }

  lemma XyergbRoutes()
    ensures RouteNormalized(XYERGB_ROOT) == Root(XYERGB_ROOT)
  {
    hide StartsWith, Find, LastPart, PILOCI_ROOT, MIYOO_ROOT, MFA_ROOT, SORIN_ROOT, IsJunk;
    RootLetters();
    NotHome(XYERGB_ROOT);
    XyergbPart();
  }

  lemma XyergbPart()
    ensures Find(XYERGB_ROOT, XYERGB_PART).Some?
  {
    hide Find;
    assert XYERGB_ROOT[62..74] == XYERGB_PART;
    assert OccursAt(XYERGB_ROOT, XYERGB_PART, 62);
  }

  lemma {:induction false} LastPartOf(a: string, b: string)
    requires '/' !in b && (a == "" || a[|a| - 1] == '/')
    ensures LastPart(a + b) == b
  {
    if b == "" {
      assert a + b == a;
    } else {
      var init := b[..|b| - 1];
      assert (a + b)[..|a + b| - 1] == a + init;
      LastPartOf(a, init);
      assert b == init + [b[|b| - 1]];
    }
  }

  lemma SorinParts()
    ensures SORIN_ROOT == "/Users/jshsakura/Documents/workspace/" + "sorin"
    ensures 'x' !in SORIN_ROOT && XYERGB_PART[1] == 'x' && |XYERGB_PART| == 12
    ensures !IsEnvironment("sorin")
  {
  }

  lemma SorinRoutes()
    ensures RouteNormalized(SORIN_ROOT) == Standalone
  {
    hide Find, LastPart, PILOCI_ROOT, MIYOO_ROOT, MFA_ROOT, SORIN_ROOT, XYERGB_PART, IsJunk, IsEnvironment;
    RootLetters();
    NotHome(SORIN_ROOT);
    SorinParts();
    LastPartOf("/Users/jshsakura/Documents/workspace/", "sorin");
    forall i: nat ensures !OccursAt(SORIN_ROOT, XYERGB_PART, i) {
      if i + 12 <= |SORIN_ROOT| { assert SORIN_ROOT[i..i + 12][1] == SORIN_ROOT[i + 1]; }
    }
  }

  /** A canonical root routes to itself or stands alone. */
  lemma RootRoutes(r: string)
    requires IsRoot(r)
    ensures RouteNormalized(r) == Root(r) || RouteNormalized(r) == Standalone
  {
    hide RouteNormalized, PILOCI_ROOT, MIYOO_ROOT, MFA_ROOT, SORIN_ROOT, XYERGB_ROOT;
    if r == PILOCI_ROOT || r == MIYOO_ROOT || r == MFA_ROOT { HomeRootsRoute(r); }
    XyergbRoutes();
    SorinRoutes();
  }

  lemma IdIsUnique(ps: seq<Project>, p: Project, q: Project)
    requires DistinctIds(ps) && p in ps && q in ps && p.id == q.id
    ensures p == q
  {
  }

  /** Whatever a project is merged into is kept: plans have no chains and never drop a survivor. */
  lemma SurvivorKept(ps: seq<Project>, p: Project, q: Project)
    requires DistinctIds(ps) && p in ps && q in ps && FateOf(ps, p) == MergeInto(q.id)
    ensures FateOf(ps, q).Keep? && q.id != p.id
  {
    hide RouteNormalized, IsRoot, Normalized;
    var root := Route(p.cwd).path;
    var s: Project :| s in ps && s.id == q.id && Normalized(s.cwd) == root;
    IdIsUnique(ps, s, q);
    RootRoutes(root);
  }

  lemma {:induction false} MergesAre(all: seq<Project>, ps: seq<Project>, m: Merge)
    ensures m in MergesOf(all, ps) <==> exists p :: p in ps && p.id == m.absorbed && FateOf(all, p) == MergeInto(m.survivor)
  {
    hide FateOf;
    if ps != [] {
      MergesAre(all, ps[1..], m);
      assert forall p :: p in ps <==> p == ps[0] || p in ps[1..];
    }
  }

  lemma {:induction false} DeletesAre(all: seq<Project>, ps: seq<Project>, d: string)
    ensures d in DeletesOf(all, ps) <==> exists p :: p in ps && p.id == d && FateOf(all, p).Delete?
  {
    hide FateOf;
    if ps != [] {
      DeletesAre(all, ps[1..], d);
      assert forall p :: p in ps <==> p == ps[0] || p in ps[1..];
    }
  }

  /** What the execution relies on: absorbed ids are distinct, and no survivor is absorbed or deleted. */
  ghost predicate SoundPlan(merges: seq<Merge>, deletes: seq<string>) {
    && (forall i, j | 0 <= i < j < |merges| :: merges[i].absorbed != merges[j].absorbed)
    && (forall i, j | 0 <= i < |merges| && 0 <= j < |merges| :: merges[i].survivor != merges[j].absorbed)
    && (forall i | 0 <= i < |merges| :: merges[i].survivor !in deletes && merges[i].absorbed !in deletes)
  }

  lemma {:induction false} AbsorbedDistinct(all: seq<Project>, ps: seq<Project>)
    requires DistinctIds(ps)
    ensures var ms := MergesOf(all, ps); forall i, j | 0 <= i < j < |ms| :: ms[i].absorbed != ms[j].absorbed
  {
    hide FateOf;
    if ps != [] {
      AbsorbedDistinct(all, ps[1..]);
      var rest := MergesOf(all, ps[1..]);
      forall i | 0 <= i < |rest| ensures rest[i].absorbed != ps[0].id {
        MergesAre(all, ps[1..], rest[i]);
        var p :| p in ps[1..] && p.id == rest[i].absorbed;
      }
      FirstMerge(all, ps);
    }
  }

  lemma FirstMerge(all: seq<Project>, ps: seq<Project>)
    requires ps != []
    ensures MergesOf(all, ps) == MergesOf(all, ps[1..])
         || exists s :: MergesOf(all, ps) == [Merge(ps[0].id, s)] + MergesOf(all, ps[1..])
  {
    hide FateOf;
    match FateOf(all, ps[0])
    case MergeInto(s) => assert MergesOf(all, ps) == [Merge(ps[0].id, s)] + MergesOf(all, ps[1..]);
    case _ => assert [] + MergesOf(all, ps[1..]) == MergesOf(all, ps[1..]);
  }

  lemma SurvivorExists(ps: seq<Project>, p: Project) returns (q: Project)
    requires p in ps && FateOf(ps, p).MergeInto?
    ensures q in ps && FateOf(ps, p) == MergeInto(q.id)
  {
    hide RouteNormalized, Normalized;
    q :| q in ps && q.id == FateOf(ps, p).survivor;
  }

  /** Every plan the script builds is sound. */
  lemma PlanIsSound(ps: seq<Project>)
    requires DistinctIds(ps)
    ensures SoundPlan(MergesOf(ps, ps), DeletesOf(ps, ps))
  {
    hide FateOf, MergesOf, DeletesOf, DistinctIds;
    var ms, ds := MergesOf(ps, ps), DeletesOf(ps, ps);
    AbsorbedDistinct(ps, ps);
    forall m | m in ms ensures m.survivor !in ds && m.absorbed !in ds && forall n | n in ms :: m.survivor != n.absorbed {
      MergesAre(ps, ps, m);
      var p :| p in ps && p.id == m.absorbed && FateOf(ps, p) == MergeInto(m.survivor);
      var q := SurvivorExists(ps, p);
      SurvivorKept(ps, p, q);
      DeletesAre(ps, ps, m.survivor);
      DeletesAre(ps, ps, m.absorbed);
      forall r | r in ps && r.id == p.id ensures r == p { IdIsUnique(ps, r, p); }
      forall r | r in ps && r.id == q.id ensures r == q { IdIsUnique(ps, r, q); }
      forall n | n in ms ensures m.survivor != n.absorbed { MergesAre(ps, ps, n); }
    }
  }
}
