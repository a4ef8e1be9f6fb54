/** Where the consolidation script routes a directory, told from the parts of its path. */
module Routing {
  import opened Text
  import opened Consolidate

  // ---- the path that is looked at ----------------------------------------------------------------------------------

  /** t with every backslash turned into a slash. */
  ghost predicate SlashedFrom(s: string, t: string) {
    |s| == |t| && forall i | 0 <= i < |t| :: s[i] == if t[i] == '\\' then '/' else t[i]
  }

  lemma {:induction false} SlashesAre(t: string)
    ensures SlashedFrom(Slashes(t), t)
  {
    if t != "" {
      SlashesAre(t[1..]);
      assert forall i | 1 <= i < |t| :: t[i] == t[1..][i - 1];
    }
  }

  lemma {:induction false} DropSlashesAre(t: string)
    ensures var n := DropSlashes(t);
            && n <= t && (n == "" || n[|n| - 1] != '/') && forall i | |n| <= i < |t| :: t[i] == '/'
  {
    if t != "" && t[|t| - 1] == '/' {
      DropSlashesAre(t[..|t| - 1]);
    }
  }

  /** Slashes in both directions are the same, and those at the end do not count. */
  lemma NormalizedIs(cwd: string) returns (slashed: string, ending: string)
    ensures SlashedFrom(slashed, cwd) && slashed == Normalized(Some(cwd)) + ending
    ensures forall i | 0 <= i < |ending| :: ending[i] == '/'
    ensures var n := Normalized(Some(cwd)); n == "" || n[|n| - 1] != '/'
  {
    slashed := Slashes(cwd);
    SlashesAre(cwd);
    DropSlashesAre(slashed);
    ending := slashed[|Normalized(Some(cwd))|..];
  }

  // ---- parts of a path -----------------------------------------------------------------------------------------------

  ghost predicate Under(n: string, root: string) { exists rest :: n == root + rest }

  ghost predicate Holds(n: string, part: string) { exists a, b :: n == a + part + b }

  /** The last component. */
  ghost predicate EndsIn(n: string, part: string) { n == part || exists dir :: n == dir + "/" + part }

  lemma UnderIs(n: string, root: string)
    ensures Under(n, root) <==> StartsWith(n, root)
  {
    if StartsWith(n, root) { assert n == root + n[|root|..]; }
    if rest :| n == root + rest { assert n[..|root|] == root; }
  }

  lemma HoldsIs(n: string, part: string)
    ensures Holds(n, part) <==> Find(n, part).Some?
  {
    hide Find;
    FindContains(n, part);
    if Holds(n, part) {
      var a, b :| n == a + part + b;
      assert n[|a|..|a| + |part|] == part;
      assert OccursAt(n, part, |a|);
    }
    if Contains(n, part) {
      var i: nat :| OccursAt(n, part, i);
      assert n == n[..i] + part + n[i + |part|..];
    }
  }

  lemma {:induction false} LastPartIs(n: string)
    ensures '/' !in LastPart(n) && EndsIn(n, LastPart(n))
  {
    if n == "" {
    } else if n[|n| - 1] == '/' {
      assert n == n[..|n| - 1] + "/" + "";
    } else {
      var init := n[..|n| - 1];
      LastPartIs(init);
      assert n == init + [n[|n| - 1]];
      if init != LastPart(init) {
        var dir :| init == dir + "/" + LastPart(init);
        assert n == dir + "/" + LastPart(n);
      }
    }
  }

  lemma EndsInIs(n: string, part: string)
    requires '/' !in part
    ensures EndsIn(n, part) <==> LastPart(n) == part
  {
    hide LastPart;
    LastPartIs(n);
    if EndsIn(n, part) {
      if n == part {
        LastPartOf("", part);
        assert "" + part == part;
      } else {
        var dir :| n == dir + "/" + part;
        LastPartOf(dir + "/", part);
      }
    }
  }

  // ---- the families ----------------------------------------------------------------------------------------------------

  const DEPLOYED := "/home/pi/app/piloci"

  predicate Accidental(n: string) {
    n == "/tmp" || n == "/home/pi/.local/share/fonts/MesloLGS" || n == "/home/pi/app/jupyterLab/notebooks"
  }

  ghost predicate AtHome(n: string) {
    n == DEPLOYED || Under(n, PILOCI_ROOT) || Under(n, MIYOO_ROOT) || Under(n, MFA_ROOT)
  }

  /** Every environment of the ServiceNow app and everything in sorin's temp directory. */
  ghost predicate ServiceNow(n: string) {
    || Holds(n, "/x_yergb_bpm")
    || EndsIn(n, "yokogawabpm") || EndsIn(n, "yokogawabpmdev") || EndsIn(n, "yokogawabpmtest")
    || Under(n, SORIN_ROOT + "/temp")
  }

  lemma NamesHaveNoSlash()
    ensures '/' !in "yokogawabpm" && '/' !in "yokogawabpmdev" && '/' !in "yokogawabpmtest"
  {
  }

  lemma ServiceNowIs(n: string)
    ensures ServiceNow(n) <==>
              Find(n, XYERGB_PART).Some? || IsEnvironment(LastPart(n)) || StartsWith(n, SORIN_ROOT + "/temp")
  {
    hide Holds, EndsIn, Under, StartsWith, Find, LastPart, SORIN_ROOT;
    NamesHaveNoSlash();
    HoldsIs(n, "/x_yergb_bpm");
    EndsInIs(n, "yokogawabpm");
    EndsInIs(n, "yokogawabpmdev");
    EndsInIs(n, "yokogawabpmtest");
    UnderIs(n, SORIN_ROOT + "/temp");
  }

  /** The three repositories differ within their first 36 characters, and are longer than what is accidental. */
  lemma HomesApart(n: string)
    ensures Under(n, PILOCI_ROOT) ==> !Under(n, MIYOO_ROOT) && !Under(n, MFA_ROOT)
    ensures Under(n, MIYOO_ROOT) ==> !Under(n, MFA_ROOT)
    ensures AtHome(n) || Under(n, SORIN_ROOT + "/") ==> !Accidental(n)
    ensures n == DEPLOYED ==> !Under(n, PILOCI_ROOT) && !Under(n, MIYOO_ROOT) && !Under(n, MFA_ROOT)
  {
    hide PILOCI_ROOT, MIYOO_ROOT, MFA_ROOT, SORIN_ROOT, Accidental, DEPLOYED;
    RootLetters();
    AccidentalLengths(n);
    if Under(n, PILOCI_ROOT) { UnderAt(n, PILOCI_ROOT, 34); }
    if Under(n, MIYOO_ROOT) { UnderAt(n, MIYOO_ROOT, 34); UnderAt(n, MIYOO_ROOT, 35); }
    if Under(n, MFA_ROOT) { UnderAt(n, MFA_ROOT, 34); UnderAt(n, MFA_ROOT, 35); }
    if Under(n, SORIN_ROOT + "/") { UnderAt(n, SORIN_ROOT + "/", 1); }
  }

  lemma AccidentalLengths(n: string)
    ensures Accidental(n) ==> |n| == 4 || |n| == 36 || |n| == 33
    ensures |DEPLOYED| == 19 && !Accidental(DEPLOYED)
  {
  }

  lemma UnderAt(n: string, root: string, i: nat)
    requires Under(n, root) && i < |root|
    ensures |n| >= |root| && n[i] == root[i]
  {
    var rest :| n == root + rest;
  }

  lemma RouteOf(n: string)
    ensures RouteNormalized(n) ==
              if Accidental(n) then Junk
              else if n == DEPLOYED || Under(n, PILOCI_ROOT) then Root(PILOCI_ROOT)
              else if Under(n, MIYOO_ROOT) then Root(MIYOO_ROOT)
              else if Under(n, MFA_ROOT) then Root(MFA_ROOT)
              else if ServiceNow(n) then Root(XYERGB_ROOT)
              else if Under(n, SORIN_ROOT + "/") then Root(SORIN_ROOT)
              else Standalone
  {
    hide Under, StartsWith, Find, LastPart, ServiceNow, IsEnvironment, PILOCI_ROOT, MIYOO_ROOT, MFA_ROOT, SORIN_ROOT, XYERGB_ROOT, XYERGB_PART;
    UnderIs(n, PILOCI_ROOT);
    UnderIs(n, MIYOO_ROOT);
    UnderIs(n, MFA_ROOT);
    ServiceNowIs(n);
    UnderIs(n, SORIN_ROOT + "/");
  }

  lemma RootsDiffer()
    ensures PILOCI_ROOT != MIYOO_ROOT && PILOCI_ROOT != MFA_ROOT && PILOCI_ROOT != XYERGB_ROOT && PILOCI_ROOT != SORIN_ROOT
    ensures MIYOO_ROOT != MFA_ROOT && MIYOO_ROOT != XYERGB_ROOT && MIYOO_ROOT != SORIN_ROOT
    ensures MFA_ROOT != XYERGB_ROOT && MFA_ROOT != SORIN_ROOT && XYERGB_ROOT != SORIN_ROOT
  {
    hide PILOCI_ROOT, MIYOO_ROOT, MFA_ROOT, SORIN_ROOT, XYERGB_ROOT;
    RootLetters();
  }

  /** Every directory: where its project goes, destination by destination. */
  lemma RoutedExactly(cwd: Option<string>)
    ensures var n, d := Normalized(cwd), Route(cwd);
            var given := cwd.Some? && cwd.value != "";
            && (d == Junk <==> given && Accidental(n))
            && (d == Root(PILOCI_ROOT) <==> given && (n == DEPLOYED || Under(n, PILOCI_ROOT)))
            && (d == Root(MIYOO_ROOT) <==> given && Under(n, MIYOO_ROOT))
            && (d == Root(MFA_ROOT) <==> given && Under(n, MFA_ROOT))
            && (d == Root(XYERGB_ROOT) <==> given && ServiceNow(n) && !AtHome(n) && !Accidental(n))
            && (d == Root(SORIN_ROOT) <==> given && Under(n, SORIN_ROOT + "/") && !ServiceNow(n) && !AtHome(n))
            && (d == Standalone <==>
                  !given || (!Accidental(n) && !AtHome(n) && !ServiceNow(n) && !Under(n, SORIN_ROOT + "/")))
  {
    hide Under, ServiceNow, RouteNormalized, Normalized, Accidental, PILOCI_ROOT, MIYOO_ROOT, MFA_ROOT, SORIN_ROOT, XYERGB_ROOT, DEPLOYED;
    var n := Normalized(cwd);
    RouteOf(n);
    HomesApart(n);
    RootsDiffer();
  }

  // ---- survivors -------------------------------------------------------------------------------------------------------

  /** The last project whose path is root. */
  ghost predicate LastAt(ps: seq<Project>, root: string, i: nat) {
    i < |ps| && Normalized(ps[i].cwd) == root && forall j | i < j < |ps| :: Normalized(ps[j].cwd) != root
  }

  /** The project at a root is the last one whose path is that root; there is none if no path is. */
  lemma {:induction false} SurvivorIs(ps: seq<Project>, root: string)
    ensures match ProjectAt(ps, root)
            case Some(id) => exists i: nat :: LastAt(ps, root, i) && ps[i].id == id
            case None => forall i | 0 <= i < |ps| :: Normalized(ps[i].cwd) != root
  {
    hide Normalized;
    if ps != [] {
      var init, last := ps[..|ps| - 1], ps[|ps| - 1];
      if Normalized(last.cwd) == root {
        assert LastAt(ps, root, |ps| - 1);
      } else {
        SurvivorIs(init, root);
        if ProjectAt(init, root).Some? {
          var i: nat :| LastAt(init, root, i) && init[i].id == ProjectAt(init, root).value;
          LastStays(ps, root, i);
        }
      }
    }
  }

  lemma LastStays(ps: seq<Project>, root: string, i: nat)
    requires ps != [] && LastAt(ps[..|ps| - 1], root, i) && Normalized(ps[|ps| - 1].cwd) != root
    ensures LastAt(ps, root, i)
  {
    hide Normalized;
    var init := ps[..|ps| - 1];
    assert forall j | 0 <= j < |init| :: ps[j] == init[j];
  }

  /** What is decided about a project: by its destination, and by which project is at that root. */
  lemma FateIs(ps: seq<Project>, p: Project)
    ensures FateOf(ps, p) == Delete <==> Route(p.cwd) == Junk
    ensures forall s :: FateOf(ps, p) == MergeInto(s) <==>
              Route(p.cwd).Root? && ProjectAt(ps, Route(p.cwd).path) == Some(s) && s != p.id
  {
    hide Route, ProjectAt;
  }
}
