/** What an import answers, told from the archive alone, and what it counts. */
module ImportOutcomes {
  import opened Text
  import opened Json
  import opened JsonText
  import opened JsonGrammar
  import opened JsonReader
  import opened Slugs
  import opened ArchiveImport

  // ---- accepted, refused or unreadable -----------------------------------------------------------------------------

  ghost predicate IsJson(text: string) { exists v :: IsText(text, v) }

  ghost predicate IsList(text: string) { exists items :: IsText(text, JArray(items)) }

  lemma ListingIs(text: string)
    ensures ReadList(text).NotJson? <==> !IsJson(text)
    ensures ReadList(text).Items? <==> IsList(text)
    ensures IsList(text) ==> IsJson(text)
  {
    hide Loads, IsText;
    forall v ensures Loads(text) == Some(v) <==> IsText(text, v) { LoadsExactly(text, v); }
    match Loads(text)
    case Some(v) => assert IsText(text, v);
    case None =>
  }

  /** The archive's vectors are of this server's model and size. */
  predicate Fits(a: Archive, s: Server) { a.embedModel == s.model && a.vectorSize == 384 }

  /**
   An archive is imported if and only if its version is 1, its projects and profiles are JSON arrays, and its vectors
   fit or re-embedding is allowed; it is re-embedded if and only if they do not fit. What is not imported changes
   nothing: 409 is answered only for vectors that may not be replaced, 400 for another version or for JSON that is no
   array, and anything else is text that is no JSON.
   */
  lemma OutcomeIs(before: Contents, a: Archive, user: string, s: Server, after: Contents, o: Outcome)
    requires EnoughIds(a, s) && ImportStep(before, a, user, s, after, o)
    ensures o.Imported? <==> a.version == 1 && IsList(a.projects) && IsList(a.profiles) && (Fits(a, s) || s.allow)
    ensures o.Imported? ==> (o.reembedded <==> !Fits(a, s))
    ensures !o.Imported? ==> after == before
    ensures o == Rejected(409) <==> a.version == 1 && IsList(a.projects) && IsList(a.profiles) && !Fits(a, s) && !s.allow
    ensures o == Unreadable <==>
              a.version == 1 && (!IsJson(a.projects) || (IsList(a.projects) && !IsJson(a.profiles)))
    ensures o == Rejected(400) <==>
              || a.version != 1
              || (IsJson(a.projects) && !IsList(a.projects))
              || (IsList(a.projects) && IsJson(a.profiles) && !IsList(a.profiles))
  {
    hide ReadList, IsJson, IsList, PlanFor, Of, Landing, Landed, UpsertAll, ProfileCount;
    ListingIs(a.projects);
    ListingIs(a.profiles);
  }

  // ---- which entries become projects ---------------------------------------------------------------------------------

  predicate IsString(v: Option<JSON>) { v.Some? && v.value.JString? }

  /** An entry is imported if and only if it has a string id, a slug that is one once stripped and lowered, and a name. */
  lemma AcceptedIff(raw: JSON, a: Accepted)
    ensures Accept(raw) == Some(a) <==>
              && raw.JObject?
              && Get(raw.members, "id") == Some(JString(a.id))
              && Get(raw.members, "name") == Some(JString(a.name)) && a.name != ""
              && IsString(Get(raw.members, "slug"))
              && (exists t :: StrippedFrom(Get(raw.members, "slug").value.s, t) && LowerAll(t) == a.slug) && IsSlug(a.slug)
              && a.description == (if IsString(Get(raw.members, "description")) then Some(Get(raw.members, "description").value.s) else None)
  {
    hide Get, Strip, LowerAll, IsSlug, StrippedFrom;
    if raw.JObject? && IsString(Get(raw.members, "slug")) {
      var s := Get(raw.members, "slug").value.s;
      StripMeaning(s);
      forall t | StrippedFrom(s, t) ensures t == Strip(s) { StrippedOnce(s, t); }
    }
  }

  /** A profile is attached if and only if its project was imported and its text is a string. */
  lemma AttachedIff(raw: JSON, user: string, ids: map<string, string>, p: Profile)
    ensures ProfileFrom(raw, user, ids) == Some(p) <==>
              && raw.JObject? && p.user == user
              && Get(raw.members, "profile_json") == Some(JString(p.json))
              && exists o :: o in ids && ids[o] == p.project && Get(raw.members, "project_id") == Some(JString(o))
  {
    hide Get;
  }

  // ---- renamed projects ------------------------------------------------------------------------------------------------

  /** The entries that are imported, in order. */
  function Asked(raws: seq<JSON>): seq<Accepted> {
    if raws == [] then []
    else (match Accept(raws[0]) case Some(a) => [a] case None => []) + Asked(raws[1..])
  }

  ghost predicate AsAsked(p: Project, a: Accepted, user: string) {
    p.user == user && p.name == a.name && p.description == a.description
  }

  /** The rows whose slug is not the one the archive asks for. */
  ghost function OtherSlugs(rows: seq<Project>, asked: seq<Accepted>): set<int>
    requires |rows| == |asked|
  {
    set k | 0 <= k < |rows| && rows[k].slug != asked[k].slug
  }

  lemma OneMore(rows: seq<Project>, asked: seq<Accepted>, p: Project, a: Accepted)
    requires |rows| == |asked|
    ensures |OtherSlugs(rows + [p], asked + [a])| == |OtherSlugs(rows, asked)| + if p.slug != a.slug then 1 else 0
  {
    var old_, new_ := OtherSlugs(rows, asked), OtherSlugs(rows + [p], asked + [a]);
    if p.slug != a.slug {
      assert new_ == old_ + {|rows|};
    } else {
      assert new_ == old_;
    }
  }

  lemma FreeOrRenamed(base: string, taken: set<string>)
    ensures Renamed(base, taken) <==> FreeSlug(base, taken) != base
  {
    assert Candidate(base, 0) == base;
    FreeIsFree(base, taken);
  }

  lemma {:induction false} PlanCounts(p: Plan, done: seq<Accepted>, user: string, raws: seq<JSON>, ids: seq<string>)
    requires |raws| <= |ids| && |p.rows| == |done| && p.renames == |OtherSlugs(p.rows, done)|
    requires forall k | 0 <= k < |done| :: AsAsked(p.rows[k], done[k], user)
    ensures var q, all := PlanAll(p, user, raws, ids), done + Asked(raws);
            && |q.rows| == |all| && q.renames == |OtherSlugs(q.rows, all)|
            && forall k | 0 <= k < |all| :: AsAsked(q.rows[k], all[k], user)
    decreases |raws|
  {
    hide Accept, FreeSlug, Renamed, OtherSlugs;
    if raws == [] {
      assert done + [] == done;
    } else {
      var next := PlanOne(p, user, raws[0], ids[0]);
      match Accept(raws[0]) {
        case None =>
          assert [] + Asked(raws[1..]) == Asked(raws[1..]);
          PlanCounts(next, done, user, raws[1..], ids[1..]);
        case Some(a) =>
          var row := Project(ids[0], user, FreeSlug(a.slug, p.taken), a.name, a.description);
          FreeOrRenamed(a.slug, p.taken);
          OneMore(p.rows, done, row, a);
          assert next.rows == p.rows + [row];
          PlanCounts(next, done + [a], user, raws[1..], ids[1..]);
          assert done + [a] + Asked(raws[1..]) == done + ([a] + Asked(raws[1..]));
      }
    }
  }

  /** One row for each entry that can be imported, under its name; the renames are the rows with another slug. */
  lemma RenamesCounted(ps: seq<Project>, user: string, raws: seq<JSON>, ids: seq<string>)
    requires |raws| <= |ids|
    ensures var p, asked := PlanFor(ps, user, raws, ids), Asked(raws);
            && |p.rows| == |asked| && p.renames == |OtherSlugs(p.rows, asked)|
            && forall k | 0 <= k < |asked| :: AsAsked(p.rows[k], asked[k], user)
  {
    hide Accept, FreeSlug, Renamed, PlanAll;
    assert [] + Asked(raws) == Asked(raws);
    assert OtherSlugs([], []) == {};
    PlanCounts(Plan([], map[], 0, SlugsOf(ps, user)), [], user, raws, ids);
  }
}
