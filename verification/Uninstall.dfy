/** Exactly when uninstalling without restore gives a JSON config back, after any installations. */
module Uninstall {
  import opened Text
  import opened ParseFacts
  import opened Json
  import opened JsonText
  import opened Jsonc
  import opened JsoncRoundTrip
  import opened Configs
  import opened ConfigFiles
  import opened SoundObjects
  import opened Rereads
  import opened Edits
  import opened InstallRuns
  import opened ConfigRuns

  /** The schema key an OpenCode install adds is not taken out again. */
  lemma SchemaStays(obj: seq<Member>, entry: JSON)
    requires WellFormed(JObject(obj)) && WellFormed(entry)
    ensures var r := RemoveServer(MergeServer(SetDefault(obj, SCHEMA_KEY, SCHEMA), "mcp", SERVER, entry), "mcp", SERVER);
            r.Some? && HasKey(r.value, SCHEMA_KEY)
  {
    hide MergeServer, RemoveServer, Bucket, HasKey, DistinctKeys, WellFormed, Restorable, SCHEMA, SCHEMA_KEY;
    var d := SetDefault(obj, SCHEMA_KEY, SCHEMA);
    var m := MergeServer(d, "mcp", SERVER, entry);
    SchemaReread(obj);
    MergeWellFormed(d, entry);
    BothDistinctKeys(m, "mcp");
    MergeHolds(d, "mcp", entry);
    SchemaKept(obj, entry);
    SchemaIsNotServers();
    RemovedServer(m, "mcp");
  }

  lemma MergeWellFormed(obj: seq<Member>, entry: JSON)
    requires WellFormed(JObject(obj)) && WellFormed(entry)
    ensures WellFormed(JObject(MergeServer(obj, "mcp", SERVER, entry)))
  {
    hide WellFormed, Clean, MergeServer;
    SoundMerge(obj, "mcp", entry, false);
  }

  lemma PrintsDiffer(a: seq<Member>, b: seq<Member>)
    requires WellFormed(JObject(a)) && WellFormed(JObject(b))
    ensures Print(JObject(a), Pretty) == Print(JObject(b), Pretty) <==> a == b
  {
    hide Print, Loads, WellFormed;
    DumpsLoads(JObject(a), Pretty);
    DumpsLoads(JObject(b), Pretty);
  }

  // ---- what the config holds on the way ----------------------------------------------------------------------------

  /** The config is the printing of w. */
  ghost predicate Holding(s: Slot, w: seq<Member>) {
    WellFormed(JObject(w)) && s.config == Some(Print(JObject(w), Pretty))
  }

  lemma HoldingReads(s: Slot, w: seq<Member>)
    requires Holding(s, w)
    ensures Existing(Read(s)) == Reread(w) && WellFormed(JObject(Reread(w)))
  {
    hide ReadText, ParseJsonc, Print, WellFormed, Reread;
    WrittenParses(w);
  }

  lemma HoldingCleared(s: Slot, c: Client, w: seq<Member>)
    requires !c.Codex? && Holding(s, w)
    ensures match Removed(c, Reread(w))
            case Some(x) => Holding(Cleared(s, c), x)
            case None => Holding(Cleared(s, c), w)
  {
    hide ReadText, ParseJsonc, Print, WellFormed, Reread, Removed;
    WrittenParses(w);
    if Removed(c, Reread(w)).Some? { RemovedWellFormed(c, Reread(w)); }
  }

  lemma Applying(s: Slot, step: Step)
    requires StepClean(step)
    ensures Holding(Applied(s, step), Edited(step, Existing(Read(s)))) && WellFormed(JObject(Existing(Read(s))))
  {
    hide Print, WellFormed, Clean, Existing, Edited, IsCorrupt;
    NotCodex(step);
    ExistingSound(Read(s));
    EditedWellFormed(step, Existing(Read(s)));
  }

  /** Either piLoci's parts are there as an installation leaves them, or removing an installation left it. */
  ghost predicate OursOrGone(s: Slot, c: Client, w: seq<Member>) { Holding(s, w) && (Holds(c, w) || Undoable(c, w)) }

  /** Clearing such a config leaves an undoable object, whatever it was to begin with. */
  lemma ClearedIsUndoable(s: Slot, c: Client, w: seq<Member>) returns (z: seq<Member>)
    requires !c.Codex? && OursOrGone(s, c, w)
    ensures Holding(Cleared(s, c), z) && Undoable(c, z)
  {
    hide Holds, Undoable, Removed, Reread, WellFormed, Print, Cleared;
    HoldingReads(s, w);
    HoldingCleared(s, c, w);
    if Holds(c, w) {
      HeldReread(c, w);
      HeldRemoved(c, Reread(w));
      z := Removed(c, Reread(w)).value;
    } else {
      UndoableReread(c, w);
      UndoableQuiet(c, Reread(w));
      z := w;
    }
  }

  // ---- an undoable object on its way --------------------------------------------------------------------------------

  /** The object, or what rewriting made of it: shorter, unless the object loses nothing. */
  ghost predicate From(c: Client, obj: seq<Member>, q: seq<Member>) {
    && WellFormed(JObject(q)) && Undoable(c, q)
    && (Clean(JObject(obj)) ==> q == obj)
    && (q == obj || Chars(JObject(q)) < Chars(JObject(obj)))
  }

  /** The same after at least one rewrite. */
  ghost predicate Rewritten(c: Client, obj: seq<Member>, q: seq<Member>) {
    From(c, obj, q) && (q == obj ==> Clean(JObject(obj)))
  }

  lemma FromReread(c: Client, obj: seq<Member>, q: seq<Member>)
    requires !c.Codex? && From(c, obj, q)
    ensures Rewritten(c, obj, Reread(q))
  {
    hide WellFormed, Clean, Chars, Reread, Undoable;
    RereadShrinks(q);
    UndoableReread(c, q);
    RereadWellFormed(q);
  }

  lemma RereadWellFormed(q: seq<Member>)
    requires WellFormed(JObject(q))
    ensures WellFormed(JObject(Reread(q)))
  {
    hide WellFormed, Reread, Print, ParseJsonc, ReadText;
    WrittenParses(q);
  }

  /** The config holds a step's edit of a descendant of obj. */
  ghost predicate Made(s: Slot, c: Client, obj: seq<Member>, q: seq<Member>, step: Step) {
    From(c, obj, q) && StepClean(step) && step.Target() == c && Holding(s, Edited(step, q))
  }

  ghost predicate Plain(s: Slot, c: Client, obj: seq<Member>, q: seq<Member>) { Rewritten(c, obj, q) && Holding(s, q) }

  ghost predicate Tracked(s: Slot, c: Client, obj: seq<Member>) {
    (exists q, step :: Made(s, c, obj, q, step)) || exists q :: Plain(s, c, obj, q)
  }

  /** What the next step edits, and what it makes of it, when the config holds a descendant of obj. */
  lemma TrackedStep(s: Slot, c: Client, obj: seq<Member>, step: Step)
    requires !c.Codex? && Tracked(s, c, obj) && StepClean(step) && step.Target() == c
    ensures Tracked(Applied(s, step), c, obj)
  {
    hide WellFormed, From, Edited, Reread, Applied, StepClean, Holding, Undoable;
    Applying(s, step);
    if q, st :| Made(s, c, obj, q, st) {
      FromReread(c, obj, q);
      HoldingReads(s, Edited(st, q));
      FromParts(c, obj, q);
      EditedReread(st, q);
      StepsValid(st, step);
      NotCodex(st);
      EditedTwice(st, step, Reread(q));
      assert Made(Applied(s, step), c, obj, Reread(q), step);
    } else {
      var q :| Plain(s, c, obj, q);
      FromReread(c, obj, q);
      HoldingReads(s, q);
      assert Made(Applied(s, step), c, obj, Reread(q), step);
    }
  }

  lemma FromParts(c: Client, obj: seq<Member>, q: seq<Member>)
    requires From(c, obj, q)
    ensures WellFormed(JObject(q)) && Undoable(c, q)
  {
  }

  lemma TrackedCleared(s: Slot, c: Client, obj: seq<Member>) returns (q: seq<Member>)
    requires !c.Codex? && Tracked(s, c, obj)
    ensures Plain(Cleared(s, c), c, obj, q)
  {
    hide WellFormed, From, Edited, Reread, Cleared, StepClean, Holding, Undoable, Removed, Clean;
    if p, st :| Made(s, c, obj, p, st) {
      FromReread(c, obj, p);
      FromParts(c, obj, p);
      EditedReread(st, p);
      HoldingCleared(s, c, Edited(st, p));
      FromParts(c, obj, Reread(p));
      RemovedExactly(st, Reread(p));
      q := Reread(p);
    } else {
      q :| Plain(s, c, obj, q);
      FromParts(c, obj, q);
      UndoableReread(c, q);
      UndoableQuiet(c, Reread(q));
      HoldingCleared(s, c, q);
    }
  }

  // ---- histories -------------------------------------------------------------------------------------------------------

  /** What is known of c's config when obj was in it at first. */
  ghost predicate Reached(s: Slot, c: Client, obj: seq<Member>, touched: bool) {
    && (touched ==> exists w :: OursOrGone(s, c, w))
    && (Undoable(c, obj) ==> if touched then Tracked(s, c, obj) else Existing(Read(s)) == obj)
  }

  lemma StepReaches(s: Slot, c: Client, obj: seq<Member>, touched: bool, step: Step)
    requires !c.Codex? && Reached(s, c, obj, touched) && StepClean(step) && step.Target() == c && WellFormed(JObject(obj))
    ensures Reached(Applied(s, step), c, obj, true)
  {
    hide Tracked, Undoable, Existing, Applied, WellFormed, Edited, StepClean, Holds, Read;
    Applying(s, step);
    EditedHolds(step, Existing(Read(s)));
    assert OursOrGone(Applied(s, step), c, Edited(step, Existing(Read(s))));
    if Undoable(c, obj) {
      if touched { TrackedStep(s, c, obj, step); } else { FirstTracked(s, c, obj, step); }
    }
  }

  lemma FirstTracked(s: Slot, c: Client, obj: seq<Member>, step: Step)
    requires !c.Codex? && StepClean(step) && step.Target() == c && WellFormed(JObject(obj))
    requires Undoable(c, obj) && Existing(Read(s)) == obj
    ensures Tracked(Applied(s, step), c, obj)
  {
    hide Undoable, Existing, Applied, WellFormed, Edited, StepClean, Read, Holding, Clean, Chars;
    Applying(s, step);
    assert Made(Applied(s, step), c, obj, obj, step);
  }

  lemma ClearReaches(s: Slot, c: Client, obj: seq<Member>, touched: bool)
    requires !c.Codex? && Reached(s, c, obj, touched)
    ensures Reached(Cleared(s, c), c, obj, touched)
  {
    hide Made, Plain, Undoable, Cleared, Existing, Holding, Read, Holds;
    if touched {
      var w :| OursOrGone(s, c, w);
      var z := ClearedIsUndoable(s, c, w);
      assert OursOrGone(Cleared(s, c), c, z);
      if Undoable(c, obj) {
        var q := TrackedCleared(s, c, obj);
        assert Plain(Cleared(s, c), c, obj, q);
      }
    } else if Undoable(c, obj) {
      UndoableQuiet(c, obj);
      NothingToClear(s, c);
    }
  }

  lemma NothingToClear(s: Slot, c: Client)
    requires !c.Codex? && Removed(c, Existing(Read(s))) == None
    ensures Cleared(s, c) == s
  {
    hide Removed, ParseJsonc, ReadText, Print;
  }

  lemma {:induction false} StepsReach(s: Slot, c: Client, obj: seq<Member>, touched: bool, steps: seq<Step>)
    requires !c.Codex? && Reached(s, c, obj, touched) && CleanOn(steps, c) && WellFormed(JObject(obj))
    ensures Reached(AppliedAll(s, c, steps), c, obj, touched || Touches(steps, c))
    decreases |steps|
  {
    hide Reached, Touches, Applied, StepClean, WellFormed;
    if steps == [] {
      NothingTouched(c);
    } else {
      var init, last := steps[..|steps| - 1], steps[|steps| - 1];
      TouchesLast(steps, c);
      StepsReach(s, c, obj, touched, init);
      if last.Target() == c { StepReaches(AppliedAll(s, c, init), c, obj, touched || Touches(init, c), last); }
    }
  }

  lemma {:induction false} InstallsReach(s: Slot, c: Client, events: seq<Event>)
    requires !c.Codex? && Installs(events) && StepsClean(events, c)
    ensures Reached(Run(s, c, events), c, Existing(Read(s)), Touched(events, c))
    decreases |events|
  {
    hide Reached, Touched, TouchedBy, Installs, Existing, StepsClean, CleanOn, AppliedAll, Cleared, WellFormed, Clean;
    var obj := Existing(Read(s));
    ExistingSound(Read(s));
    NothingTouched(c);
    if events == [] {
      ReachedAtFirst(s, c);
    } else {
      var init, last := events[..|events| - 1], events[|events| - 1];
      TouchedLast(events, c);
      LastInstall(events);
      CleanLast(events, c);
      TouchedByIs(last, c);
      InstallsReach(s, c, init);
      ClearReaches(Run(s, c, init), c, obj, Touched(init, c));
      StepsReach(Swept(Run(s, c, init), c), c, obj, Touched(init, c), last.steps);
    }
  }

  lemma ReachedAtFirst(s: Slot, c: Client)
    requires !c.Codex?
    ensures Reached(s, c, Existing(Read(s)), false)
  {
    hide Undoable, Existing, Read;
  }

  /**
   Any installations, each with its sweep, then run_uninstall without restore, on a config with any content: it is
   the printing of the very object it held before exactly when that object was undoable and no string or key of it
   has a comma before a closing bracket. A config outside the backup targets fares the same with restore.
   */
  lemma UninstallUndoes(s: Slot, c: Client, events: seq<Event>)
    requires !c.Codex? && Installs(events) && Touched(events, c) && StepsClean(events, c)
    ensures var obj, left := Existing(Read(s)), Next(Run(s, c, events), c, Uninstall(false));
            && (left.config == Some(Print(JObject(obj), Pretty)) <==> Undoable(c, obj) && Clean(JObject(obj)))
            && (c !in TARGETS ==> Next(Run(s, c, events), c, Uninstall(true)) == left)
  {
    hide TARGETS, Run, Touched, Installs, Existing, StepsClean, Made, From, Undoable, Holds, Cleared, WellFormed, Clean, Print, Read;
    var obj, after := Existing(Read(s)), Run(s, c, events);
    ExistingSound(Read(s));
    InstallsReach(s, c, events);
    var w :| OursOrGone(after, c, w);
    var z := ClearedIsUndoable(after, c, w);
    PrintsDiffer(z, obj);
    if Undoable(c, obj) {
      var q := TrackedCleared(after, c, obj);
      PrintsDiffer(q, obj);
      CleanDescendant(c, obj, q);
    }
  }

  lemma CleanDescendant(c: Client, obj: seq<Member>, q: seq<Member>)
    requires Rewritten(c, obj, q)
    ensures q == obj <==> Clean(JObject(obj))
  {
    hide WellFormed, Clean, Undoable, Chars;
  }
}
