/** Histories of installations, restores and uninstalls: backups, what restoring gives back, and whose words a config holds. */
module InstallRuns {
  import opened Text
  import opened Json
  import opened JsonText
  import opened Jsonc
  import opened JsoncRoundTrip
  import opened ParseFacts
  import opened Configs
  import opened Hooks
  import opened HookRuns
  import opened LegacyToml
  import opened CodexBlock
  import opened ConfigFiles
  import opened SoundObjects
  import opened Rereads
  import opened Edits

  predicate Touches(steps: seq<Step>, c: Client) { exists i | 0 <= i < |steps| :: steps[i].Target() == c }

  predicate IsInstall(e: Event) { e.Install? }

  predicate Installs(events: seq<Event>) { forall i | 0 <= i < |events| :: IsInstall(events[i]) }

  predicate TouchedBy(e: Event, c: Client) { e.Install? && Touches(e.steps, c) }

  /** Some installation of the history has a step on c. */
  predicate Touched(events: seq<Event>, c: Client) { exists i | 0 <= i < |events| :: TouchedBy(events[i], c) }

  lemma TouchesLast(steps: seq<Step>, c: Client)
    requires steps != []
    ensures Touches(steps, c) <==> Touches(steps[..|steps| - 1], c) || steps[|steps| - 1].Target() == c
  {
    var init := steps[..|steps| - 1];
    if Touches(init, c) {
      var i :| 0 <= i < |init| && init[i].Target() == c;
      assert steps[i].Target() == c;
    }
    if Touches(steps, c) {
      var i :| 0 <= i < |steps| && steps[i].Target() == c;
      if i < |init| { assert init[i].Target() == c; }
    }
  }

  lemma TouchedLast(events: seq<Event>, c: Client)
    requires events != []
    ensures Touched(events, c) <==> Touched(events[..|events| - 1], c) || TouchedBy(events[|events| - 1], c)
    ensures Installs(events) ==> Installs(events[..|events| - 1])
  {
    hide TouchedBy, IsInstall;
    var init := events[..|events| - 1];
    if Touched(init, c) {
      var i :| 0 <= i < |init| && TouchedBy(init[i], c);
      assert TouchedBy(events[i], c);
    }
    if Touched(events, c) {
      var i :| 0 <= i < |events| && TouchedBy(events[i], c);
      if i < |init| { assert TouchedBy(init[i], c); }
    }
    assert forall i | 0 <= i < |init| :: init[i] == events[i];
  }

  lemma NothingTouched(c: Client)
    ensures !Touched([], c) && !Touches([], c)
  {
  }

  lemma {:induction false} RunAppend(s: Slot, c: Client, a: seq<Event>, b: seq<Event>)
    ensures Run(s, c, a + b) == Run(Run(s, c, a), c, b)
    decreases |b|
  {
    hide Next;
    if b == [] {
      assert a + b == a;
    } else {
      RunAppend(s, c, a, b[..|b| - 1]);
      assert (a + b)[..|a + b| - 1] == a + b[..|b| - 1];
    }
  }

  // ---- one installation ------------------------------------------------------------------------------------------

  /** The steps of one installation: only those on c matter, and the first of them takes the backup. */
  lemma {:induction false} StepsBackUp(s: Slot, c: Client, steps: seq<Step>)
    ensures !Touches(steps, c) ==> AppliedAll(s, c, steps) == s
    ensures Touches(steps, c) ==> AppliedAll(s, c, steps).config.Some?
    ensures Touches(steps, c) && s.config.Some? ==>
              AppliedAll(s, c, steps).backup == if s.backup.Some? then s.backup else Read(s)
    decreases |steps|
  {
    hide Touches, NewText, IsCorrupt, ReadText;
    if steps == [] {
      NothingTouched(c);
    } else {
      TouchesLast(steps, c);
      StepsBackUp(s, c, steps[..|steps| - 1]);
    }
  }

  lemma {:induction false} ReadTextTwice(t: string)
    ensures ReadText(ReadText(t)) == ReadText(t)
  {
    hide ReadText;
    ReadTextHasNoReturns(t);
    ReadTextSame(ReadText(t));
  }

  /** Surgical removal takes nothing from the text. */
  predicate Quiet(c: Client, text: string) { RemovedText(c, ReadText(text)).None? }

  lemma QuietSame(c: Client, t: string, u: string)
    requires ReadText(t) == ReadText(u)
    ensures Quiet(c, t) == Quiet(c, u)
    ensures Quiet(c, t) ==> Surgery(c, t) == t
  {
    hide ReadText, RemovedText;
  }

  /** What removal wrote, it leaves alone; whatever else the file holds, and however its strings were rewritten. */
  lemma SurgeryQuiet(c: Client, t: string)
    requires !c.Codex?
    ensures Quiet(c, Surgery(c, t))
    ensures !Quiet(c, t) ==> ReadText(Surgery(c, t)) != ReadText(t)
  {
    hide ReadText, ParseJsonc, Print, WellFormed, Removed, Reread;
    var raw := ReadText(t);
    match ParseJsonc(raw)
    case Some(JObject(ms)) =>
      ParsedWellFormed(raw);
      if Removed(c, ms).Some? {
        var x := Removed(c, ms).value;
        RemovedWellFormed(c, ms);
        RemovedTwice(c, ms);
        WrittenParses(x);
        QuietReread(c, x);
      }
    case _ =>
  }

  // ---- backups ------------------------------------------------------------------------------------------------------

  /** What an installation finds of a config: the two swept ones have lost piLoci's parts already. */
  function Found(c: Client, text: string): string { if IsSwept(c) then Surgery(c, text) else text }

  lemma FoundTwice(c: Client, t: string)
    ensures Found(c, Found(c, t)) == Found(c, t)
  {
    hide ReadText, RemovedText, Quiet;
    if IsSwept(c) {
      SurgeryQuiet(c, t);
      QuietSame(c, Surgery(c, t), Surgery(c, t));
    }
  }

  /** The first installation that touches a config keeps aside what it finds, and no later one changes that backup. */
  lemma {:induction false} BackupAfterRun(s: Slot, c: Client, events: seq<Event>)
    requires Installs(events) && s.config.Some? && s.backup.None?
    ensures Run(s, c, events).config.Some?
    ensures Run(s, c, events).backup == if Touched(events, c) then Some(ReadText(Found(c, s.config.value))) else None
    ensures !Touched(events, c) && events != [] ==> Run(s, c, events).config == Some(Found(c, s.config.value))
    decreases |events|
  {
    hide Touched, TouchedBy, Installs, AppliedAll, ReadText, Surgery;
    NothingTouched(c);
    if events != [] {
      var init, last := events[..|events| - 1], events[|events| - 1];
      TouchedLast(events, c);
      LastInstall(events);
      BackupAfterRun(s, c, init);
      FoundTwice(c, s.config.value);
      StepsBackUp(Swept(Run(s, c, init), c), c, last.steps);
      TouchedByIs(last, c);
    }
  }

  lemma LastInstall(events: seq<Event>)
    requires Installs(events) && events != []
    ensures events[|events| - 1].Install?
  {
    assert IsInstall(events[|events| - 1]);
  }

  lemma TouchedByIs(e: Event, c: Client)
    requires e.Install?
    ensures TouchedBy(e, c) <==> Touches(e.steps, c)
  {
  }

  /**
   A config that existed without a backup beside it, with any content, after any installations of which some touched
   it: restoring gives back its text exactly when the sweep before an installation has nothing to take from it, which
   for the clients that are not swept is always so; and its bytes exactly when they hold no carriage return either.
   */
  lemma RestoreGivesBack(s: Slot, c: Client, events: seq<Event>)
    requires Installs(events) && Touched(events, c) && c in TARGETS && s.config.Some? && s.backup.None?
    ensures var t := s.config.value;
            var back := Next(Run(s, c, events), c, Restore).config;
            && back == Some(ReadText(Found(c, t)))
            && (back == Some(ReadText(t)) <==> !IsSwept(c) || Quiet(c, t))
            && (back == Some(t) <==> (!IsSwept(c) || Quiet(c, t)) && '\r' !in t)
  {
    hide TARGETS, Run, Touched, Installs, ReadText, Quiet, RemovedText, Surgery;
    var t := s.config.value;
    BackupAfterRun(s, c, events);
    ReadTextSame(t);
    ReadTextTwice(t);
    QuietSame(c, t, t);
    if IsSwept(c) {
      SurgeryQuiet(c, t);
      ReadTextSame(Surgery(c, t));
      if ReadText(Surgery(c, t)) == t { ReadTextSame(t); ReadTextTwice(Surgery(c, t)); }
    }
  }

  /** The file of RestoreGivesBack at its smallest: a carriage return does not come back. */
  lemma CarriageReturnLost(events: seq<Event>)
    requires Installs(events) && Touched(events, Cursor)
    ensures Next(Run(Slot(Some("{}\r"), None, None), Cursor, events), Cursor, Restore).config != Some("{}\r")
  {
    hide Run, Touched, Installs, ReadText;
    assert "{}\r"[2] == '\r';
    RestoreGivesBack(Slot(Some("{}\r"), None, None), Cursor, events);
  }

  /**
   A config that did not exist: the first installation leaves no backup, so the next one that touches it keeps aside
   what it finds of the first one's output, and restoring brings that back instead of removing the file.
   */
  lemma SecondInstallBacksUp(s: Slot, c: Client, first: seq<Event>, more: seq<Event>)
    requires Installs(more) && Touched(more, c)
    requires var once := Run(s, c, first); once.config.Some? && once.backup.None?
    ensures Run(s, c, first + more).backup == Some(ReadText(Found(c, Run(s, c, first).config.value)))
  {
    hide Run, Touched, Installs, ReadText, Found;
    RunAppend(s, c, first, more);
    BackupAfterRun(Run(s, c, first), c, more);
  }

  /** Claude Code's settings, when there were none: the second installation backs up "{}", the swept first output. */
  lemma EmptySettingsBackedUp(python: string, more: seq<Event>)
    requires StepClean(AddHooks(python)) && Installs(more) && Touched(more, ClaudeSettings)
    ensures var s, first := Slot(None, None, None), Install([AddHooks(python)]);
            Run(s, ClaudeSettings, [first] + more).backup == Some("{}")
  {
    hide Touched, Installs, ReadText, StepClean, ParseJsonc;
    var c, s, first, step := ClaudeSettings, Slot(None, None, None), Install([AddHooks(python)]), AddHooks(python);
    OneInstall(s, step);
    FreshSettings(python);
    SecondInstallBacksUp(s, c, [first], more);
  }

  lemma OneInstall(s: Slot, step: Step)
    requires s.config.None?
    ensures Run(s, step.Target(), [Install([step])]) == Applied(s, step)
  {
    hide NewText, IsCorrupt;
    var c, e := step.Target(), Install([step]);
    assert [e][..0] == [] && Run(s, c, []) == s;
    assert [step][..0] == [] && AppliedAll(s, c, []) == s;
    assert Next(s, c, e) == Applied(s, step);
    assert Run(s, c, [e]) == Next(Run(s, c, [e][..0]), c, e);
  }

  lemma SurgeryOfWritten(c: Client, ms: seq<Member>, left: seq<Member>)
    requires !c.Codex? && SoundObject(ms, true) && Removed(c, ms) == Some(left)
    ensures Surgery(c, Print(JObject(ms), Pretty)) == Print(JObject(left), Pretty)
  {
    hide ReadText, ParseJsonc, WellFormed, Clean, Print, Removed;
    WrittenParses(ms);
    RereadSound(ms);
  }

  lemma FreshSettings(python: string)
    requires StepClean(AddHooks(python))
    ensures var t := NewText(AddHooks(python), None); Surgery(ClaudeSettings, t) == "{}" && ReadText("{}") == "{}"
  {
    hide ReadText, InstallHooks, RemoveHooks, HooksRestorable, Print, StepClean, Surgery, SoundObject;
    SoundEmpty(true);
    SoundEdited(AddHooks(python), [], true);
    EmptyUndone();
    Undone([], python);
    SurgeryOfWritten(ClaudeSettings, InstallHooks([], python), []);
    NoReturnInEmpty();
    EmptyPrinted();
  }

  lemma NoReturnInEmpty()
    ensures ReadText("{}") == "{}"
  {
    hide ReadText;
    ReadTextSame("{}");
  }

  lemma EmptyUndone()
    ensures HooksRestorable([]) && DistinctKeys([])
  {
  }

  lemma EmptyPrinted()
    ensures Print(JObject([]), Pretty) == "{}"
  {
  }

  // ---- every interleaving of installs, restores and uninstalls -----------------------------------------------------------

  predicate IsUninstall(e: Event) { e.Uninstall? }

  predicate NoUninstall(events: seq<Event>) { forall i | 0 <= i < |events| :: !IsUninstall(events[i]) }

  /** Nothing in the history takes anything from the text itself. */
  predicate Safe(c: Client, text: string, events: seq<Event>) { Quiet(c, text) || (!IsSwept(c) && NoUninstall(events)) }

  /** The text is in the backup, or it is still the config's. */
  predicate Keeps(s: Slot, raw: string) {
    s.backup == Some(raw) || (s.backup.None? && Read(s) == Some(raw))
  }

  lemma InstallKeeps(s: Slot, c: Client, raw: string, steps: seq<Step>)
    requires Keeps(s, raw) && (!IsSwept(c) || Quiet(c, raw)) && ReadText(raw) == raw
    ensures Keeps(Next(s, c, Install(steps)), raw)
  {
    hide AppliedAll, ReadText, Touches, RemovedText, Quiet;
    StepsBackUp(Swept(s, c), c, steps);
    if s.backup.None? { QuietSame(c, s.config.value, raw); }
    if s.config.None? { StepsKeepBackup(Swept(s, c), c, steps); }
  }

  lemma {:induction false} StepsKeepBackup(s: Slot, c: Client, steps: seq<Step>)
    requires s.backup.Some?
    ensures AppliedAll(s, c, steps).backup == s.backup
    decreases |steps|
  {
    hide NewText, IsCorrupt, ReadText;
    if steps != [] { StepsKeepBackup(s, c, steps[..|steps| - 1]); }
  }

  lemma EventKeeps(s: Slot, c: Client, raw: string, e: Event)
    requires Keeps(s, raw) && ReadText(raw) == raw
    requires Quiet(c, raw) || (!IsSwept(c) && !IsUninstall(e))
    ensures Keeps(Next(s, c, e), raw)
  {
    hide AppliedAll, ReadText, RemovedText, Quiet, TARGETS;
    match e
    case Install(steps) => InstallKeeps(s, c, raw, steps);
    case Restore =>
    case Uninstall(restore) =>
      var r := if restore then Restored(s, c) else s;
      if r.backup.None? { QuietSame(c, r.config.value, raw); }
  }

  /**
   After any history whatsoever of installs, restores and uninstalls, the text of a config that surgical removal has
   nothing to take from is in its backup or still in the config. The same of any text, for a client that is not
   swept, while nobody uninstalls.
   */
  lemma {:induction false} NeverLost(s: Slot, c: Client, events: seq<Event>)
    requires s.config.Some? && s.backup.None? && Safe(c, s.config.value, events)
    ensures Keeps(Run(s, c, events), ReadText(s.config.value))
    decreases |events|
  {
    hide ReadText, Quiet, Next;
    var raw := ReadText(s.config.value);
    ReadTextTwice(s.config.value);
    QuietSame(c, raw, s.config.value);
    if events != [] {
      var init, last := events[..|events| - 1], events[|events| - 1];
      assert NoUninstall(events) ==> NoUninstall(init) && !IsUninstall(last);
      NeverLost(s, c, init);
      EventKeeps(Run(s, c, init), c, raw, last);
    }
  }

  /** Whatever happened before, restoring or uninstalling with restore gives back the text and leaves no backup. */
  lemma ResetGivesBack(s: Slot, c: Client, events: seq<Event>, e: Event)
    requires c in TARGETS && s.config.Some? && s.backup.None? && Quiet(c, s.config.value)
    requires e == Restore || e == Uninstall(true)
    ensures var r := Run(s, c, events + [e]); r.backup.None? && Read(r) == Some(ReadText(s.config.value))
  {
    hide ReadText, Quiet, TARGETS, RemovedText;
    var raw := ReadText(s.config.value);
    NeverLost(s, c, events);
    ReadTextTwice(s.config.value);
    QuietSame(c, raw, s.config.value);
    assert (events + [e])[..|events|] == events;
    var r := Restored(Run(s, c, events), c);
    QuietSame(c, r.config.value, raw);
  }

  /** The slots cannot be told apart by a step. */
  predicate Alike(s: Slot, r: Slot) { s.backup == r.backup && Read(s) == Read(r) }

  lemma {:induction false} SameSteps(s: Slot, r: Slot, c: Client, steps: seq<Step>)
    requires Alike(s, r)
    ensures Alike(AppliedAll(s, c, steps), AppliedAll(r, c, steps))
    ensures Touches(steps, c) ==> AppliedAll(s, c, steps).config == AppliedAll(r, c, steps).config
    ensures s.config == r.config ==> AppliedAll(s, c, steps).config == AppliedAll(r, c, steps).config
    decreases |steps|
  {
    hide NewText, IsCorrupt, ReadText, Touches;
    if steps == [] {
      NothingTouched(c);
    } else {
      TouchesLast(steps, c);
      SameSteps(s, r, c, steps[..|steps| - 1]);
    }
  }

  lemma SweptAlike(s: Slot, r: Slot, c: Client)
    requires Alike(s, r)
    ensures Alike(Swept(s, c), Swept(r, c)) && (s.config == r.config ==> Swept(s, c).config == Swept(r, c).config)
  {
    hide ReadText, RemovedText;
  }

  lemma {:induction false} SameInstalls(s: Slot, r: Slot, c: Client, events: seq<Event>)
    requires Alike(s, r) && Installs(events)
    ensures Alike(Run(s, c, events), Run(r, c, events))
    ensures Touched(events, c) ==> Run(s, c, events).config == Run(r, c, events).config
    decreases |events|
  {
    hide AppliedAll, Swept, Alike, Touched, TouchedBy, Installs;
    NothingTouched(c);
    if events != [] {
      var init, last := events[..|events| - 1], events[|events| - 1];
      TouchedLast(events, c);
      LastInstall(events);
      TouchedByIs(last, c);
      SameInstalls(s, r, c, init);
      SweptAlike(Run(s, c, init), Run(r, c, init), c);
      SameSteps(Swept(Run(s, c, init), c), Swept(Run(r, c, init), c), c, last.steps);
    }
  }

  /**
   After any history that ends in a restore or an uninstall with restore, installing again does to the config and to
   its backup what it would have done at the very beginning.
   */
  lemma ReinstalledAfterReset(s: Slot, c: Client, events: seq<Event>, e: Event, more: seq<Event>)
    requires c in TARGETS && s.config.Some? && s.backup.None? && Quiet(c, s.config.value)
    requires (e == Restore || e == Uninstall(true)) && Installs(more) && Touched(more, c)
    ensures var r, anew := Run(s, c, events + [e] + more), Run(s, c, more);
            r.config == anew.config && r.backup == anew.backup
  {
    hide Run, Quiet, TARGETS, Touched, Installs, ReadText;
    ResetGivesBack(s, c, events, e);
    RunAppend(s, c, events + [e], more);
    SameInstalls(Run(s, c, events + [e]), s, c, more);
  }

  /**
   Any installations, then run_uninstall with restore: a config that was there before without a backup, free of
   piLoci's parts, ends as the text it was; byte for byte unless an installation touched it and it had carriage
   returns.
   */
  lemma UninstallRestores(s: Slot, c: Client, events: seq<Event>)
    requires Installs(events) && c in TARGETS && s.config.Some? && s.backup.None? && Quiet(c, s.config.value)
    ensures var t := s.config.value;
            var left := Next(Run(s, c, events), c, Uninstall(true)).config;
            && left == Some(if Touched(events, c) then ReadText(t) else t)
            && (left == Some(t) <==> !Touched(events, c) || '\r' !in t)
  {
    hide ReadText, TARGETS, Touched, RemovedText, Quiet, Installs, Next;
    var t := s.config.value;
    BackupAfterRun(s, c, events);
    QuietSame(c, t, t);
    ReadTextTwice(t);
    QuietSame(c, ReadText(t), t);
    ReadTextSame(t);
    UninstallOf(Run(s, c, events), c);
    RunNothing(s, c);
  }

  lemma RunNothing(s: Slot, c: Client)
    ensures Run(s, c, []) == s
  {
  }

  lemma UninstallOf(s: Slot, c: Client)
    requires c in TARGETS
    ensures Next(s, c, Uninstall(true)) == Cleared(Restored(s, c), c)
    ensures Restored(s, c).config == if s.backup.Some? then s.backup else s.config
  {
    hide TARGETS, Cleared;
  }

  /** What removal takes nothing from, in the words of the three formats. */
  ghost predicate NoPilociParts(c: Client, raw: string) {
    if c.Codex? then !Contains(raw, BEGIN) && NoPiloci(SplitLines(raw), KindOf)
    else
      match ParseJsonc(raw)
      case Some(JObject(obj)) =>
        if c.ClaudeSettings? then !AnyChanges(Bucket(obj, "hooks")) else !HasKey(Bucket(obj, ServerKey(c)), SERVER)
      case _ => true
  }

  lemma QuietMeaning(c: Client, text: string)
    ensures NoPilociParts(c, ReadText(text)) ==> Quiet(c, text)
    ensures !c.Codex? ==> (Quiet(c, text) <==> NoPilociParts(c, ReadText(text)))
  {
    hide ParseJsonc, HasKey, Get, AnyChanges, Contains, SplitLines, KindOf, Cleaned, RStrip, ReadText;
    NoneHeld();
    if c.Codex? && NoPilociParts(c, ReadText(text)) { UntouchedFile(ReadText(text)); }
  }

  lemma NoneHeld()
    ensures !AnyChanges([]) && !HasKey([], SERVER)
  {
  }
}
