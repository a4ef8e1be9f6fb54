/** What an installation makes of a config in any layout, and what it keeps of one it cannot read. */
module ConfigTexts {
  import opened Text
  import opened Json
  import opened JsonText
  import opened Jsonc
  import opened JsonGrammar
  import opened JsoncReader
  import opened ParseFacts
  import opened ConfigFiles
  import opened SoundObjects
  import opened Rereads
  import opened Edits
  import opened InstallRuns
  import opened ConfigRuns
  import opened Uninstall

  /**
   A config that is a JSON object in any layout, with comments and last commas: a step edits the very object its text
   stands for, nothing is set aside as corrupt, and the backup holds the text.
   */
  lemma LayoutEdited(s: Slot, step: Step, d: Document, ms: seq<Member>)
    requires !step.AddCodex? && d.Valid() && Lossless(d.tree) && Value(d.tree) == JObject(ms)
    requires s == Slot(Some(d.Text()), None, None) && '\r' !in d.Text()
    ensures Applied(s, step) == Slot(Some(Print(JObject(Edited(step, ms)), Pretty)), s.config, None)
  {
    hide ParseJsonc, ReadText, Print, Edited, Value, Lossless;
    LosslessParsed(d);
    ReadTextSame(d.Text());
  }

  /** The config is there and the reader accepts it. */
  predicate Readable(s: Slot) { s.config.Some? && ParseJsonc(ReadText(s.config.value)).Some? }

  lemma HoldingReadable(s: Slot, w: seq<Member>)
    requires Holding(s, w)
    ensures Readable(s)
  {
    hide ParseJsonc, ReadText, Print, WellFormed, Reread;
    WrittenParses(w);
  }

  lemma StepReadable(s: Slot, step: Step)
    requires StepClean(step)
    ensures Readable(Applied(s, step))
    ensures Applied(s, step).corrupt == if s.config.Some? && !Readable(s) then Read(s) else s.corrupt
  {
    hide ParseJsonc, ReadText, NewText, Existing, Edited;
    NotCodex(step);
    Applying(s, step);
    HoldingReadable(Applied(s, step), Edited(step, Existing(Read(s))));
  }

  /** The sweep leaves an unreadable config alone and a readable one readable. */
  lemma SweepReadable(s: Slot, c: Client)
    requires !c.Codex?
    ensures var r := Swept(s, c);
            r.corrupt == s.corrupt && (Readable(r) <==> Readable(s)) && (!Readable(s) ==> r == s)
  {
    hide ParseJsonc, ReadText, Print, WellFormed, Removed, Reread;
    if IsSwept(c) && Readable(s) {
      var raw := ReadText(s.config.value);
      if RemovedText(c, raw).Some? {
        ParsedWellFormed(raw);
        var ms := ParseJsonc(raw).value.members;
        RemovedWellFormed(c, ms);
        HoldingReadable(Swept(s, c), Removed(c, ms).value);
      }
    }
  }

  lemma {:induction false} StepsCorrupt(s: Slot, c: Client, steps: seq<Step>)
    requires !c.Codex? && CleanOn(steps, c)
    ensures var r := AppliedAll(s, c, steps);
            if !Touches(steps, c) then r == s
            else Readable(r) && r.corrupt == if s.config.Some? && !Readable(s) then Read(s) else s.corrupt
    decreases |steps|
  {
    hide Touches, Applied, Readable, StepClean, Read;
    if steps == [] {
      NothingTouched(c);
    } else {
      var init, last := steps[..|steps| - 1], steps[|steps| - 1];
      TouchesLast(steps, c);
      StepsCorrupt(s, c, init);
      if last.Target() == c { StepReadable(AppliedAll(s, c, init), last); }
    }
  }

  /**
   After any installations the corrupt copy holds what an unreadable config held, if an installation touched it;
   otherwise it is what it was. What the reader accepts is never set aside.
   */
  lemma {:induction false} CorruptAfter(s: Slot, c: Client, events: seq<Event>)
    requires !c.Codex? && Installs(events) && StepsClean(events, c)
    ensures var r := Run(s, c, events);
            && (Touched(events, c) || Readable(s) ==> Readable(r))
            && (!Touched(events, c) && !Readable(s) ==> r == s)
            && r.corrupt == if Touched(events, c) && s.config.Some? && !Readable(s) then Read(s) else s.corrupt
    decreases |events|
  {
    hide Readable, Read, Touched, TouchedBy, Installs, StepsClean, CleanOn, AppliedAll, Swept;
    NothingTouched(c);
    if events != [] {
      var init, last := events[..|events| - 1], events[|events| - 1];
      TouchedLast(events, c);
      LastInstall(events);
      CleanLast(events, c);
      TouchedByIs(last, c);
      CorruptAfter(s, c, init);
      SweepReadable(Run(s, c, init), c);
      StepsCorrupt(Swept(Run(s, c, init), c), c, last.steps);
    }
  }

  /** Every config but ~/.claude.json is restored from its backup. */
  lemma OneIsNotRestored(c: Client, before: string, backup: string)
    ensures Next(Slot(Some(before), Some(backup), None), c, Restore) ==
            if c == ClaudeJson then Slot(Some(before), Some(backup), None) else Slot(Some(backup), None, None)
  {
  }
}
