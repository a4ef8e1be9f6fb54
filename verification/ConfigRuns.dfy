/** What a JSON config holds after any installations, and when the last of them has the last word. */
module ConfigRuns {
  import opened Text
  import opened Json
  import opened JsonText
  import opened Jsonc
  import opened JsoncRoundTrip
  import opened ParseFacts
  import opened Configs
  import opened ConfigFiles
  import opened SoundObjects
  import opened Rereads
  import opened Edits
  import opened InstallRuns

  /** The object without piLoci's parts. */
  function WithoutParts(c: Client, obj: seq<Member>): seq<Member>
    requires !c.Codex?
  {
    match Removed(c, obj)
    case Some(x) => x
    case None => obj
  }

  /** The object an installation finds. */
  function FoundObject(c: Client, obj: seq<Member>): seq<Member>
    requires !c.Codex?
  {
    if IsSwept(c) then WithoutParts(c, obj) else obj
  }

  /** The last of the steps that is on c. */
  function LastOn(steps: seq<Step>, c: Client): (r: Step)
    requires Touches(steps, c)
    ensures r in steps && r.Target() == c
    decreases |steps|
  {
    TouchesLast(steps, c);
    if steps[|steps| - 1].Target() == c then steps[|steps| - 1] else LastOn(steps[..|steps| - 1], c)
  }

  /** What is made of an object by the sweep and the last step of each installation that has one on c. */
  function ObjectAfter(c: Client, obj: seq<Member>, events: seq<Event>): seq<Member>
    requires !c.Codex?
    decreases |events|
  {
    if events == [] then obj
    else
      var found := FoundObject(c, ObjectAfter(c, obj, events[..|events| - 1]));
      var e := events[|events| - 1];
      if TouchedBy(e, c) then Edited(LastOn(e.steps, c), found) else found
  }

  ghost predicate CleanOn(steps: seq<Step>, c: Client) {
    forall i | 0 <= i < |steps| && steps[i].Target() == c :: StepClean(steps[i])
  }

  /** Every step on c writes an entry that survives being printed. */
  ghost predicate StepsClean(events: seq<Event>, c: Client) {
    forall i | 0 <= i < |events| :: events[i].Install? ==> CleanOn(events[i].steps, c)
  }

  lemma CleanLast(events: seq<Event>, c: Client)
    requires StepsClean(events, c) && events != []
    ensures StepsClean(events[..|events| - 1], c)
    ensures events[|events| - 1].Install? ==> CleanOn(events[|events| - 1].steps, c)
  {
  }

  lemma LastOnClean(steps: seq<Step>, c: Client)
    requires Touches(steps, c) && CleanOn(steps, c)
    ensures StepClean(LastOn(steps, c)) && LastOn(steps, c).Target() == c
  {
    hide LastOn, StepClean;
    var last := LastOn(steps, c);
    var i :| 0 <= i < |steps| && steps[i] == last;
  }

  // ---- objects that survive being printed ----------------------------------------------------------------------------

  lemma WrittenSound(ms: seq<Member>)
    requires SoundObject(ms, true)
    ensures Existing(Some(ReadText(Print(JObject(ms), Pretty)))) == ms
  {
    hide ReadText, ParseJsonc, Print, WellFormed, Clean;
    WrittenParses(ms);
    RereadSound(ms);
  }

  /** The steps of one installation leave what the last of them alone would have left. */
  lemma {:induction false} StepsAreLast(s: Slot, c: Client, steps: seq<Step>, obj: seq<Member>)
    requires !c.Codex? && Touches(steps, c) && CleanOn(steps, c)
    requires Existing(Read(s)) == obj && SoundObject(obj, true)
    ensures AppliedAll(s, c, steps).config == Some(Print(JObject(Edited(LastOn(steps, c), obj)), Pretty))
    decreases |steps|
  {
    hide Touches, Edited, SoundObject, Print, Existing, StepClean, ReadText, Snapshot;
    NothingTouched(c);
    var init, last := steps[..|steps| - 1], steps[|steps| - 1];
    TouchesLast(steps, c);
    StepsBackUp(s, c, init);
    if Touches(init, c) {
      StepsAreLast(s, c, init, obj);
      LastOnClean(init, c);
      LastOnClean(steps, c);
      var prev := LastOn(init, c);
      SoundEdited(prev, obj, true);
      WrittenSound(Edited(prev, obj));
      if last.Target() == c {
        StepsValid(prev, last);
        EditedTwice(prev, last, obj);
      }
    } else {
      NotCodexText(last);
    }
  }

  lemma NotCodexText(step: Step)
    ensures !step.AddCodex? ==> forall raw :: NewText(step, raw) == Print(JObject(Edited(step, Existing(raw))), Pretty)
  {
    hide Print, Edited, Existing;
  }

  lemma StepsValid(first: Step, second: Step)
    requires StepClean(first) && StepClean(second)
    ensures first.Valid() && second.Valid()
  {
  }

  /** The sweep on a sound object: rewritten without the parts, or left alone. */
  lemma SweptObject(s: Slot, c: Client)
    requires !c.Codex? && SoundObject(Existing(Read(s)), true)
    ensures var obj := Existing(Read(s));
            && Existing(Read(Swept(s, c))) == FoundObject(c, obj) && SoundObject(FoundObject(c, obj), true)
            && (Swept(s, c).config == s.config || Swept(s, c).config == Some(Print(JObject(FoundObject(c, obj)), Pretty)))
  {
    hide ReadText, ParseJsonc, Print, Removed, WellFormed, Clean, SoundObject;
    var obj := Existing(Read(s));
    NothingThere(c);
    if IsSwept(c) && s.config.Some? {
      match ParseJsonc(ReadText(s.config.value))
      case Some(JObject(ms)) =>
        if Removed(c, ms).Some? {
          SoundRemoved(c, ms, true);
          var x := Removed(c, ms).value;
          WrittenSound(x);
        }
      case _ =>
    }
  }

  lemma NothingThere(c: Client)
    requires !c.Codex?
    ensures Removed(c, []) == None
  {
  }

  /** The object in the config after any installations; and the config's text, once some installation touched it. */
  lemma {:induction false} HistoryText(s: Slot, c: Client, events: seq<Event>)
    requires !c.Codex? && Installs(events) && StepsClean(events, c) && SoundObject(Existing(Read(s)), true)
    ensures var after := ObjectAfter(c, Existing(Read(s)), events);
            && Existing(Read(Run(s, c, events))) == after && SoundObject(after, true)
            && (Touched(events, c) ==> Run(s, c, events).config == Some(Print(JObject(after), Pretty)))
    decreases |events|
  {
    hide Touches, Touched, TouchedBy, Installs, Edited, SoundObject, Print, Existing, ReadText, AppliedAll, Swept, FoundObject, LastOn, StepsClean, CleanOn;
    NothingTouched(c);
    if events != [] {
      var init, last := events[..|events| - 1], events[|events| - 1];
      TouchedLast(events, c);
      LastInstall(events);
      CleanLast(events, c);
      TouchedByIs(last, c);
      HistoryText(s, c, init);
      var before := Run(s, c, init);
      SweptObject(before, c);
      var swept := Swept(before, c);
      StepsBackUp(swept, c, last.steps);
      var found := FoundObject(c, ObjectAfter(c, Existing(Read(s)), init));
      if TouchedBy(last, c) {
        StepsAreLast(swept, c, last.steps, found);
        LastOnClean(last.steps, c);
        SoundEdited(LastOn(last.steps, c), found, true);
        WrittenSound(Edited(LastOn(last.steps, c), found));
      } else if Touched(init, c) {
        SameText(before, swept, c);
      }
    }
  }

  lemma SameText(before: Slot, swept: Slot, c: Client)
    requires !c.Codex? && swept == Swept(before, c) && SoundObject(Existing(Read(before)), true)
    requires before.config == Some(Print(JObject(Existing(Read(before))), Pretty))
    ensures swept.config == Some(Print(JObject(FoundObject(c, Existing(Read(before)))), Pretty))
  {
    hide ReadText, ParseJsonc, Print, Removed, WellFormed, Clean, Existing;
    var obj := Existing(Read(before));
    WrittenParses(obj);
    RereadSound(obj);
  }

  // ---- who has the last word -------------------------------------------------------------------------------------------

  /** The last step on c of the first installation that touches it. */
  function FirstOn(events: seq<Event>, c: Client): (r: Step)
    requires Touched(events, c)
    ensures r.Target() == c
    decreases |events|
  {
    TouchedNotEmpty(events, c);
    TouchedLast(events, c);
    if Touched(events[..|events| - 1], c) then FirstOn(events[..|events| - 1], c)
    else LastOn(events[|events| - 1].steps, c)
  }

  lemma TouchedNotEmpty(events: seq<Event>, c: Client)
    requires Touched(events, c)
    ensures events != []
  {
  }

  /**
   The object a later installation starts from. For a swept client that is the user's object without piLoci's parts;
   from the second installation on it is what removing the first one left, where a dict that was emptied is gone.
   */
  function Start(c: Client, obj: seq<Member>, events: seq<Event>): seq<Member>
    requires !c.Codex?
  {
    if IsSwept(c) && Touched(events, c) then WithoutParts(c, Edited(FirstOn(events, c), WithoutParts(c, obj)))
    else FoundObject(c, obj)
  }

  ghost predicate Fit(c: Client, obj: seq<Member>, events: seq<Event>) {
    !c.Codex? && WellFormed(JObject(obj)) && Installs(events) && StepsClean(events, c)
  }

  lemma FirstOnClean(events: seq<Event>, c: Client)
    requires Touched(events, c) && StepsClean(events, c)
    ensures StepClean(FirstOn(events, c)) && FirstOn(events, c).Target() == c
    decreases |events|
  {
    hide Touched, TouchedBy, StepClean, LastOn, CleanOn, StepsClean;
    TouchedNotEmpty(events, c);
    TouchedLast(events, c);
    CleanLast(events, c);
    if Touched(events[..|events| - 1], c) {
      FirstOnClean(events[..|events| - 1], c);
    } else {
      TouchedIsInstall(events[|events| - 1], c);
      LastOnClean(events[|events| - 1].steps, c);
    }
  }

  lemma TouchedIsInstall(e: Event, c: Client)
    requires TouchedBy(e, c)
    ensures e.Install? && Touches(e.steps, c)
  {
  }

  lemma WithoutPartsFit(c: Client, obj: seq<Member>)
    requires !c.Codex? && WellFormed(JObject(obj))
    ensures WellFormed(JObject(WithoutParts(c, obj))) && Removed(c, WithoutParts(c, obj)) == None
  {
    hide WellFormed, Removed;
    if Removed(c, obj).Some? {
      RemovedWellFormed(c, obj);
      RemovedTwice(c, obj);
    }
  }

  /** What removing an installation leaves: an object on which further installations and removals undo each other. */
  lemma StartUndoable(step: Step, obj: seq<Member>)
    requires StepClean(step) && WellFormed(JObject(obj))
    ensures var c := step.Target();
            var x := WithoutParts(c, Edited(step, obj));
            Undoable(c, x) && WellFormed(JObject(x)) && (x == obj <==> Undoable(c, obj))
  {
    hide WellFormed, Removed, Edited, Undoable, StepClean, Holds;
    var c := step.Target();
    NotCodex(step);
    EditedHolds(step, obj);
    EditedWellFormed(step, obj);
    HeldRemoved(c, Edited(step, obj));
    RemovedWellFormed(c, Edited(step, obj));
    RemovedExactly(step, obj);
  }

  lemma NotCodex(step: Step)
    requires StepClean(step)
    ensures !step.Target().Codex? && !step.AddCodex?
  {
  }

  lemma UndoableStays(step: Step, obj: seq<Member>)
    requires StepClean(step) && WellFormed(JObject(obj)) && Undoable(step.Target(), obj)
    ensures WithoutParts(step.Target(), obj) == obj && WithoutParts(step.Target(), Edited(step, obj)) == obj
  {
    hide WellFormed, Removed, Edited, Undoable, StepClean;
    NotCodex(step);
    UndoableQuiet(step.Target(), obj);
    StartUndoable(step, obj);
  }

  /** While nothing touches c its object is what the first sweep left; the next installation finds the same. */
  lemma {:induction false} FoundIsStart(c: Client, obj: seq<Member>, events: seq<Event>)
    requires Fit(c, obj, events) && IsSwept(c)
    ensures FoundObject(c, ObjectAfter(c, obj, events)) == Start(c, obj, events)
    ensures !Touched(events, c) && events != [] ==> ObjectAfter(c, obj, events) == WithoutParts(c, obj)
    ensures WellFormed(JObject(Start(c, obj, events)))
    ensures Touched(events, c) ==> Undoable(c, Start(c, obj, events))
    decreases |events|
  {
    hide Touches, Touched, TouchedBy, Installs, Edited, WellFormed, LastOn, StepsClean, CleanOn, Undoable, StepClean, Removed, WithoutParts;
    NothingTouched(c);
    WithoutPartsFit(c, obj);
    var base := WithoutParts(c, obj);
    PartsGone(c, base);
    if events != [] {
      var init, last := events[..|events| - 1], events[|events| - 1];
      TouchedLast(events, c);
      LastInstall(events);
      CleanLast(events, c);
      TouchedByIs(last, c);
      FoundIsStart(c, obj, init);
      var start := Start(c, obj, init);
      if TouchedBy(last, c) {
        var step := LastOn(last.steps, c);
        LastOnClean(last.steps, c);
        StartUndoable(step, start);
        if Touched(init, c) {
          FirstSame(events, c);
          UndoableStays(step, start);
        } else {
          FirstIs(events, c);
        }
      } else if Touched(init, c) {
        FirstSame(events, c);
        FirstOnClean(init, c);
        UndoableStays(FirstOn(init, c), start);
      }
    }
  }

  lemma PartsGone(c: Client, obj: seq<Member>)
    requires !c.Codex? && Removed(c, obj) == None
    ensures WithoutParts(c, obj) == obj
  {
  }

  lemma FirstSame(events: seq<Event>, c: Client)
    requires events != [] && Touched(events[..|events| - 1], c)
    ensures Touched(events, c) && FirstOn(events, c) == FirstOn(events[..|events| - 1], c)
  {
    hide Touched, TouchedBy, LastOn;
    TouchedLast(events, c);
  }

  lemma FirstIs(events: seq<Event>, c: Client)
    requires events != [] && !Touched(events[..|events| - 1], c) && TouchedBy(events[|events| - 1], c)
    ensures Touched(events, c) && FirstOn(events, c) == LastOn(events[|events| - 1].steps, c)
  {
    hide Touched, LastOn;
    TouchedLast(events, c);
  }

  /** Without a sweep only the last step counts, and it counts as if it had been alone. */
  lemma {:induction false} UnsweptIsLast(c: Client, obj: seq<Member>, events: seq<Event>, steps: seq<Step>, rest: seq<Event>)
    requires !c.Codex? && !IsSwept(c) && Installs(events + [Install(steps)] + rest)
    requires StepsClean(events + [Install(steps)] + rest, c) && Touches(steps, c) && !Touched(rest, c)
    ensures ObjectAfter(c, obj, events + [Install(steps)] + rest) == Edited(LastOn(steps, c), obj)
    decreases |rest|
  {
    hide Touches, Touched, TouchedBy, Installs, Edited, LastOn, StepsClean, CleanOn, StepClean;
    var all := events + [Install(steps)] + rest;
    var init, last := all[..|all| - 1], all[|all| - 1];
    CleanLast(all, c);
    TouchedLast(all, c);
    if rest == [] {
      assert init == events && last == Install(steps);
      TouchedByIs(last, c);
      LastOnClean(steps, c);
      LaterStepWins(c, obj, events, LastOn(steps, c));
    } else {
      assert init == events + [Install(steps)] + rest[..|rest| - 1] && last == rest[|rest| - 1];
      TouchedLast(rest, c);
      UnsweptIsLast(c, obj, events, steps, rest[..|rest| - 1]);
    }
  }

  lemma {:induction false} LaterStepWins(c: Client, obj: seq<Member>, events: seq<Event>, step: Step)
    requires !c.Codex? && !IsSwept(c) && Installs(events) && StepsClean(events, c) && StepClean(step) && step.Target() == c
    ensures Edited(step, ObjectAfter(c, obj, events)) == Edited(step, obj)
    decreases |events|
  {
    hide Touches, TouchedBy, Installs, Edited, LastOn, StepsClean, CleanOn, StepClean;
    if events != [] {
      var init, last := events[..|events| - 1], events[|events| - 1];
      TouchedLast(events, c);
      LastInstall(events);
      CleanLast(events, c);
      TouchedByIs(last, c);
      LaterStepWins(c, obj, init, step);
      if TouchedBy(last, c) {
        LastOnClean(last.steps, c);
        NotCodex(step);
        NotCodex(LastOn(last.steps, c));
        StepsValid(LastOn(last.steps, c), step);
        EditedTwice(LastOn(last.steps, c), step, ObjectAfter(c, obj, init));
      }
    }
  }

  lemma {:induction false} OnlySwept(c: Client, obj: seq<Member>, events: seq<Event>, rest: seq<Event>)
    requires !c.Codex? && WellFormed(JObject(ObjectAfter(c, obj, events))) && !Touched(rest, c)
    ensures ObjectAfter(c, obj, events + rest) ==
            if rest == [] then ObjectAfter(c, obj, events) else FoundObject(c, ObjectAfter(c, obj, events))
    decreases |rest|
  {
    hide Touched, TouchedBy, Edited, LastOn, WellFormed, Removed, WithoutParts;
    if rest == [] {
      assert events + rest == events;
    } else {
      var all := events + rest;
      assert all[..|all| - 1] == events + rest[..|rest| - 1] && all[|all| - 1] == rest[|rest| - 1];
      TouchedLast(rest, c);
      OnlySwept(c, obj, events, rest[..|rest| - 1]);
      WithoutPartsFit(c, ObjectAfter(c, obj, events));
      PartsGone(c, WithoutParts(c, ObjectAfter(c, obj, events)));
    }
  }

  /**
   The config's object after any installations, in terms of the last that touched it and the ones behind it: what its
   last step makes of the start, and for a swept client without piLoci's parts again as soon as another installation
   followed.
   */
  lemma LastInstallation(c: Client, obj: seq<Member>, events: seq<Event>, steps: seq<Step>, rest: seq<Event>)
    requires Fit(c, obj, events + [Install(steps)] + rest) && Touches(steps, c) && !Touched(rest, c)
    ensures var made := Edited(LastOn(steps, c), Start(c, obj, events));
            ObjectAfter(c, obj, events + [Install(steps)] + rest) ==
            if IsSwept(c) && rest != [] then WithoutParts(c, made) else made
  {
    hide Touches, Touched, TouchedBy, Edited, WellFormed, LastOn, StepsClean, CleanOn, StepClean, Removed, WithoutParts, ObjectAfter;
    var upTo := events + [Install(steps)];
    SplitFit(c, obj, events, steps, rest);
    if IsSwept(c) {
      FoundIsStart(c, obj, events);
      AfterOne(c, obj, events, steps);
      LastOnClean(steps, c);
      EditedWellFormed(LastOn(steps, c), Start(c, obj, events));
      OnlySwept(c, obj, upTo, rest);
    } else {
      UnsweptIsLast(c, obj, events, steps, rest);
    }
  }

  lemma SplitFit(c: Client, obj: seq<Member>, events: seq<Event>, steps: seq<Step>, rest: seq<Event>)
    requires Fit(c, obj, events + [Install(steps)] + rest)
    ensures Fit(c, obj, events) && CleanOn(steps, c)
  {
    hide WellFormed, CleanOn, IsInstall;
    var all := events + [Install(steps)] + rest;
    assert forall i | 0 <= i < |events| :: all[i] == events[i];
    assert all[|events|] == Install(steps);
  }

  lemma AfterOne(c: Client, obj: seq<Member>, events: seq<Event>, steps: seq<Step>)
    requires !c.Codex? && Touches(steps, c)
    ensures ObjectAfter(c, obj, events + [Install(steps)]) == Edited(LastOn(steps, c), FoundObject(c, ObjectAfter(c, obj, events)))
  {
    hide Touches, Edited, LastOn, FoundObject;
    var all := events + [Install(steps)];
    assert all[..|all| - 1] == events && all[|all| - 1] == Install(steps);
    TouchedByIs(Install(steps), c);
  }

  /**
   What a history leaves is the last step's result on the start if and only if the client is not swept or no
   installation without a step on it followed. The start is the original object if the client is not swept or the
   object was undoable; and then the installations that followed on a swept client bring the original back.
   */
  lemma RunIsLastStep(c: Client, obj: seq<Member>, events: seq<Event>, steps: seq<Step>, rest: seq<Event>)
    requires Fit(c, obj, events + [Install(steps)] + rest) && Touches(steps, c) && !Touched(rest, c)
    ensures var after, start := ObjectAfter(c, obj, events + [Install(steps)] + rest), Start(c, obj, events);
            && (after == Edited(LastOn(steps, c), start) <==> !IsSwept(c) || rest == [])
            && (!IsSwept(c) || Undoable(c, obj) ==> start == obj)
            && (IsSwept(c) && Undoable(c, obj) && rest != [] ==> after == obj)
  {
    hide Touches, Touched, Edited, WellFormed, LastOn, StepsClean, CleanOn, StepClean, Removed, ObjectAfter, Undoable, Holds;
    LastInstallation(c, obj, events, steps, rest);
    SplitFit(c, obj, events, steps, rest);
    LastOnClean(steps, c);
    var last := LastOn(steps, c);
    if IsSwept(c) {
      FoundIsStart(c, obj, events);
      PartsTaken(last, Start(c, obj, events));
      if Undoable(c, obj) {
        UndoableStays(last, obj);
        if Touched(events, c) {
          FirstOnClean(events, c);
          UndoableStays(FirstOn(events, c), obj);
        }
      }
    }
  }

  lemma PartsTaken(step: Step, obj: seq<Member>)
    requires StepClean(step) && WellFormed(JObject(obj))
    ensures WithoutParts(step.Target(), Edited(step, obj)) != Edited(step, obj)
  {
    hide WellFormed, StepClean, Removed, Edited, Undoable, Holds;
    var c := step.Target();
    NotCodex(step);
    EditedHolds(step, obj);
    EditedWellFormed(step, obj);
    HeldRemoved(c, Edited(step, obj));
    RemovedTwice(c, Edited(step, obj));
  }
}
