/** Codex's config.toml over whole runs of installation steps. */
module CodexRuns {
  import opened Text
  import opened LegacyToml
  import opened CodexBlock
  import opened CodexHistory
  import opened ParseFacts
  import opened ConfigFiles
  import opened InstallRuns

  // ---- no step introduces a carriage return -----------------------------------------------------------------------

  lemma {:induction false} StripReturns(t: string)
    requires '\r' !in t
    ensures '\r' !in StripBlocks(t)
    decreases |t|
  {
    hide BEGIN, END, StripBlocks;
    MarkersHaveOneHash();
    if !Contains(t, BEGIN) {
      StripNothing(t);
    } else {
      var b := Found(t, BEGIN);
      var after := t[b + 24..];
      if !Contains(after, END) {
        NoEndNothing(t, b);
      } else {
        var e := Found(after, END);
        StripBlocksStep(t, b, e);
        var rest := DropNewline(after[e + 24..]);
        assert forall c | c in rest :: c in t;
        StripReturns(rest);
      }
    }
  }

  lemma Found(t: string, p: string) returns (i: nat)
    requires Contains(t, p)
    ensures Find(t, p) == Some(i) && i + |p| <= |t|
  {
    i := Find(t, p).value;
    assert OccursAt(t, p, i);
  }

  lemma NoEndNothing(t: string, b: nat)
    requires Find(t, BEGIN) == Some(b) && b + |BEGIN| <= |t| && !Contains(t[b + |BEGIN|..], END)
    ensures StripBlocks(t) == t
  {
    hide BEGIN, END, Find;
    NotFound(t[b + |BEGIN|..], END);
  }

  lemma {:induction false} KeptReturns(lines: seq<string>, inside: bool, kind: string -> Kind)
    requires '\r' !in Join(lines)
    ensures '\r' !in Join(Kept(lines, inside, kind))
  {
    if lines != [] {
      var now := Inside(inside, kind(lines[0]));
      KeptReturns(lines[1..], now, kind);
      JoinCons(lines[0], Kept(lines[1..], now, kind));
      assert [] + Kept(lines[1..], now, kind) == Kept(lines[1..], now, kind);
    }
  }

  lemma CleanedReturns(raw: string)
    requires '\r' !in raw
    ensures '\r' !in Cleaned(raw)
  {
    hide StripBlocks, RStrip, SplitLines;
    StripReturns(raw);
    SplitProper(StripBlocks(raw));
    KeptReturns(SplitLines(StripBlocks(raw)), false, KindOf);
  }

  lemma MarkersHaveNoReturn()
    ensures '\r' !in BEGIN && '\r' !in END
  {
  }

  lemma InstalledReturns(raw: string, body: string)
    requires '\r' !in raw && '\r' !in body
    ensures '\r' !in Installed(raw, body)
  {
    hide BEGIN, END, Cleaned;
    MarkersHaveNoReturn();
    CleanedReturns(raw);
  }

  // ---- a run is an install history -------------------------------------------------------------------------------------

  /** The blocks the steps of one installation write, in order; the steps on other clients are left out. */
  function StepBodies(steps: seq<Step>): seq<string> {
    if steps == [] then []
    else
      var init := StepBodies(steps[..|steps| - 1]);
      match steps[|steps| - 1] case AddCodex(body) => init + [body] case _ => init
  }

  /** The blocks a history of installations writes. */
  function Bodies(events: seq<Event>): seq<string> {
    if events == [] then []
    else
      var init := Bodies(events[..|events| - 1]);
      match events[|events| - 1] case Install(steps) => init + StepBodies(steps) case _ => init
  }

  ghost predicate Fair(bodies: seq<string>) { forall i | 0 <= i < |bodies| :: '\r' !in bodies[i] }

  predicate StepsValid(events: seq<Event>) {
    forall i | 0 <= i < |events| && events[i].Install? :: AllValid(events[i].steps)
  }

  predicate AllValid(steps: seq<Step>) { forall i | 0 <= i < |steps| :: steps[i].Valid() }

  /** The text an installation starts from. */
  function Start(s: Slot): string { match Read(s) case Some(t) => t case None => "" }

  lemma {:induction false} HistoryReturns(raw: string, bodies: seq<string>)
    requires '\r' !in raw && Fair(bodies)
    ensures '\r' !in AfterInstalls(raw, bodies)
    decreases |bodies|
  {
    hide Installed;
    if bodies != [] {
      HistoryReturns(raw, bodies[..|bodies| - 1]);
      InstalledReturns(AfterInstalls(raw, bodies[..|bodies| - 1]), bodies[|bodies| - 1]);
    }
  }

  lemma StartReturns(s: Slot)
    ensures '\r' !in Start(s)
  {
    hide ReadText;
    if s.config.Some? { ReadTextHasNoReturns(s.config.value); }
  }

  lemma {:induction false} AfterMore(raw: string, a: seq<string>, b: seq<string>)
    ensures AfterInstalls(raw, a + b) == AfterInstalls(AfterInstalls(raw, a), b)
    decreases |b|
  {
    hide Installed;
    if b == [] {
      assert a + b == a;
    } else {
      AfterMore(raw, a, b[..|b| - 1]);
      assert (a + b)[..|a + b| - 1] == a + b[..|b| - 1];
    }
  }

  lemma CodexStep(s: Slot, step: Step)
    requires step.Valid() && step.Target() == Codex
    ensures step.AddCodex? && Applied(s, step).config == Some(Installed(Start(s), step.body))
  {
    hide Installed, ReadText;
  }

  lemma WrittenStart(s: Slot, t: string)
    requires s.config == Some(t) && '\r' !in t
    ensures Start(s) == t
  {
    hide ReadText;
    ReadTextSame(t);
  }

  /** The steps of one installation. */
  lemma {:induction false} StepsAreHistory(s: Slot, steps: seq<Step>)
    requires AllValid(steps) && Fair(StepBodies(steps))
    ensures var bodies := StepBodies(steps);
            var after := AppliedAll(s, Codex, steps);
            && after.config == (if bodies == [] then s.config else Some(AfterInstalls(Start(s), bodies)))
            && Start(after) == AfterInstalls(Start(s), bodies)
    decreases |steps|
  {
    hide Applied, Installed, Start, AfterInstalls, Fair;
    NoHistory(Start(s));
    if steps != [] {
      var init, last := steps[..|steps| - 1], steps[|steps| - 1];
      FairParts(StepBodies(init), if last.AddCodex? then [last.body] else []);
      assert StepBodies(init) + [] == StepBodies(init);
      StepsAreHistory(s, init);
      var before := AppliedAll(s, Codex, init);
      if last.Target() == Codex {
        CodexStep(before, last);
        AfterMore(Start(s), StepBodies(init), [last.body]);
        OneInstalled(Start(before), last.body);
        StartReturns(s);
        HistoryReturns(Start(s), StepBodies(steps));
        WrittenStart(Applied(before, last), AfterInstalls(Start(s), StepBodies(steps)));
      }
    }
  }

  lemma FairParts(a: seq<string>, b: seq<string>)
    requires Fair(a + b)
    ensures Fair(a) && Fair(b)
  {
    assert forall i | 0 <= i < |a| :: (a + b)[i] == a[i];
    assert forall i | 0 <= i < |b| :: (a + b)[|a| + i] == b[i];
  }

  lemma OneInstalled(raw: string, body: string)
    ensures AfterInstalls(raw, [body]) == Installed(raw, body)
  {
    hide Installed;
    assert [body][..0] == [];
  }

  lemma NoHistory(raw: string)
    ensures AfterInstalls(raw, []) == raw && StepBodies([]) == []
  {
  }

  /** What any installations make of the Codex config: the history of the blocks they write. */
  lemma {:induction false} RunIsHistory(s: Slot, events: seq<Event>)
    requires Installs(events) && StepsValid(events) && Fair(Bodies(events))
    ensures var bodies := Bodies(events);
            var after := Run(s, Codex, events);
            && after.config == (if bodies == [] then s.config else Some(AfterInstalls(Start(s), bodies)))
            && Start(after) == AfterInstalls(Start(s), bodies)
    decreases |events|
  {
    hide AppliedAll, Start, AfterInstalls, Fair, Installs, StepBodies, AllValid;
    NoHistory(Start(s));
    if events != [] {
      var init, last := events[..|events| - 1], events[|events| - 1];
      LastInstall(events);
      TouchedLast(events, Codex);
      FairParts(Bodies(init), StepBodies(last.steps));
      RunIsHistory(s, init);
      StepsAreHistory(Run(s, Codex, init), last.steps);
      AfterMore(Start(s), Bodies(init), StepBodies(last.steps));
      NoHistory(Start(Run(s, Codex, init)));
      if StepBodies(last.steps) == [] { assert Bodies(init) + [] == Bodies(init); }
    }
  }

  /**
   Any installations that write Codex's block, then run_uninstall without restore: what is left is the user's part of
   the file with one line feed at the end, if and only if that part holds no begin marker. It holds none if every
   begin marker of the file had its end marker.
   */
  lemma CodexUninstalled(s: Slot, events: seq<Event>)
    requires Installs(events) && StepsValid(events) && Fair(Bodies(events)) && Bodies(events) != []
    requires forall i | 0 <= i < |Bodies(events)| :: !Contains(Bodies(events)[i], END)
    ensures var user := Cleaned(Start(s));
            Next(Run(s, Codex, events), Codex, Uninstall(false)).config == Some(WithNewline(user)) <==> !Contains(user, BEGIN)
    ensures !Unterminated(Start(s)) ==> !Contains(Cleaned(Start(s)), BEGIN)
  {
    hide Run, Bodies, AfterInstalls, Cleaned, ReadText, Contains, RStrip, Start, Installs, StepsValid, Unterminated;
    var raw := Start(s);
    RunIsHistory(s, events);
    StartReturns(s);
    HistoryReturns(raw, Bodies(events));
    ReadTextSame(AfterInstalls(raw, Bodies(events)));
    UninstalledIff(raw, Bodies(events));
    if !Unterminated(raw) { BalancedIsSafe(raw); }
  }
}
