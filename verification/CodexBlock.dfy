/** The fenced piLoci block in Codex's config.toml: installing it, replacing it, taking it out again. */
module CodexBlock {
  import opened Text
  import opened LegacyToml
  import opened TomlHeaders

  const BEGIN := "# >>> piloci managed >>>"
  const END := "# <<< piloci managed <<<"

  /** What \n* takes before the marker: the line feeds at the end of t are dropped. */
  function TrimNewlines(t: string): (r: string)
    ensures |r| <= |t| && r == t[..|r|] && (r != "" ==> r[|r| - 1] != '\n')
    ensures forall k | |r| <= k < |t| :: t[k] == '\n'
  {
    if t != "" && t[|t| - 1] == '\n' then TrimNewlines(t[..|t| - 1]) else t
  }

  /** What \n? takes after the end marker. */
  function DropNewline(t: string): (r: string)
    ensures |r| <= |t| && (t == r || t == "\n" + r)
  {
    if t != "" && t[0] == '\n' then t[1..] else t
  }

  /** _CODEX_BLOCK_RE.sub("\n", t): each block, up to its first end marker, becomes one line feed. */
  function StripBlocks(t: string): string
    decreases |t|
  {
    match Find(t, BEGIN)
    case None => t
    case Some(b) => StripFrom(t[..b], t[b + |BEGIN|..], t)
  }

  /** The same when a begin marker stands between before and after. */
  function StripFrom(before: string, after: string, t: string): string
    requires |after| < |t|
    decreases |t|, 0
  {
    match Find(after, END)
    case None => t
    case Some(e) => TrimNewlines(before) + "\n" + StripBlocks(DropNewline(after[e + |END|..]))
  }

  /** The user's part of the file: no block, no legacy table, no white space at the end. */
  function Cleaned(raw: string): string { RStrip(WithoutLegacy(StripBlocks(raw))) }

  /** The block with the given lines between its markers, as install_codex_mcp appends it. */
  function Block(body: string): string { "\n" + BEGIN + "\n" + body + END + "\n" }

  /** str.lstrip("\n") of a block. */
  function BlockAlone(body: string): string { BEGIN + "\n" + body + END + "\n" }

  /** The text install_codex_mcp writes over raw. */
  function Installed(raw: string, body: string): string {
    var s := Cleaned(raw);
    if s != "" then s + Block(body) else BlockAlone(body)
  }

  /** The text run_uninstall leaves where it found raw. */
  function Uninstalled(raw: string): string {
    var s := Cleaned(raw);
    if s != RStrip(raw) then if s != "" then s + "\n" else "" else raw
  }

  // ---- markers in concatenations -------------------------------------------------------------------------

  /** p cannot occur across the border of a and b when only its first character can be b's first. */
  lemma NotAcross(a: string, b: string, p: string, i: nat)
    requires i < |a| && b != "" && forall j | 0 < j < |p| :: p[j] != b[0]
    ensures OccursAt(a + b, p, i) == OccursAt(a, p, i)
  {
    if i + |p| <= |a| {
      OccursLeft(a, b, p, i);
    } else {
      assert i + |p| <= |a + b| ==> (a + b)[i..i + |p|][|a| - i] == b[0];
    }
  }

  lemma OccursSplit(a: string, b: string, p: string)
    requires !Contains(a, p) && b != "" && forall j | 0 < j < |p| :: p[j] != b[0]
    ensures forall i: nat :: OccursAt(a + b, p, i) <==> i >= |a| && OccursAt(b, p, i - |a|)
  {
    forall i: nat ensures OccursAt(a + b, p, i) <==> i >= |a| && OccursAt(b, p, i - |a|) {
      if i < |a| { NotAcross(a, b, p, i); } else { OccursShift(a, b, p, i - |a|); }
    }
  }

  /** A marker that a lacks and that cannot lie across the border is found in b. */
  lemma FindInTail(a: string, b: string, p: string)
    requires !Contains(a, p) && b != "" && forall j | 0 < j < |p| :: p[j] != b[0]
    ensures match Find(b, p)
            case Some(i) => Find(a + b, p) == Some(|a| + i)
            case None => Find(a + b, p) == None
  {
    hide OccursAt, Find;
    OccursSplit(a, b, p);
    match Find(b, p)
    case Some(i) =>
      assert OccursAt(a + b, p, |a| + i);
      FindIsFirst(a + b, p, |a| + i);
    case None =>
      assert !Contains(a + b, p);
      NotFound(a + b, p);
  }

  lemma NotFound(t: string, p: string)
    requires !Contains(t, p)
    ensures Find(t, p) == None
  {
  }

  lemma MarkersHaveNoNewline()
    ensures forall j | 0 <= j < |BEGIN| :: BEGIN[j] != '\n'
    ensures forall j | 0 <= j < |END| :: END[j] != '\n'
  {
  }

  lemma MarkersHaveOneHash()
    ensures END[0] == '#' && forall j | 0 < j < |END| :: END[j] != '#'
    ensures BEGIN[0] == '#' && forall j | 0 < j < |BEGIN| :: BEGIN[j] != '#'
    ensures |END| == 24 && |BEGIN| == 24
  {
  }

  lemma FindAtStart(p: string, k: string)
    ensures Find(p + k, p) == Some(0)
  {
    assert OccursAt(p + k, p, 0);
    FindIsFirst(p + k, p, 0);
  }

  /** The end marker found in a block is the one the installer wrote. */
  lemma FindEnd(body: string)
    requires !Contains(body, END)
    ensures Find("\n" + body + END + "\n", END) == Some(1 + |body|)
  {
    hide Contains, Find, END;
    var a := "\n" + body;
    NoEndBeforeBody(body);
    MarkersHaveOneHash();
    var b := END + "\n";
    assert b[0] == '#';
    FindAtStart(END, "\n");
    FindInTail(a, b, END);
    assert a + b == "\n" + body + END + "\n";
  }

  lemma NoEndBeforeBody(body: string)
    requires !Contains(body, END)
    ensures !Contains("\n" + body, END)
  {
    hide END;
    MarkersHaveNoNewline();
    MarkersHaveOneHash();
    forall i: nat ensures !OccursAt("\n" + body, END, i) {
      if i == 0 {
        assert |END| <= 1 + |body| ==> ("\n" + body)[0..|END|][0] == '\n';
      } else {
        OccursShift("\n", body, END, i - 1);
      }
    }
  }

  // ---- installing over an installation ---------------------------------------------------------------------

  lemma TrimNothing(s: string)
    requires s == "" || !IsSpace(s[|s| - 1])
    ensures TrimNewlines(s + "\n") == s && TrimNewlines(s) == s
  {
    hide IsSpace;
    assert (s + "\n")[..|s|] == s;
    assert s == "" || s[|s| - 1] != '\n' by { LineFeedIsSpace(); }
  }

  lemma LineFeedIsSpace()
    ensures IsSpace('\n')
  {
  }

  lemma StripBlocksStep(t: string, b: nat, e: nat)
    requires Find(t, BEGIN) == Some(b) && b + |BEGIN| <= |t|
    requires Find(t[b + |BEGIN|..], END) == Some(e) && e + |END| <= |t| - b - |BEGIN|
    ensures StripBlocks(t) == TrimNewlines(t[..b]) + "\n" + StripBlocks(DropNewline(t[b + |BEGIN|..][e + |END|..]))
  {
    hide Find, TrimNewlines, DropNewline, BEGIN, END;
  }

  lemma StripNothing(t: string)
    requires !Contains(t, BEGIN)
    ensures StripBlocks(t) == t
  {
  }

  lemma EmptyHasNoMarker()
    ensures StripBlocks("") == ""
  {
    MarkersHaveOneHash();
    assert forall i: nat :: !OccursAt("", BEGIN, i);
  }

  lemma BlockFound(p: string, tail: string)
    requires !Contains(p, BEGIN)
    ensures Find(p + (BEGIN + tail), BEGIN) == Some(|p|)
  {
    hide Contains, Find, BEGIN;
    MarkersHaveOneHash();
    FindAtStart(BEGIN, tail);
    FindInTail(p, BEGIN + tail, BEGIN);
  }

  /** Any text p without begin marker, then a block: the block goes, p stays up to its last line feeds. */
  lemma StripAppendedBlock(p: string, body: string)
    requires !Contains(p, BEGIN) && !Contains(body, END)
    ensures StripBlocks(p + BlockAlone(body)) == TrimNewlines(p) + "\n"
  {
    hide Contains, Find, BEGIN, END, StripBlocks, TrimNewlines;
    MarkersHaveOneHash();
    var tail := "\n" + body + END + "\n";
    var t := p + (BEGIN + tail);
    assert p + BlockAlone(body) == t;
    BlockFound(p, tail);
    FindEnd(body);
    assert t[..|p|] == p && t[|p| + |BEGIN|..] == tail;
    StripBlocksStep(t, |p|, 1 + |body|);
    assert tail[1 + |body| + |END|..] == "\n";
    EmptyHasNoMarker();
    assert TrimNewlines(p) + "\n" + "" == TrimNewlines(p) + "\n";
  }

  lemma NoMarkerWithNewline(s: string)
    requires !Contains(s, BEGIN)
    ensures !Contains(s + "\n", BEGIN)
  {
    hide BEGIN;
    MarkersHaveOneHash();
    MarkersHaveNoNewline();
    assert forall i: nat :: !OccursAt("\n", BEGIN, i);
    OccursSplit(s, "\n", BEGIN);
  }

  /** Cleaning what an installation wrote gives the user's part it was written around. */
  lemma CleanedInstalled(raw: string, body: string)
    requires !Contains(Cleaned(raw), BEGIN) && !Contains(body, END)
    ensures Cleaned(Installed(raw, body)) == Cleaned(raw)
  {
    hide Contains, BEGIN, END, StripBlocks, WithoutLegacy, RStrip, TrimNewlines;
    var s := Cleaned(raw);
    CleanedEnd(raw);
    if s == "" {
      StripAppendedBlock("", body);
      assert "" + BlockAlone(body) == BlockAlone(body);
      TrimNothing("");
    } else {
      NoMarkerWithNewline(s);
      StripAppendedBlock(s + "\n", body);
      assert s + "\n" + BlockAlone(body) == s + Block(body);
      TrimNothing(s);
    }
    assert StripBlocks(Installed(raw, body)) == s + "\n";
    CleanedKeepsClean(raw);
  }

  lemma CleanedEnd(raw: string)
    ensures Cleaned(raw) == "" || !IsSpace(Cleaned(raw)[|Cleaned(raw)| - 1])
  {
    hide StripBlocks, WithoutLegacy;
  }

  /** With its line feed back, the user's part has nothing more for the filter or the stripping to take. */
  lemma CleanedKeepsClean(raw: string)
    ensures RStrip(WithoutLegacy(Cleaned(raw) + "\n")) == Cleaned(raw)
  {
    hide StripBlocks, WithoutLegacy, SplitLines, NoPiloci, KindOf;
    var x := WithoutLegacy(StripBlocks(raw));
    var s := RStrip(x);
    FilteredLines(StripBlocks(raw));
    if s == "" {
      BlankLine();
    } else {
      assert x == s + x[|s|..];
      StrippedEnd(s, x[|s|..]);
    }
    FilterIdentity(s + "\n");
    RStripOf(s, "\n");
  }

  lemma BlankLine()
    ensures NoPiloci(SplitLines("" + "\n"), KindOf)
  {
    BlankIsPlain();
    assert "" + "\n" == "\n" && "\n"[..1] == "\n" && "\n"[1..] == "";
    assert SplitLines("\n") == ["\n"];
  }

  /** The user's part comes first, whole, and the fenced lines behind it. */
  lemma InstalledText(raw: string, body: string)
    ensures Installed(raw, body) ==
            (if Cleaned(raw) == "" then "" else Cleaned(raw) + "\n") + BEGIN + "\n" + body + END + "\n"
  {
    hide Cleaned, BEGIN, END;
    var u := Cleaned(raw);
    assert u + ("\n" + BEGIN + "\n" + body + END + "\n") == u + "\n" + BEGIN + "\n" + body + END + "\n";
    assert "" + BEGIN == BEGIN;
  }

  // ---- install histories -------------------------------------------------------------------------------------

  /** Installing with one token and then with another is installing with the other on the original file. */
  lemma Reinstalled(raw: string, first: string, second: string)
    requires !Contains(Cleaned(raw), BEGIN) && !Contains(first, END)
    ensures Installed(Installed(raw, first), second) == Installed(raw, second)
  {
    CleanedInstalled(raw, first);
  }

  /** The file after the installations in the given order. */
  function AfterInstalls(raw: string, bodies: seq<string>): string
    decreases |bodies|
  {
    if bodies == [] then raw else Installed(AfterInstalls(raw, bodies[..|bodies| - 1]), bodies[|bodies| - 1])
  }

  lemma {:induction false} HistoryCleaned(raw: string, bodies: seq<string>)
    requires !Contains(Cleaned(raw), BEGIN) && forall i | 0 <= i < |bodies| :: !Contains(bodies[i], END)
    ensures Cleaned(AfterInstalls(raw, bodies)) == Cleaned(raw)
    decreases |bodies|
  {
    hide Cleaned, Installed, Contains;
    if bodies != [] {
      HistoryCleaned(raw, bodies[..|bodies| - 1]);
      CleanedInstalled(AfterInstalls(raw, bodies[..|bodies| - 1]), bodies[|bodies| - 1]);
    }
  }

  /** After any installations the file is what the last of them alone would have made of the original. */
  lemma HistoryIsLastInstall(raw: string, bodies: seq<string>)
    requires bodies != []
    requires !Contains(Cleaned(raw), BEGIN) && forall i | 0 <= i < |bodies| :: !Contains(bodies[i], END)
    ensures AfterInstalls(raw, bodies) == Installed(raw, bodies[|bodies| - 1])
  {
    hide Cleaned, Contains;
    HistoryCleaned(raw, bodies[..|bodies| - 1]);
  }

  lemma InstalledEnds(raw: string, body: string)
    ensures RStrip(Installed(raw, body)) != Cleaned(raw)
  {
    hide Cleaned, BEGIN, END;
    MarkersHaveOneHash();
    var s := Cleaned(raw);
    var t := Installed(raw, body);
    EndIsBare();
    var p := (if s != "" then s + "\n" else "") + BEGIN + "\n" + body + END;
    assert t == p + "\n";
    RStripOf(p, "\n");
    assert |p| > |s|;
  }

  lemma EndIsBare()
    ensures !IsSpace(END[|END| - 1])
  {
  }

  /** Taking piLoci out after any installations leaves the user's text and one line feed. */
  lemma HistoryUninstalled(raw: string, bodies: seq<string>)
    requires bodies != []
    requires !Contains(Cleaned(raw), BEGIN) && forall i | 0 <= i < |bodies| :: !Contains(bodies[i], END)
    ensures Uninstalled(AfterInstalls(raw, bodies)) == if Cleaned(raw) == "" then "" else Cleaned(raw) + "\n"
  {
    hide Cleaned, Contains, Installed, RStrip;
    HistoryCleaned(raw, bodies);
    HistoryIsLastInstall(raw, bodies);
    InstalledEnds(raw, bodies[|bodies| - 1]);
  }

  /** A file with no marker and no piLoci table has only its trailing white space to lose. */
  lemma UntouchedFile(raw: string)
    requires !Contains(raw, BEGIN) && NoPiloci(SplitLines(raw), KindOf)
    ensures Cleaned(raw) == RStrip(raw) && Uninstalled(raw) == raw
  {
    hide BEGIN, RStrip, SplitLines, KindOf;
    StripNothing(raw);
    FilterIdentity(raw);
  }
}
