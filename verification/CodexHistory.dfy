/** When the fenced block can be maintained: balanced markers in the file and no end marker in the block. */
module CodexHistory {
  import opened Text
  import opened LegacyToml
  import opened TomlHeaders
  import opened CodexBlock

  // ---- an unterminated begin marker swallows the user's text ----------------------------------------------

  lemma BlockOpenHasNoEnd()
    ensures !Contains(BEGIN, END) && !Contains("\n" + BEGIN, END)
  {
    MarkersHaveOneHash();
    assert BEGIN[2] == '>' && END[2] == '<';
    forall i: nat ensures !OccursAt(BEGIN, END, i) {}
    forall i: nat ensures !OccursAt("\n" + BEGIN, END, i) {
      if i == 1 { assert ("\n" + BEGIN)[1..25] == BEGIN; }
      assert i == 0 ==> ("\n" + BEGIN)[0..24][0] == '\n';
    }
  }

  /** A block with or without the line feed in front of it. */
  function BlockText(alone: bool, body: string): string { if alone then BlockAlone(body) else Block(body) }

  lemma FindEndInBlock(alone: bool, body: string)
    requires !Contains(body, END)
    ensures var t := BlockText(alone, body);
            |t| >= 25 && Find(t, END) == Some(|t| - 25) && t[|t| - 1..] == "\n" && (t[0] == '\n' || t[0] == '#')
  {
    hide Contains, Find, BEGIN, END;
    MarkersHaveOneHash();
    MarkersHaveNoNewline();
    BlockOpenHasNoEnd();
    var open := if alone then BEGIN else "\n" + BEGIN;
    var tail := "\n" + body + END + "\n";
    FindEnd(body);
    FindInTail(open, tail, END);
    assert open + tail == BlockText(alone, body);
  }

  /** The end marker after x, when a block follows x: inside x, or the block's own. */
  lemma EndAfter(x: string, alone: bool, body: string)
    requires !Contains(body, END)
    ensures var t := x + BlockText(alone, body);
            match Find(t, END)
            case Some(e) => e + 24 <= |x| || (e == |t| - 25 && t[|t| - 1..] == "\n")
            case None => false
  {
    hide Find, BEGIN, END, BlockText;
    var k := BlockText(alone, body);
    FindEndInBlock(alone, body);
    MarkersHaveOneHash();
    MarkersHaveNoNewline();
    if Contains(x, END) {
      var i: nat :| OccursAt(x, END, i);
      OccursLeft(x, k, END, i);
    } else {
      FindInTail(x, k, END);
    }
  }

  lemma FirstBegin(x: string, k: string)
    requires Contains(x, BEGIN)
    ensures match Find(x, BEGIN) case Some(b) => b + 24 <= |x| && Find(x + k, BEGIN) == Some(b) case None => false
  {
    hide Find, BEGIN;
    MarkersHaveOneHash();
    var b := Find(x, BEGIN).value;
    OccursLeft(x, k, BEGIN, b);
    forall j: nat | j < b ensures !OccursAt(x + k, BEGIN, j) { OccursLeft(x, k, BEGIN, j); }
    FindIsFirst(x + k, BEGIN, b);
  }

  lemma DropFromBlock(alone: bool, body: string)
    ensures DropNewline(BlockText(alone, body)) == BlockText(true, body)
  {
    hide BEGIN, END;
    if alone {
      MarkersHaveOneHash();
      assert BlockAlone(body)[0] == BEGIN[0];
    } else {
      assert Block(body)[1..] == BlockAlone(body);
    }
  }

  /** Where stripping resumes inside x, the block still to come. */
  lemma ResumeInside(x: string, alone: bool, body: string) returns (y: string, alone': bool)
    ensures |y| <= |x| && DropNewline(x + BlockText(alone, body)) == y + BlockText(alone', body)
  {
    hide BlockText;
    var k := BlockText(alone, body);
    if x == "" {
      y, alone' := "", true;
      DropFromBlock(alone, body);
      assert x + k == k && "" + BlockText(true, body) == BlockText(true, body);
    } else {
      y, alone' := DropNewline(x), alone;
      assert (x + k)[1..] == x[1..] + k;
    }
  }

  lemma TrimSome(p: string)
    requires p != "" && p[|p| - 1] == '\n'
    ensures |TrimNewlines(p)| < |p|
  {
  }

  lemma CleanBeforeBlock(x: string, alone: bool, body: string)
    requires !Contains(x, BEGIN) && !Contains(body, END)
    ensures |StripBlocks(x + BlockText(alone, body))| <= |x| + 1
  {
    hide Contains, BEGIN, END, StripBlocks;
    if alone {
      StripAppendedBlock(x, body);
    } else {
      NoMarkerWithNewline(x);
      StripAppendedBlock(x + "\n", body);
      assert x + "\n" + BlockAlone(body) == x + Block(body);
      TrimSome(x + "\n");
    }
  }

  /** Stripping x with a block behind it takes the block, and more than that if x has a begin marker. */
  lemma {:induction false} StripShrinks(x: string, alone: bool, body: string)
    requires !Contains(body, END)
    ensures |StripBlocks(x + BlockText(alone, body))| <= |x| + 1
    ensures Contains(x, BEGIN) ==> |StripBlocks(x + BlockText(alone, body))| < |x|
    decreases |x|
  {
    hide Contains, Find, BEGIN, END, StripBlocks, BlockText, TrimNewlines, DropNewline;
    MarkersHaveOneHash();
    var k := BlockText(alone, body);
    if !Contains(x, BEGIN) {
      CleanBeforeBlock(x, alone, body);
    } else {
      FirstBegin(x, k);
      var b := Find(x, BEGIN).value;
      var u := x[b + 24..];
      EndAfter(u, alone, body);
      var e := Find(u + k, END).value;
      assert (x + k)[b + 24..] == u + k;
      StripBlocksStep(x + k, b, e);
      if e + 24 <= |u| {
        assert (u + k)[e + 24..] == u[e + 24..] + k;
        var y, alone' := ResumeInside(u[e + 24..], alone, body);
        StripShrinks(y, alone', body);
      } else {
        assert (u + k)[e + 24..] == "\n";
        LastNewline();
      }
    }
  }

  lemma LastNewline()
    ensures StripBlocks(DropNewline("\n")) == ""
  {
    EmptyHasNoMarker();
    assert DropNewline("\n") == "";
  }

  lemma {:induction false} KeptShorter(lines: seq<string>, inside: bool, kind: string -> Kind)
    ensures |Join(Kept(lines, inside, kind))| <= |Join(lines)|
  {
    if lines != [] {
      var now := Inside(inside, kind(lines[0]));
      KeptShorter(lines[1..], now, kind);
      JoinCons(lines[0], Kept(lines[1..], now, kind));
      assert [] + Kept(lines[1..], now, kind) == Kept(lines[1..], now, kind);
    }
  }

  lemma JoinCons(l: string, rest: seq<string>)
    ensures Join([l] + rest) == l + Join(rest)
  {
    assert ([l] + rest)[1..] == rest;
  }

  lemma CleanedShorter(raw: string)
    ensures |Cleaned(raw)| <= |StripBlocks(raw)|
  {
    hide StripBlocks, SplitLines, Kept;
    KeptShorter(SplitLines(StripBlocks(raw)), false, KindOf);
    SplitProper(StripBlocks(raw));
  }

  /**
   Installing twice is installing once exactly when the user's part of the file holds no begin marker. A
   begin marker there has no end marker of its own, and the next installation takes the text behind it.
   */
  lemma InstallTwice(raw: string, body: string)
    requires !Contains(body, END)
    ensures Installed(Installed(raw, body), body) == Installed(raw, body) <==> !Contains(Cleaned(raw), BEGIN)
  {
    hide Contains, Cleaned, BEGIN, END, StripBlocks;
    if !Contains(Cleaned(raw), BEGIN) { Reinstalled(raw, body, body); } else { CleanedShrinks(raw, body); }
  }

  lemma MarkerNotEmpty(s: string)
    requires Contains(s, BEGIN)
    ensures s != ""
  {
    MarkersHaveOneHash();
  }

  /** An installation never adds to the user's part, and takes from it when it holds a begin marker. */
  lemma CleanedShrinks(raw: string, body: string)
    requires !Contains(body, END)
    ensures |Cleaned(Installed(raw, body))| <= |Cleaned(raw)|
    ensures Contains(Cleaned(raw), BEGIN) ==> |Cleaned(Installed(raw, body))| < |Cleaned(raw)|
  {
    hide Contains, Cleaned, BEGIN, END, StripBlocks;
    var s := Cleaned(raw);
    if !Contains(s, BEGIN) {
      CleanedInstalled(raw, body);
    } else {
      MarkerNotEmpty(s);
      StripShrinks(s, false, body);
      CleanedShorter(s + Block(body));
    }
  }

  lemma {:induction false} HistoryShrinks(raw: string, bodies: seq<string>)
    requires forall i | 0 <= i < |bodies| :: !Contains(bodies[i], END)
    ensures |Cleaned(AfterInstalls(raw, bodies))| <= |Cleaned(raw)|
    ensures Contains(Cleaned(raw), BEGIN) && bodies != [] ==> |Cleaned(AfterInstalls(raw, bodies))| < |Cleaned(raw)|
    decreases |bodies|
  {
    hide Contains, Cleaned, Installed, BEGIN;
    if bodies != [] {
      var init := bodies[..|bodies| - 1];
      HistoryShrinks(raw, init);
      CleanedShrinks(AfterInstalls(raw, init), bodies[|bodies| - 1]);
      if init == [] { assert AfterInstalls(raw, init) == raw; }
    }
  }

  /** The user's part as a file of its own. */
  function WithNewline(user: string): string { if user == "" then "" else user + "\n" }

  lemma UninstalledLength(t: string, user: string)
    requires |Cleaned(t)| < |user| && !IsSpace(user[|user| - 1])
    ensures Uninstalled(t) != WithNewline(user)
  {
    hide Cleaned;
    if t == user + "\n" {
      LineFeedIsSpace();
      RStripOf(user, "\n");
    }
  }

  /**
   Taking piLoci out after any installations leaves the user's text and one line feed if and only if the user's part
   held no begin marker; otherwise some of the user's text is gone.
   */
  lemma UninstalledIff(raw: string, bodies: seq<string>)
    requires bodies != [] && forall i | 0 <= i < |bodies| :: !Contains(bodies[i], END)
    ensures Uninstalled(AfterInstalls(raw, bodies)) == WithNewline(Cleaned(raw)) <==> !Contains(Cleaned(raw), BEGIN)
  {
    hide Contains, Cleaned, Uninstalled, BEGIN, END;
    var user := Cleaned(raw);
    if !Contains(user, BEGIN) {
      HistoryUninstalled(raw, bodies);
    } else {
      HistoryShrinks(raw, bodies);
      CleanedEnd(raw);
      UninstalledLength(AfterInstalls(raw, bodies), user);
    }
  }

  // ---- the smallest such file ------------------------------------------------------------------------------

  lemma {:induction false} LineOf(s: string)
    requires NoBreakIn(s)
    ensures LineLength(s + "\n") == |s| + 1 && (s != "" ==> LineLength(s) == |s|)
  {
    if s == "" {
      assert s + "\n" == "\n";
    } else {
      assert NoBreakIn(s[1..]);
      LineOf(s[1..]);
      assert (s + "\n")[1..] == s[1..] + "\n" && (s + "\n")[0] == s[0];
    }
  }

  lemma PlainStart(line: string)
    requires line != "" && !IsSpace(line[0]) && line[0] != '['
    ensures KindOf(line).Plain?
  {
  }

  lemma LoneLines()
    ensures SplitLines(BEGIN + "\n" + "x") == [BEGIN + "\n", "x"]
  {
    hide BEGIN, NoBreakIn, IsSpace, SplitLines;
    MarkersHaveNoBreak();
    MarkersHaveOneHash();
    LineOf(BEGIN);
    XIsALine();
    var lines := [BEGIN + "\n", "x"];
    JoinCons(BEGIN + "\n", ["x"]);
    assert Join(["x"]) == "x";
    SplitOfJoin(lines);
  }

  lemma XIsALine()
    ensures LineLength("x") == 1 && EndsInBreak(BEGIN + "\n") && !IsSpace("x"[0])
  {
    hide BEGIN;
  }

  lemma LoneMarkerStays()
    ensures var raw := BEGIN + "\n" + "x"; Cleaned(raw) == raw && Contains(raw, BEGIN)
  {
    hide BEGIN, END, IsSpace, SplitLines, KindOf, Find;
    var raw := BEGIN + "\n" + "x";
    MarkersHaveOneHash();
    BeginPlain();
    LoneLines();
    PlainStart("x");
    FilterIdentity(raw);
    LoneNotStripped();
    assert raw == "" + raw && OccursAt(raw, BEGIN, 0);
    RStripSame(raw);
  }

  lemma BeginPlain()
    ensures KindOf(BEGIN + "\n").Plain? && !IsSpace("x"[0])
  {
    PlainStart(BEGIN + "\n");
  }

  lemma RStripSame(t: string)
    requires t != "" && !IsSpace(t[|t| - 1])
    ensures RStrip(t) == t
  {
  }

  lemma LoneNotStripped()
    ensures StripBlocks(BEGIN + "\n" + "x") == BEGIN + "\n" + "x"
  {
    hide BEGIN, END, Find;
    MarkersHaveOneHash();
    var k := "\n" + "x";
    FindAtStart(BEGIN, k);
    assert BEGIN + k == BEGIN + "\n" + "x";
    assert (BEGIN + k)[|BEGIN|..] == k;
    assert forall i: nat :: !OccursAt(k, END, i);
    NotFound(k, END);
  }

  /** A begin marker with the line x behind it: the second installation differs, and uninstalling takes text away. */
  lemma LoneMarker(body: string, more: seq<string>)
    requires !Contains(body, END) && more != [] && forall i | 0 <= i < |more| :: !Contains(more[i], END)
    ensures var raw := BEGIN + "\n" + "x";
            && Installed(Installed(raw, body), body) != Installed(raw, body)
            && Uninstalled(AfterInstalls(raw, more)) != raw + "\n"
  {
    hide Contains, Cleaned, Uninstalled, Installed, AfterInstalls, BEGIN, END;
    var raw := BEGIN + "\n" + "x";
    LoneMarkerStays();
    InstallTwice(raw, body);
    UninstalledIff(raw, more);
  }

  // ---- balanced markers ------------------------------------------------------------------------------------

  /** A begin marker with no end marker behind it. */
  ghost predicate Unterminated(t: string) {
    exists i: nat :: OpenAt(t, i)
  }

  ghost predicate OpenAt(t: string, i: nat) {
    OccursAt(t, BEGIN, i) && forall j: nat | i + |BEGIN| <= j :: !OccursAt(t, END, j)
  }

  lemma OpenShift(a: string, b: string, i: nat)
    requires OpenAt(b, i)
    ensures OpenAt(a + b, |a| + i)
  {
    hide OccursAt, BEGIN, END;
    OccursShift(a, b, BEGIN, i);
    forall j: nat | |a| + i + |BEGIN| <= j ensures !OccursAt(a + b, END, j) {
      OccursShift(a, b, END, j - |a|);
    }
  }

  lemma {:induction false} TrimIsPrefix(t: string)
    ensures TrimNewlines(t) <= t
  {
    if t != "" && t[|t| - 1] == '\n' {
      TrimIsPrefix(t[..|t| - 1]);
    }
  }

  lemma ContainsPrefix(a: string, t: string, p: string)
    requires a <= t && Contains(a, p)
    ensures Contains(t, p)
  {
    var i: nat :| OccursAt(a, p, i);
    assert t == a + t[|a|..];
    OccursLeft(a, t[|a|..], p, i);
  }

  lemma FoundFirst(t: string, p: string, b: nat)
    requires Find(t, p) == Some(b)
    ensures forall i: nat | i < b :: !OccursAt(t, p, i)
  {
  }

  lemma NotBeforeFirst(t: string, p: string, b: nat)
    requires Find(t, p) == Some(b) && b <= |t| && p != ""
    ensures !Contains(t[..b], p)
  {
    FoundFirst(t, p, b);
    hide Find;
    assert t == t[..b] + t[b..];
    forall i: nat ensures !OccursAt(t[..b], p, i) {
      if i + |p| <= b { OccursLeft(t[..b], t[b..], p, i); }
    }
  }

  lemma MarkerInTail(p: string, r: string)
    requires !Contains(p, BEGIN) && Contains(p + "\n" + r, BEGIN)
    ensures Contains(r, BEGIN)
  {
    hide BEGIN, OccursAt;
    MarkersHaveNoNewline();
    MarkersHaveOneHash();
    var i: nat :| OccursAt(p + "\n" + r, BEGIN, i);
    assert p + "\n" + r == p + ("\n" + r);
    OccursSplit(p, "\n" + r, BEGIN);
    var m := i - |p|;
    if m == 0 {
      NotAtNewline(r);
    } else {
      OccursShift("\n", r, BEGIN, m - 1);
    }
  }

  lemma NotAtNewline(r: string)
    ensures !OccursAt("\n" + r, BEGIN, 0)
  {
    assert |BEGIN| <= 1 + |r| ==> ("\n" + r)[0..|BEGIN|][0] == '\n';
  }

  /** A begin marker left by the stripping had no end marker behind it. */
  lemma {:induction false} StrippedLeavesOpen(t: string)
    requires Contains(StripBlocks(t), BEGIN)
    ensures Unterminated(t)
    decreases |t|
  {
    hide Contains, OpenAt, BEGIN, END, TrimNewlines, OccursAt;
    MarkersHaveOneHash();
    match Find(t, BEGIN) {
      case None =>
      case Some(b) =>
        BeginFits(t, b);
        match Find(t[b + |BEGIN|..], END) {
          case None => OpenHere(t, b);
          case Some(e) =>
            EndFits(t[b + |BEGIN|..], e);
            var rest := MarkerBehindBlock(t, b, e);
            StrippedLeavesOpen(rest);
            OpenInTail(t, rest);
        }
    }
  }

  lemma OpenInTail(t: string, rest: string)
    requires |rest| <= |t| && rest == t[|t| - |rest|..] && Unterminated(rest)
    ensures Unterminated(t)
  {
    hide OpenAt;
    var i: nat :| OpenAt(rest, i);
    var head := t[..|t| - |rest|];
    assert t == head + rest;
    OpenShift(head, rest, i);
  }

  /** When a block was stripped, a begin marker in the result comes from the text behind the block. */
  lemma MarkerBehindBlock(t: string, b: nat, e: nat) returns (rest: string)
    requires Contains(StripBlocks(t), BEGIN)
    requires Find(t, BEGIN) == Some(b) && b + |BEGIN| <= |t|
    requires Find(t[b + |BEGIN|..], END) == Some(e) && e + |END| <= |t| - b - |BEGIN|
    ensures |rest| < |t| && rest == t[|t| - |rest|..] && Contains(StripBlocks(rest), BEGIN)
  {
    hide Contains, BEGIN, END, TrimNewlines, StripBlocks, Find;
    MarkersHaveOneHash();
    var after := t[b + |BEGIN|..];
    rest := DropNewline(after[e + |END|..]);
    StripBlocksStep(t, b, e);
    NotBeforeFirst(t, BEGIN, b);
    TrimIsPrefix(t[..b]);
    var p := TrimNewlines(t[..b]);
    if Contains(p, BEGIN) { ContainsPrefix(p, t[..b], BEGIN); }
    MarkerInTail(p, StripBlocks(rest));
  }

  lemma BeginFits(t: string, b: nat)
    requires Find(t, BEGIN) == Some(b)
    ensures b + |BEGIN| <= |t|
  {
    hide BEGIN;
  }

  lemma EndFits(t: string, e: nat)
    requires Find(t, END) == Some(e)
    ensures e + |END| <= |t|
  {
    hide END;
  }

  lemma OpenHere(t: string, b: nat)
    requires Find(t, BEGIN) == Some(b) && b + |BEGIN| <= |t| && Find(t[b + |BEGIN|..], END) == None
    ensures OpenAt(t, b)
  {
    hide BEGIN, END, OccursAt, Find;
    var n := b + |BEGIN|;
    var u := t[n..];
    assert t == t[..n] + u;
    assert !Contains(u, END);
    forall j: nat | n <= j ensures !OccursAt(t, END, j) {
      OccursShift(t[..n], u, END, j - n);
    }
  }

  // A marker lies within one line, so dropping lines creates none.

  ghost predicate SomeLineHas(lines: seq<string>, p: string) {
    exists i :: 0 <= i < |lines| && Contains(lines[i], p)
  }

  predicate NoBreakIn(p: string) { forall j | 0 <= j < |p| :: !IsBreak(p[j]) }

  lemma MarkersHaveNoBreak()
    ensures NoBreakIn(BEGIN)
  {
  }

  lemma BreakInside(l: string, rest: string, p: string, i: nat)
    requires i < |l| < i + |p| && OccursAt(l + rest, p, i)
    ensures p[|l| - 1 - i] == l[|l| - 1]
  {
    assert (l + rest)[i..i + |p|][|l| - 1 - i] == l[|l| - 1];
  }

  /** An occurrence that begins in a line ends in it. */
  lemma WithinLine(l: string, rest: string, p: string, i: nat)
    requires EndsInBreak(l) && NoBreakIn(p) && i < |l| && OccursAt(l + rest, p, i)
    ensures OccursAt(l, p, i)
  {
    if i + |p| <= |l| { OccursLeft(l, rest, p, i); } else { BreakInside(l, rest, p, i); }
  }

  lemma {:induction false} MarkerInSomeLine(lines: seq<string>, p: string)
    requires NoBreakIn(p) && p != "" && Contains(Join(lines), p)
    requires forall i | 0 <= i < |lines| - 1 :: EndsInBreak(lines[i])
    ensures SomeLineHas(lines, p)
  {
    hide OccursAt, NoBreakIn, EndsInBreak;
    var i: nat :| OccursAt(Join(lines), p, i);
    if lines == [] {
      OccursFits("", p, i);
    } else if |lines| == 1 {
      assert Join(lines) == lines[0];
      assert Contains(lines[0], p);
    } else {
      var l, rest := lines[0], Join(lines[1..]);
      if i < |l| {
        WithinLine(l, rest, p, i);
        assert Contains(l, p);
      } else {
        OccursShift(l, rest, p, i - |l|);
        MarkerInSomeLine(lines[1..], p);
        var j :| 0 <= j < |lines[1..]| && Contains(lines[1..][j], p);
        assert lines[j + 1] == lines[1..][j];
      }
    }
  }

  lemma {:induction false} LineInJoin(lines: seq<string>, p: string)
    requires SomeLineHas(lines, p)
    ensures Contains(Join(lines), p)
  {
    var k :| 0 <= k < |lines| && Contains(lines[k], p);
    hide OccursAt;
    if k == 0 {
      var i: nat :| OccursAt(lines[0], p, i);
      OccursFits(lines[0], p, i);
      OccursLeft(lines[0], Join(lines[1..]), p, i);
    } else {
      assert lines[1..][k - 1] == lines[k];
      LineInJoin(lines[1..], p);
      var i: nat :| OccursAt(Join(lines[1..]), p, i);
      OccursShift(lines[0], Join(lines[1..]), p, i);
    }
  }

  lemma OccursFits(t: string, p: string, i: nat)
    requires OccursAt(t, p, i)
    ensures i + |p| <= |t|
  {
  }

  lemma {:induction false} KeptLineWasThere(lines: seq<string>, inside: bool, kind: string -> Kind, p: string)
    requires SomeLineHas(Kept(lines, inside, kind), p)
    ensures SomeLineHas(lines, p)
  {
    hide Contains;
    var now := Inside(inside, kind(lines[0]));
    var rest := Kept(lines[1..], now, kind);
    var k :| 0 <= k < |Kept(lines, inside, kind)| && Contains(Kept(lines, inside, kind)[k], p);
    if now || k > 0 {
      assert Kept(lines, inside, kind)[k] == rest[if now then k else k - 1];
      KeptLineWasThere(lines[1..], now, kind, p);
      var j :| 0 <= j < |lines[1..]| && Contains(lines[1..][j], p);
      assert lines[j + 1] == lines[1..][j];
    }
  }

  lemma ProperEnds(lines: seq<string>)
    requires Proper(lines)
    ensures forall i | 0 <= i < |lines| - 1 :: EndsInBreak(lines[i])
  {
    forall i | 0 <= i < |lines| - 1 ensures EndsInBreak(lines[i]) { assert Before(lines[i], lines[i + 1]); }
  }

  lemma FilterKeepsAbsence(t: string)
    requires Contains(WithoutLegacy(t), BEGIN)
    ensures Contains(t, BEGIN)
  {
    hide BEGIN, SplitLines, Contains, Proper, Kept, NoBreakIn;
    MarkersHaveNoBreak();
    MarkersHaveOneHash();
    SplitProper(t);
    BlankIsPlain();
    KeptProper(SplitLines(t), false, KindOf);
    ProperEnds(Kept(SplitLines(t), false, KindOf));
    MarkerInSomeLine(Kept(SplitLines(t), false, KindOf), BEGIN);
    KeptLineWasThere(SplitLines(t), false, KindOf, BEGIN);
    LineInJoin(SplitLines(t), BEGIN);
  }

  /** If every begin marker of the file has an end marker behind it, the user's part holds none. */
  lemma BalancedIsSafe(raw: string)
    requires !Unterminated(raw)
    ensures !Contains(Cleaned(raw), BEGIN)
  {
    hide BEGIN, StripBlocks, WithoutLegacy, Contains;
    if Contains(Cleaned(raw), BEGIN) {
      ContainsPrefix(Cleaned(raw), WithoutLegacy(StripBlocks(raw)), BEGIN);
      FilterKeepsAbsence(StripBlocks(raw));
      StrippedLeavesOpen(raw);
    }
  }
}
