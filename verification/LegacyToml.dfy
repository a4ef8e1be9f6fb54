/** The line filter that removes piLoci tables an old installer left in Codex's config.toml. */
module LegacyToml {
  import opened Text

  // ---- str.splitlines(keepends=True) -----------------------------------------------------------------

  predicate IsBreak(c: char) {
    var n := c as int;
    10 <= n <= 13 || 28 <= n <= 30 || n == 133 || n == 8232 || n == 8233
  }

  /** Length of the first line of s, its line break included. */
  function LineLength(s: string): (n: nat)
    requires s != ""
    ensures 0 < n <= |s|
  {
    if IsBreak(s[0]) then if |s| > 1 && s[0] == '\r' && s[1] == '\n' then 2 else 1
    else if |s| == 1 then 1
    else 1 + LineLength(s[1..])
  }

  function SplitLines(s: string): seq<string>
    decreases |s|
  {
    if s == "" then [] else [s[..LineLength(s)]] + SplitLines(s[LineLength(s)..])
  }

  function Join(lines: seq<string>): string {
    if lines == [] then "" else lines[0] + Join(lines[1..])
  }

  // ---- section headers -------------------------------------------------------------------------------

  /** Skips what [^\]\n]+ takes. */
  function SkipName(t: string): (r: string)
    ensures |r| <= |t|
    ensures r != "" ==> r[0] == ']' || r[0] == '\n'
  {
    if t == "" || t[0] == ']' || t[0] == '\n' then t else SkipName(t[1..])
  }

  /** No line feed in t but possibly as its last character. */
  predicate OneLine(t: string) { forall i | 0 <= i < |t| - 1 :: t[i] != '\n' }

  /** What may stand after a header's closing bracket: nothing, or a comment to the end of the line. */
  predicate HeaderTail(t: string) {
    var d := LStrip(t);
    d == "" || (d[0] == '#' && OneLine(d))
  }

  /** One or two closing brackets and what may follow them. */
  predicate HeaderClose(b: string) {
    b != "" && b[0] == ']' && HeaderTail(if |b| > 1 && b[1] == ']' then b[2..] else b[1..])
  }

  /** A name and what closes it; t begins after the opening bracket. */
  predicate HeaderRest(t: string) {
    var b := SkipName(t);
    |b| < |t| && HeaderClose(b)
  }

  predicate IsHeader(line: string) {
    var a := LStrip(line);
    a != "" && a[0] == '[' && HeaderRest(a[1..])
  }

  function BeforeHash(t: string): string {
    if t == "" || t[0] == '#' then "" else [t[0]] + BeforeHash(t[1..])
  }

  const TABLE := "[mcp_servers.piloci]"
  const SUBTABLE := "[mcp_servers.piloci."

  predicate IsPilociHeader(line: string) {
    && IsHeader(line)
    && var h := Strip(BeforeHash(Strip(line)));
       h == TABLE || StartsWith(h, SUBTABLE)
  }

  /** What the filter makes of a line: the start of a piLoci table, of another section, or neither. */
  datatype Kind = Piloci | Section | Plain

  function KindOf(line: string): Kind {
    if IsPilociHeader(line) then Piloci else if IsHeader(line) then Section else Plain
  }

  // ---- the filter, for any way of telling headers --------------------------------------------------------

  function Inside(inside: bool, kind: Kind): bool {
    match kind
    case Piloci => true
    case Section => false
    case Plain => inside
  }

  /** The lines kept from here on, inside telling whether a piLoci table is open. */
  function Kept(lines: seq<string>, inside: bool, kind: string -> Kind): (r: seq<string>)
    ensures |r| <= |lines|
  {
    if lines == [] then []
    else
      var now := Inside(inside, kind(lines[0]));
      (if now then [] else [lines[0]]) + Kept(lines[1..], now, kind)
  }

  function Count(lines: seq<string>, kind: string -> Kind): nat {
    if lines == [] then 0 else (if kind(lines[0]).Piloci? then 1 else 0) + Count(lines[1..], kind)
  }

  function WithoutLegacy(raw: string): string { Join(Kept(SplitLines(raw), false, KindOf)) }

  function LegacyHeaders(raw: string): nat { Count(SplitLines(raw), KindOf) }

  method FilterLines(lines: seq<string>, kind: string -> Kind) returns (out: seq<string>, removed: nat)
    ensures out == Kept(lines, false, kind)
    ensures removed == Count(lines, kind)
  {
    hide Kept, Count;
    out := [];
    var insidePiloci := false;
    removed := 0;
    for i := 0 to |lines|
      invariant out + Kept(lines[i..], insidePiloci, kind) == Kept(lines, false, kind)
      invariant removed + Count(lines[i..], kind) == Count(lines, kind)
    {
      var line := lines[i];
      FilterStep(lines, i, insidePiloci, kind);
      if !kind(line).Plain? {
        if kind(line).Piloci? {
          insidePiloci := true;
          removed := removed + 1;
          continue;
        }
        insidePiloci := false;
      }
      if !insidePiloci {
        out := out + [line];
      }
    }
    FilterEnd(insidePiloci, kind);
    assert lines[|lines|..] == [];
  }

  lemma FilterEnd(inside: bool, kind: string -> Kind)
    ensures Kept([], inside, kind) == [] && Count([], kind) == 0
  {
  }

  method StripLegacyCodexPiloci(raw: string) returns (text: string, removed: nat)
    ensures text == WithoutLegacy(raw)
    ensures removed == LegacyHeaders(raw)
  {
    var out: seq<string>;
    out, removed := FilterLines(SplitLines(raw), KindOf);
    text := Join(out);
  }

  lemma FilterStep(lines: seq<string>, i: nat, inside: bool, kind: string -> Kind)
    requires i < |lines|
    ensures var now := Inside(inside, kind(lines[i]));
            Kept(lines[i..], inside, kind) == (if now then [] else [lines[i]]) + Kept(lines[i + 1..], now, kind)
    ensures Count(lines[i..], kind) == (if kind(lines[i]).Piloci? then 1 else 0) + Count(lines[i + 1..], kind)
  {
    assert lines[i..][1..] == lines[i + 1..];
  }

  // ---- what the filter keeps ---------------------------------------------------------------------------

  /** The last section header at or before line i opens a piLoci table. */
  ghost predicate InPilociTable(lines: seq<string>, i: nat, kind: string -> Kind)
    requires i < |lines|
  {
    exists j :: 0 <= j <= i && kind(lines[j]).Piloci? && forall m | j < m <= i :: kind(lines[m]).Plain?
  }

  /** The lines from index i on that stand in no piLoci table, in order. */
  ghost function Outside(lines: seq<string>, i: nat, kind: string -> Kind): seq<string>
    requires i <= |lines|
    decreases |lines| - i
  {
    if i == |lines| then []
    else (if InPilociTable(lines, i, kind) then [] else [lines[i]]) + Outside(lines, i + 1, kind)
  }

  lemma TableStep(lines: seq<string>, i: nat, kind: string -> Kind)
    requires i < |lines|
    ensures InPilociTable(lines, i, kind)
       <==> Inside(i > 0 && InPilociTable(lines, i - 1, kind), kind(lines[i]))
  {
    if kind(lines[i]).Plain? {
      if i > 0 && InPilociTable(lines, i - 1, kind) {
        var j :| 0 <= j <= i - 1 && kind(lines[j]).Piloci? && forall m | j < m <= i - 1 :: kind(lines[m]).Plain?;
        assert forall m | j < m <= i :: kind(lines[m]).Plain?;
      }
      if j :| 0 <= j <= i && kind(lines[j]).Piloci? && forall m | j < m <= i :: kind(lines[m]).Plain? {
        assert j != i && forall m | j < m <= i - 1 :: kind(lines[m]).Plain?;
      }
    }
  }

  lemma {:induction false} KeptFrom(lines: seq<string>, i: nat, kind: string -> Kind)
    requires i <= |lines|
    ensures Kept(lines[i..], i > 0 && InPilociTable(lines, i - 1, kind), kind) == Outside(lines, i, kind)
    decreases |lines| - i
  {
    if i < |lines| {
      TableStep(lines, i, kind);
      KeptFrom(lines, i + 1, kind);
      FilterStep(lines, i, i > 0 && InPilociTable(lines, i - 1, kind), kind);
    }
  }

  /** A line is kept exactly when the last header at or before it is not a piLoci header. */
  lemma FilterMeaning(lines: seq<string>, kind: string -> Kind)
    ensures Kept(lines, false, kind) == Outside(lines, 0, kind)
  {
    KeptFrom(lines, 0, kind);
    assert lines[0..] == lines;
  }

  ghost predicate NoPiloci(lines: seq<string>, kind: string -> Kind) {
    forall i | 0 <= i < |lines| :: !kind(lines[i]).Piloci?
  }

  lemma {:induction false} KeptHasNoPiloci(lines: seq<string>, inside: bool, kind: string -> Kind)
    ensures NoPiloci(Kept(lines, inside, kind), kind)
  {
    if lines != [] {
      KeptHasNoPiloci(lines[1..], Inside(inside, kind(lines[0])), kind);
    }
  }

  lemma {:induction false} NothingToDrop(lines: seq<string>, kind: string -> Kind)
    requires NoPiloci(lines, kind)
    ensures Kept(lines, false, kind) == lines && Count(lines, kind) == 0
  {
    if lines != [] {
      NothingToDrop(lines[1..], kind);
    }
  }

  // ---- lines survive being joined and split again --------------------------------------------------------

  predicate EndsInBreak(l: string) { l != "" && IsBreak(l[|l| - 1]) }

  /** l can be a line in front of next. */
  predicate Before(l: string, next: string) {
    EndsInBreak(l) && next != "" && !(l[|l| - 1] == '\r' && next[0] == '\n')
  }

  ghost predicate Proper(lines: seq<string>) {
    && (forall i | 0 <= i < |lines| :: lines[i] != "" && LineLength(lines[i]) == |lines[i]|)
    && (forall i | 0 <= i < |lines| - 1 :: Before(lines[i], lines[i + 1]))
  }

  lemma {:induction false} LineThen(l: string, rest: string)
    requires l != "" && LineLength(l) == |l|
    requires rest != "" ==> Before(l, rest)
    ensures LineLength(l + rest) == |l|
  {
    if rest == "" {
      assert l + rest == l;
    } else if IsBreak(l[0]) {
      assert |l| > 1 ==> (l + rest)[1] == l[1];
    } else {
      assert (l + rest)[1..] == l[1..] + rest;
      LineThen(l[1..], rest);
    }
  }

  lemma {:induction false} SplitOfJoin(lines: seq<string>)
    requires Proper(lines)
    ensures SplitLines(Join(lines)) == lines
    ensures lines != [] ==> Join(lines) != "" && Join(lines)[0] == lines[0][0]
  {
    if lines != [] {
      var l, rest := lines[0], Join(lines[1..]);
      SplitOfJoin(lines[1..]);
      assert lines[1..] != [] ==> Before(lines[0], lines[1]);
      LineThen(l, rest);
      assert (l + rest)[..|l|] == l && (l + rest)[|l|..] == rest;
    }
  }

  lemma {:induction false} FirstLineProper(s: string)
    requires s != ""
    ensures var n := LineLength(s);
            && LineLength(s[..n]) == n
            && (n < |s| ==> Before(s[..n], s[n..]))
  {
    var n := LineLength(s);
    if !IsBreak(s[0]) && |s| > 1 {
      FirstLineProper(s[1..]);
      assert s[..n][1..] == s[1..][..n - 1] && s[n..] == s[1..][n - 1..];
    }
  }

  lemma ProperCons(l: string, rest: seq<string>)
    requires l != "" && LineLength(l) == |l| && Proper(rest) && (rest != [] ==> Before(l, rest[0]))
    ensures Proper([l] + rest)
  {
    hide LineLength, Before;
    var lines := [l] + rest;
    assert forall i | 0 < i < |lines| :: lines[i] == rest[i - 1];
  }

  lemma BeforeFirst(l: string, s: string, t: string)
    requires s != "" && t != "" && s[0] == t[0]
    ensures Before(l, s) == Before(l, t)
  {
  }

  lemma {:induction false} SplitProper(s: string)
    ensures Proper(SplitLines(s)) && Join(SplitLines(s)) == s
    ensures s != "" ==> SplitLines(s) != [] && SplitLines(s)[0] != "" && SplitLines(s)[0][0] == s[0]
    decreases |s|
  {
    hide Proper, LineLength, Before;
    if s == "" {
      NoLines();
    } else {
      var n := LineLength(s);
      FirstLineProper(s);
      SplitProper(s[n..]);
      if n < |s| { BeforeFirst(s[..n], s[n..], SplitLines(s[n..])[0]); }
      ProperCons(s[..n], SplitLines(s[n..]));
      assert s == s[..n] + s[n..];
    }
  }

  lemma NoLines()
    ensures Proper([])
  {
  }

  lemma KeptStep(l: string, rest: seq<string>, inside: bool, kind: string -> Kind)
    ensures var now := Inside(inside, kind(l));
            Kept([l] + rest, inside, kind) == (if now then [] else [l]) + Kept(rest, now, kind)
  {
    assert ([l] + rest)[1..] == rest;
  }

  /** A kept line follows the line it followed before, or it is a header. */
  lemma {:induction false} KeptProper(lines: seq<string>, inside: bool, kind: string -> Kind)
    requires Proper(lines) && kind("\n").Plain?
    ensures Proper(Kept(lines, inside, kind))
    ensures Kept(lines, inside, kind) != [] ==>
              lines != [] && (Kept(lines, inside, kind)[0] == lines[0] || !kind(Kept(lines, inside, kind)[0]).Plain?)
  {
    if lines != [] {
      hide Kept, Proper, LineLength, Before, Inside;
      var l, more := lines[0], lines[1..];
      var now := Inside(inside, kind(l));
      ProperTail(lines);
      KeptProper(more, now, kind);
      assert lines == [l] + more;
      KeptStep(l, more, inside, kind);
      if now {
        KeptHeadIsHeader(more, kind);
      } else {
        var rest := Kept(more, now, kind);
        if rest != [] { KeptFollows(l, more[0], rest, kind); }
        ProperCons(l, rest);
      }
    }
  }

  lemma KeptFollows(l: string, next: string, rest: seq<string>, kind: string -> Kind)
    requires Before(l, next) && Proper(rest) && rest != [] && kind("\n").Plain?
    requires rest[0] == next || !kind(rest[0]).Plain?
    ensures Before(l, rest[0])
  {
    hide LineLength;
    ProperHead(rest);
    HeadIsNoLineFeed(rest[0], kind);
    if rest[0] != next { HeaderFollows(l, next, rest[0]); }
  }

  lemma ProperTail(lines: seq<string>)
    requires Proper(lines) && lines != []
    ensures lines[0] != "" && LineLength(lines[0]) == |lines[0]| && Proper(lines[1..])
    ensures |lines| > 1 ==> Before(lines[0], lines[1])
  {
  }

  lemma ProperHead(lines: seq<string>)
    requires Proper(lines) && lines != []
    ensures lines[0] != "" && LineLength(lines[0]) == |lines[0]|
  {
  }

  lemma HeaderFollows(l: string, next: string, header: string)
    requires Before(l, next) && header != "" && header[0] != '\n'
    ensures Before(l, header)
  {
  }

  lemma HeadIsNoLineFeed(l: string, kind: string -> Kind)
    requires l != "" && LineLength(l) == |l| && kind("\n").Plain?
    ensures !kind(l).Plain? ==> l[0] != '\n'
  {
    if l[0] == '\n' { assert l == "\n"; }
  }

  lemma {:induction false} KeptHeadIsHeader(lines: seq<string>, kind: string -> Kind)
    ensures Kept(lines, true, kind) != [] ==> !kind(Kept(lines, true, kind)[0]).Plain?
  {
    if lines != [] && Inside(true, kind(lines[0])) {
      KeptHeadIsHeader(lines[1..], kind);
    }
  }

  lemma BlankIsPlain()
    ensures KindOf("\n").Plain?
  {
    assert "\n"[1..] == "" && LStrip("\n") == "";
  }

  /** The filtered text splits into exactly the kept lines. */
  lemma FilteredLines(raw: string)
    ensures SplitLines(WithoutLegacy(raw)) == Kept(SplitLines(raw), false, KindOf)
    ensures NoPiloci(SplitLines(WithoutLegacy(raw)), KindOf)
  {
    SplitProper(raw);
    BlankIsPlain();
    KeptProper(SplitLines(raw), false, KindOf);
    SplitOfJoin(Kept(SplitLines(raw), false, KindOf));
    KeptHasNoPiloci(SplitLines(raw), false, KindOf);
  }

  /** Text without piLoci headers is left as it is. */
  lemma FilterIdentity(raw: string)
    requires NoPiloci(SplitLines(raw), KindOf)
    ensures WithoutLegacy(raw) == raw && LegacyHeaders(raw) == 0
  {
    SplitProper(raw);
    NothingToDrop(SplitLines(raw), KindOf);
  }

  /** A second run of the filter is the identity and counts nothing. */
  lemma FilterIdempotent(raw: string)
    ensures var once := WithoutLegacy(raw);
            WithoutLegacy(once) == once && LegacyHeaders(once) == 0
  {
    FilteredLines(raw);
    FilterIdentity(WithoutLegacy(raw));
  }
}
