/** What a section header is: the scanner against the expression it implements, and trailing white space. */
module TomlHeaders {
  import opened Text
  import opened LegacyToml

  /** line splits as ^\s* [ name ]]? \s* (#.*)?$ asks; an opening [[ has its second bracket in name. */
  predicate HeaderParts(line: string, a: string, name: string, close: string, b: string, tail: string) {
    && line == a + ("[" + (name + (close + (b + tail))))
    && AllSpace(a) && AllSpace(b)
    && name != "" && NamePart(name)
    && (close == "]" || close == "]]")
    && (tail == "" || (tail[0] == '#' && OneLine(tail)))
  }

  lemma {:induction false} LStripOf(a: string, t: string)
    requires AllSpace(a)
    ensures LStrip(a + t) == LStrip(t)
  {
    if a == "" {
      assert a + t == t;
    } else {
      assert (a + t)[1..] == a[1..] + t;
      LStripOf(a[1..], t);
    }
  }

  lemma {:induction false} SkipNameOf(name: string, t: string)
    requires NamePart(name)
    ensures SkipName(name + t) == SkipName(t)
  {
    if name == "" {
      assert name + t == t;
    } else {
      assert (name + t)[1..] == name[1..] + t;
      SkipNameOf(name[1..], t);
    }
  }

  predicate NamePart(s: string) { forall i | 0 <= i < |s| :: s[i] != ']' && s[i] != '\n' }

  lemma NamePartCons(c: char, s: string)
    requires NamePart(s) && c != ']' && c != '\n'
    ensures NamePart([c] + s)
  {
  }

  /** What SkipName skips. */
  function NameOf(t: string): string {
    if t == "" || t[0] == ']' || t[0] == '\n' then "" else [t[0]] + NameOf(t[1..])
  }

  lemma {:induction false} SkippedName(t: string)
    ensures NamePart(NameOf(t)) && t == NameOf(t) + SkipName(t)
  {
    hide NamePart;
    if t == "" || t[0] == ']' || t[0] == '\n' {
      NoName();
      assert "" + t == t;
    } else {
      SkippedName(t[1..]);
      NamePartCons(t[0], NameOf(t[1..]));
      assert t == [t[0]] + t[1..];
    }
  }

  lemma NoName()
    ensures NamePart("")
  {
  }

  lemma TailOf(b: string, tail: string)
    requires AllSpace(b) && (tail == "" || (tail[0] == '#' && OneLine(tail)))
    ensures HeaderTail(b + tail)
  {
    LStripOf(b, tail);
  }

  lemma CloseOf(close: string, t: string)
    requires close == "]" || close == "]]"
    requires HeaderTail(t) && (t == "" || t[0] != ']')
    ensures HeaderClose(close + t)
  {
    var u := close + t;
    if close == "]" {
      assert u[1..] == t && (|u| > 1 ==> u[1] == t[0]);
    } else {
      assert u[1] == ']' && u[2..] == t;
    }
  }

  lemma RestOf(name: string, u: string)
    requires name != "" && NamePart(name)
    requires HeaderClose(u)
    ensures HeaderRest(name + u)
  {
    SkipNameOf(name, u);
    assert SkipName(u) == u;
  }

  lemma SpaceThenOpen(a: string, u: string)
    requires AllSpace(a) && u != "" && u[0] == '['
    ensures IsHeader(a + u) == HeaderRest(u[1..])
  {
    LStripOf(a, u);
    assert LStrip(u) == u;
  }

  lemma PartsMakeRest(name: string, close: string, b: string, tail: string)
    requires AllSpace(b) && name != "" && NamePart(name)
    requires (close == "]" || close == "]]") && (tail == "" || (tail[0] == '#' && OneLine(tail)))
    ensures HeaderRest(name + (close + (b + tail)))
  {
    var t := b + tail;
    TailOf(b, tail);
    assert t == "" || t[0] == (if b == "" then tail[0] else b[0]);
    CloseOf(close, t);
    RestOf(name, close + t);
  }

  lemma PartsMakeHeader(line: string, a: string, name: string, close: string, b: string, tail: string)
    requires HeaderParts(line, a, name, close, b, tail)
    ensures IsHeader(line)
  {
    var v := name + (close + (b + tail));
    PartsMakeRest(name, close, b, tail);
    assert ("[" + v)[1..] == v;
    SpaceThenOpen(a, "[" + v);
  }

  lemma TailHasParts(t: string) returns (b: string, tail: string)
    requires HeaderTail(t)
    ensures t == b + tail && AllSpace(b) && (tail == "" || (tail[0] == '#' && OneLine(tail)))
  {
    tail := LStrip(t);
    LStripParts(t);
    b := t[..|t| - |tail|];
  }

  lemma CloseHasParts(r: string) returns (close: string, b: string, tail: string)
    requires HeaderClose(r)
    ensures (close == "]" || close == "]]") && r == close + (b + tail)
    ensures AllSpace(b) && (tail == "" || (tail[0] == '#' && OneLine(tail)))
  {
    close := if |r| > 1 && r[1] == ']' then "]]" else "]";
    b, tail := TailHasParts(r[|close|..]);
    assert r[..|close|] == close;
  }

  lemma RestHasParts(v: string) returns (name: string, r: string)
    requires HeaderRest(v)
    ensures v == name + r && HeaderClose(r)
    ensures name != "" && NamePart(name)
  {
    r := SkipName(v);
    SkippedName(v);
    name := NameOf(v);
  }

  lemma OpenHasParts(u: string) returns (name: string, close: string, b: string, tail: string)
    requires u != "" && u[0] == '[' && HeaderRest(u[1..])
    ensures HeaderParts(u, "", name, close, b, tail)
  {
    var r;
    name, r := RestHasParts(u[1..]);
    close, b, tail := CloseHasParts(r);
    PartsJoin(u, "[" + (name + (close + (b + tail))));
  }

  lemma PartsJoin(u: string, v: string)
    requires u != "" && v != "" && u[0] == v[0] && u[1..] == v[1..]
    ensures u == "" + v
  {
    assert u == [u[0]] + u[1..] && v == [v[0]] + v[1..];
  }

  lemma SpaceBefore(line: string, a: string, u: string, name: string, close: string, b: string, tail: string)
    requires line == a + u && AllSpace(a) && HeaderParts(u, "", name, close, b, tail)
    ensures HeaderParts(line, a, name, close, b, tail)
  {
    var v := "[" + (name + (close + (b + tail)));
    assert "" + v == v;
  }

  lemma HeaderOpens(line: string) returns (a: string, u: string)
    requires IsHeader(line)
    ensures line == a + u && AllSpace(a) && u != "" && u[0] == '[' && HeaderRest(u[1..])
  {
    hide HeaderRest, IsSpace;
    u := LStrip(line);
    LStripParts(line);
    a := line[..|line| - |u|];
  }

  lemma HeaderHasParts(line: string, a: string, u: string)
    requires line == a + u && AllSpace(a) && u != "" && u[0] == '[' && HeaderRest(u[1..])
    ensures exists name, close, b, tail :: HeaderParts(line, a, name, close, b, tail)
  {
    var name, close, b, tail := OpenHasParts(u);
    SpaceBefore(line, a, u, name, close, b, tail);
  }

  ghost predicate MatchesHeader(line: string) {
    exists a, name, close, b, tail :: HeaderParts(line, a, name, close, b, tail)
  }

  /** The header test is a full match of the section-header expression. */
  lemma HeaderIsExpression(line: string)
    ensures IsHeader(line) <==> MatchesHeader(line)
  {
    if IsHeader(line) {
      var a, u := HeaderOpens(line);
      HeaderHasParts(line, a, u);
    }
    if MatchesHeader(line) {
      var a, name, close, b, tail :| HeaderParts(line, a, name, close, b, tail);
      PartsMakeHeader(line, a, name, close, b, tail);
    }
  }

  // ---- white space at the end of a line does not matter ------------------------------------------------

  /** Text without a line feed that does not end in white space. */
  predicate Bare(s: string) { s != "" && !IsSpace(s[|s| - 1]) && forall i | 0 <= i < |s| :: s[i] != '\n' }

  lemma {:induction false} RStripOf(s: string, w: string)
    requires AllSpace(w) && (s == "" || !IsSpace(s[|s| - 1]))
    ensures RStrip(s + w) == s
  {
    if w == "" {
      assert s + w == s;
    } else {
      assert (s + w)[..|s + w| - 1] == s + w[..|w| - 1];
      RStripOf(s, w[..|w| - 1]);
    }
  }

  lemma {:induction false} LStripThen(s: string, w: string)
    requires s != "" && !IsSpace(s[|s| - 1])
    ensures LStrip(s + w) == LStrip(s) + w && LStrip(s) != "" && LStrip(s)[|LStrip(s)| - 1] == s[|s| - 1]
  {
    if IsSpace(s[0]) {
      assert (s + w)[1..] == s[1..] + w;
      LStripThen(s[1..], w);
    }
  }

  lemma StripOf(s: string, w: string)
    requires s != "" && !IsSpace(s[|s| - 1]) && AllSpace(w)
    ensures Strip(s + w) == Strip(s)
  {
    LStripThen(s, w);
    RStripOf(LStrip(s), w);
    RStripOf(LStrip(s), "");
    assert LStrip(s) + "" == LStrip(s);
  }

  lemma TailThen(s: string, w: string)
    requires Bare(s) && AllSpace(w) && OneLine(w)
    ensures HeaderTail(s + w) <==> HeaderTail(s)
  {
    LStripThen(s, w);
    var d := LStrip(s);
    LStripParts(s);
    assert (d + w)[0] == d[0];
    assert forall i | 0 <= i < |d| :: d[i] == s[|s| - |d| + i];
    assert OneLine(d) && OneLine(d + w);
  }

  lemma EmptyTail(w: string)
    requires AllSpace(w)
    ensures HeaderTail(w)
  {
    LStripOf(w, "");
    assert w + "" == w;
  }

  lemma {:induction false} SkipNameThen(s: string, w: string)
    requires forall i | 0 <= i < |s| :: s[i] != '\n'
    requires SkipName(s) != ""
    ensures SkipName(s + w) == SkipName(s) + w
  {
    if s[0] != ']' {
      assert (s + w)[1..] == s[1..] + w;
      SkipNameThen(s[1..], w);
    }
  }

  lemma {:induction false} SkipNameRunsOut(s: string, w: string)
    requires SkipName(s) == "" && AllSpace(w)
    ensures SkipName(s + w) == "" || SkipName(s + w)[0] != ']'
  {
    if s == "" {
      assert s + w == w;
      if w != "" && w[0] != '\n' {
        SkipNameRunsOut("", w[1..]);
        assert "" + w[1..] == w[1..];
      }
    } else {
      assert (s + w)[1..] == s[1..] + w;
      SkipNameRunsOut(s[1..], w);
    }
  }

  lemma CloseThen(b: string, w: string)
    requires Bare(b) && AllSpace(w) && OneLine(w)
    ensures HeaderClose(b + w) <==> HeaderClose(b)
  {
    var n := if |b| > 1 && b[1] == ']' then 2 else 1;
    assert (b + w)[0] == b[0];
    assert |b| > 1 ==> (b + w)[1] == b[1];
    assert |b| == 1 && w != "" ==> (b + w)[1] == w[0];
    assert (b + w)[n..] == b[n..] + w;
    if b[n..] == "" {
      assert b[n..] + w == w;
      EmptyTail(w);
      EmptyTail("");
    } else {
      BareEnd(b, n);
      TailThen(b[n..], w);
    }
  }

  lemma BareEnd(s: string, n: nat)
    requires Bare(s) && n < |s|
    ensures Bare(s[n..])
  {
    assert s[n..][|s| - n - 1] == s[|s| - 1];
  }

  lemma RestThen(s: string, w: string)
    requires Bare(s) && AllSpace(w) && OneLine(w)
    ensures HeaderRest(s + w) <==> HeaderRest(s)
  {
    var b := SkipName(s);
    if b == "" {
      SkipNameRunsOut(s, w);
    } else {
      SkipNameThen(s, w);
      SkippedName(s);
      assert b == s[|s| - |b|..];
      BareEnd(s, |s| - |b|);
      CloseThen(b, w);
    }
  }

  lemma NoRest(w: string)
    requires AllSpace(w)
    ensures !HeaderRest(w)
  {
    SkipNameRunsOut("", w);
    assert "" + w == w;
  }

  lemma OpenThen(a: string, w: string)
    requires Bare(a) && AllSpace(w) && OneLine(w)
    ensures HeaderRest((a + w)[1..]) <==> HeaderRest(a[1..])
  {
    assert (a + w)[1..] == a[1..] + w;
    if |a| == 1 {
      assert a[1..] + w == w;
      NoRest(w);
      NoRest("");
    } else {
      BareEnd(a, 1);
      RestThen(a[1..], w);
    }
  }

  lemma HeaderThen(s: string, w: string)
    requires Bare(s) && AllSpace(w) && OneLine(w)
    ensures IsHeader(s + w) <==> IsHeader(s)
  {
    LStripThen(s, w);
    var a := LStrip(s);
    LStripParts(s);
    BareEnd(s, |s| - |a|);
    OpenThen(a, w);
    assert (a + w)[0] == a[0];
  }

  /** White space added to the end of a line never changes what the filter makes of it. */
  lemma TrailingSpace(s: string, w: string)
    requires Bare(s) && AllSpace(w) && OneLine(w)
    ensures KindOf(s + w) == KindOf(s)
  {
    HeaderThen(s, w);
    StripOf(s, w);
  }

  // ---- text whose end was stripped and given one line feed back ------------------------------------------

  lemma {:induction false} NoBreakLine(s: string)
    requires s != "" && forall i | 0 <= i < |s| - 1 :: !IsBreak(s[i])
    ensures LineLength(s) == |s|
  {
    if |s| > 1 {
      NoBreakLine(s[1..]);
    }
  }

  lemma {:induction false} LineInside(s: string, w: string)
    requires s != "" && LineLength(s) < |s|
    ensures LineLength(s + w) == LineLength(s)
  {
    if !IsBreak(s[0]) {
      assert (s + w)[1..] == s[1..] + w;
      LineInside(s[1..], w);
    } else {
      assert (s + w)[1] == s[1];
    }
  }

  /** A text whose first line takes all of it has no line break before its end. */
  lemma {:induction false} WholeLine(s: string)
    requires s != "" && LineLength(s) == |s| && !IsBreak(s[|s| - 1])
    ensures forall i | 0 <= i < |s| :: !IsBreak(s[i])
  {
    if |s| > 1 {
      WholeLine(s[1..]);
      assert s == [s[0]] + s[1..];
    }
  }

  lemma {:induction false} LineSpans(s: string, w: string)
    requires s != "" && forall i | 0 <= i < |s| :: !IsBreak(s[i])
    ensures w == "" ==> LineLength(s + w) == |s|
    ensures w != "" ==> LineLength(s + w) == |s| + LineLength(w)
  {
    if w == "" {
      assert s + w == s;
      NoBreakLine(s);
    } else if |s| == 1 {
      assert (s + w)[1..] == w;
    } else {
      assert (s + w)[1..] == s[1..] + w;
      LineSpans(s[1..], w);
    }
  }

  lemma {:induction false} LineIsOneLine(s: string)
    requires s != "" && LineLength(s) == |s|
    ensures OneLine(s)
  {
    if |s| > 1 && !IsBreak(s[0]) {
      LineIsOneLine(s[1..]);
      assert forall i | 0 < i < |s| - 1 :: s[i] == s[1..][i - 1];
    }
  }

  lemma FirstAndRest(s: string, kind: string -> Kind)
    requires s != ""
    ensures var n := LineLength(s);
            NoPiloci(SplitLines(s), kind) <==> !kind(s[..n]).Piloci? && NoPiloci(SplitLines(s[n..]), kind)
  {
    var n := LineLength(s);
    FirstOfLines(s[..n], SplitLines(s[n..]), kind);
  }

  lemma FirstOfLines(l: string, rest: seq<string>, kind: string -> Kind)
    ensures NoPiloci([l] + rest, kind) <==> !kind(l).Piloci? && NoPiloci(rest, kind)
  {
    var lines := [l] + rest;
    assert lines[0] == l && forall i | 0 < i < |lines| :: lines[i] == rest[i - 1];
    assert forall i | 0 <= i < |rest| :: rest[i] == lines[i + 1];
  }

  /** Stripping the end of a text and adding a line feed creates no piLoci header. */
  lemma {:induction false} RestoredEnd(s: string, w: string, kind: string -> Kind)
    requires s != "" && !IsSpace(s[|s| - 1]) && AllSpace(w)
    requires forall l, x | Bare(l) && AllSpace(x) && OneLine(x) :: kind(l + x) == kind(l)
    requires NoPiloci(SplitLines(s + w), kind)
    ensures NoPiloci(SplitLines(s + "\n"), kind)
    decreases |s|
  {
    hide SplitLines, NoPiloci, LineLength;
    var n := LineLength(s);
    var t, u := s + w, s + "\n";
    FirstAndRest(t, kind);
    FirstAndRest(u, kind);
    if n < |s| {
      LineInside(s, w);
      LineInside(s, "\n");
      assert t[..n] == s[..n] && u[..n] == s[..n];
      assert t[n..] == s[n..] + w && u[n..] == s[n..] + "\n";
      RestoredEnd(s[n..], w, kind);
    } else {
      LastLine(s, w, kind);
      LastLine(s, "\n", kind);
      assert u[LineLength(u)..] == "";
      NoLinesLeft(kind);
    }
  }

  lemma NoLinesLeft(kind: string -> Kind)
    ensures NoPiloci(SplitLines(""), kind)
  {
  }

  lemma LastLine(s: string, w: string, kind: string -> Kind)
    requires s != "" && !IsSpace(s[|s| - 1]) && AllSpace(w) && LineLength(s) == |s|
    requires forall l, x | Bare(l) && AllSpace(x) && OneLine(x) :: kind(l + x) == kind(l)
    ensures var t := s + w; kind(t[..LineLength(t)]) == kind(s)
    ensures w == "\n" ==> LineLength(s + w) == |s| + 1
  {
    WholeLine(s);
    LineSpans(s, w);
    if w == "" {
      assert s + w == s && s[..|s|] == s;
    } else {
      var x := w[..LineLength(w)];
      assert (s + w)[..|s| + |x|] == s + x;
      FirstLineProper(w);
      LineIsOneLine(x);
      assert Bare(s) && AllSpace(x);
    }
  }

  /** The same for the filter's own classification. */
  lemma StrippedEnd(s: string, w: string)
    requires s != "" && !IsSpace(s[|s| - 1]) && AllSpace(w)
    requires NoPiloci(SplitLines(s + w), KindOf)
    ensures NoPiloci(SplitLines(s + "\n"), KindOf)
  {
    forall l, x | Bare(l) && AllSpace(x) && OneLine(x) ensures KindOf(l + x) == KindOf(l) { TrailingSpace(l, x); }
    RestoredEnd(s, w, KindOf);
  }

  // ---- which tables are piLoci's -----------------------------------------------------------------------------------

  predicate BareName(name: string) { name != "" && forall i | 0 <= i < |name| :: name[i] != ']' && name[i] != '#' && name[i] != '\n' }

  lemma {:induction false} NameSkipped(name: string, k: string)
    requires (forall i | 0 <= i < |name| :: name[i] != ']' && name[i] != '\n') && k != "" && k[0] == ']'
    ensures SkipName(name + k) == k
  {
    if name == "" {
      assert name + k == k;
    } else {
      assert (name + k)[1..] == name[1..] + k;
      NameSkipped(name[1..], k);
    }
  }

  lemma {:induction false} NoHashBefore(t: string)
    requires forall i | 0 <= i < |t| :: t[i] != '#'
    ensures BeforeHash(t) == t
  {
    if t != "" {
      NoHashBefore(t[1..]);
      assert t == [t[0]] + t[1..];
    }
  }

  lemma CloseTail()
    ensures HeaderClose("]" + "\n")
  {
    assert ("]" + "\n")[1..] == "\n" && "\n"[1..] == "";
    assert LStrip("\n") == "";
  }

  lemma BareIsHeader(name: string)
    requires BareName(name)
    ensures IsHeader("[" + name + "]" + "\n")
  {
    hide HeaderClose, SkipName;
    var line := "[" + name + "]" + "\n";
    assert LStrip(line) == line;
    assert line[1..] == name + ("]" + "\n");
    NameSkipped(name, "]" + "\n");
    CloseTail();
  }

  lemma BareStripped(name: string)
    requires BareName(name)
    ensures var h := "[" + name + "]"; Strip(BeforeHash(Strip(h + "\n"))) == h
  {
    hide Strip;
    var h := "[" + name + "]";
    assert h + "\n" == "" + h + "\n" && h == "" + h + "";
    assert AllSpace("\n") && AllSpace("");
    assert h[0] == '[' && h[|h| - 1] == ']' && !IsSpace('[') && !IsSpace(']');
    StrippedOnce(h + "\n", h);
    NoHashBefore(h);
    StrippedOnce(h, h);
  }

  lemma BareNames(name: string)
    requires BareName(name)
    ensures "[" + name + "]" == TABLE <==> name == "mcp_servers.piloci"
    ensures StartsWith("[" + name + "]", SUBTABLE) <==> StartsWith(name, "mcp_servers.piloci.")
  {
    var h := "[" + name + "]";
    var p := "mcp_servers.piloci.";
    assert TABLE == "[" + "mcp_servers.piloci" + "]" && SUBTABLE == "[" + p;
    assert h[1..|h| - 1] == name;
    if h == TABLE { assert TABLE[1..|TABLE| - 1] == "mcp_servers.piloci"; }
    hide TABLE;
    if StartsWith(name, p) {
      assert h[..20] == "[" + name[..19];
    }
    if StartsWith(h, SUBTABLE) {
      assert h[..20] == SUBTABLE && SUBTABLE[19] == '.';
      assert |h| > 20;
      assert name[..19] == h[1..20];
      assert SUBTABLE[1..20] == p;
    }
  }

  /** A table is piLoci's exactly when its name is mcp_servers.piloci or below it. */
  lemma PilociNamed(name: string)
    requires BareName(name)
    ensures KindOf("[" + name + "]" + "\n") ==
            if name == "mcp_servers.piloci" || StartsWith(name, "mcp_servers.piloci.") then Piloci else Section
  {
    hide IsHeader, StartsWith, TABLE, SUBTABLE, Strip, BeforeHash;
    BareIsHeader(name);
    BareStripped(name);
    BareNames(name);
  }
}
