/** What a block of a stream says and fires, and how a stream that ends inside a block is read. */
module SseMeaning {
  import opened Text
  import opened Json
  import opened JsonText
  import opened JsonGrammar
  import opened JsonReader
  import opened Sse

  // ---- lines -------------------------------------------------------------------------------------------------------

  function Joined(lines: seq<string>): string
    requires lines != []
  {
    if |lines| == 1 then lines[0] else lines[0] + ("\n" + Joined(lines[1..]))
  }

  /** The lines put together again with line feeds are the text, and no line holds one. */
  lemma {:induction false} LinesAre(t: string)
    ensures Joined(Lines(t)) == t && forall i | 0 <= i < |Lines(t)| :: '\n' !in Lines(t)[i]
    decreases |t|
  {
    hide Find;
    match Find(t, "\n")
    case None =>
      NoLineFeed(t);
      assert Lines(t) == [t];
    case Some(i) =>
      FirstLineFeed(t, i);
      var rest := Lines(t[i + 1..]);
      LinesAre(t[i + 1..]);
      assert Lines(t) == [t[..i]] + rest && Lines(t)[1..] == rest;
  }

  lemma FeedAt(t: string, j: nat)
    ensures OccursAt(t, "\n", j) <==> j < |t| && t[j] == '\n'
  {
    assert j < |t| ==> t[j..j + 1] == [t[j]];
  }

  lemma FeedFound(t: string)
    ensures match Find(t, "\n")
            case Some(i) => OccursAt(t, "\n", i) && forall j: nat | j < i :: !OccursAt(t, "\n", j)
            case None => forall j: nat :: !OccursAt(t, "\n", j)
  {
    FindContains(t, "\n");
  }

  lemma NoLineFeed(t: string)
    requires Find(t, "\n") == None
    ensures '\n' !in t
  {
    hide Find, OccursAt;
    FeedFound(t);
    forall j: nat | j < |t| ensures t[j] != '\n' { FeedAt(t, j); }
  }

  lemma FirstLineFeed(t: string, i: nat)
    requires Find(t, "\n") == Some(i)
    ensures i < |t| && '\n' !in t[..i] && t == t[..i] + ("\n" + t[i + 1..])
  {
    hide Find, OccursAt;
    FeedFound(t);
    FeedAt(t, i);
    forall j: nat | j < i ensures t[j] != '\n' { FeedAt(t, j); }
    CutAt(t, i);
  }

  lemma CutAt(t: string, i: nat)
    requires i < |t| && t[i] == '\n'
    ensures t == t[..i] + ("\n" + t[i + 1..])
  {
  }

  // ---- fields ------------------------------------------------------------------------------------------------------

  ghost predicate AllJsSpace(t: string) { forall i | 0 <= i < |t| :: JsSpace(t[i]) }

  lemma {:induction false} TrimStartIs(t: string)
    ensures var r := TrimStart(t);
            && |r| <= |t| && AllJsSpace(t[..|t| - |r|]) && r == t[|t| - |r|..]
            && (r == "" || !JsSpace(r[0]))
  {
    if t != "" && JsSpace(t[0]) {
      TrimStartIs(t[1..]);
      assert forall i | 1 <= i < |t| :: t[i] == t[1..][i - 1];
    }
  }

  lemma {:induction false} TrimEndIs(t: string)
    ensures var r := TrimEnd(t); r <= t && AllJsSpace(t[|r|..]) && (r == "" || !JsSpace(r[|r| - 1]))
    decreases |t|
  {
    if t != "" && JsSpace(t[|t| - 1]) {
      TrimEndIs(t[..|t| - 1]);
    }
  }

  /** trim takes the white space at both ends, and nothing else. */
  lemma JsTrimIs(t: string)
    ensures exists a, b :: AllJsSpace(a) && AllJsSpace(b) && t == a + JsTrim(t) + b
    ensures var r := JsTrim(t); r == "" || (!JsSpace(r[0]) && !JsSpace(r[|r| - 1]))
  {
    hide TrimStart, TrimEnd, AllJsSpace;
    var u, r := TrimStart(t), JsTrim(t);
    TrimStartIs(t);
    TrimEndIs(u);
    assert t == t[..|t| - |u|] + r + u[|r|..];
  }

  predicate EventLine(line: string) { StartsWith(line, "event:") }

  predicate DataLine(line: string) { StartsWith(line, "data:") }

  lemma KindsDiffer(line: string)
    ensures EventLine(line) ==> |line| >= 6 && !DataLine(line)
    ensures DataLine(line) ==> |line| >= 5 && !EventLine(line)
  {
    if EventLine(line) { assert line[..6][0] == 'e'; }
    if DataLine(line) { assert line[..5][0] == 'd'; }
  }

  /** The data lines' values one behind the other. */
  function DataOf(lines: seq<string>): string
    decreases |lines|
  {
    if lines == [] then ""
    else
      var last := lines[|lines| - 1];
      DataOf(lines[..|lines| - 1]) + if DataLine(last) then (KindsDiffer(last); TrimStart(last[5..])) else ""
  }

  ghost predicate LastEvent(lines: seq<string>, i: nat) {
    i < |lines| && EventLine(lines[i]) && forall j | i < j < |lines| :: !EventLine(lines[j])
  }

  lemma {:induction false} ReadSnoc(f: Fields, lines: seq<string>, last: string)
    ensures ReadLines(f, lines + [last]) == ReadLine(ReadLines(f, lines), last)
    decreases |lines|
  {
    hide ReadLine;
    if lines == [] {
      assert ([] + [last])[1..] == [] && ReadLines(ReadLine(f, last), []) == ReadLine(f, last);
    } else {
      assert (lines + [last])[1..] == lines[1..] + [last];
      ReadSnoc(ReadLine(f, lines[0]), lines[1..], last);
    }
  }

  /** A block's data are the values of its data lines, and its event the value of its last event line. */
  lemma {:induction false} FieldsAre(lines: seq<string>)
    ensures var f := ReadLines(Fields("message", ""), lines);
            && f.data == DataOf(lines)
            && (forall i: nat | LastEvent(lines, i) :: |lines[i]| >= 6 && f.event == JsTrim(lines[i][6..]))
            && ((forall i | 0 <= i < |lines| :: !EventLine(lines[i])) ==> f.event == "message")
    decreases |lines|
  {
    hide JsTrim, TrimStart, StartsWith;
    if lines != [] {
      var init, last := lines[..|lines| - 1], lines[|lines| - 1];
      assert lines == init + [last];
      FieldsAre(init);
      ReadSnoc(Fields("message", ""), init, last);
      KindsDiffer(last);
      forall i: nat | LastEvent(lines, i) ensures i < |init| ==> LastEvent(init, i) {}
      assert forall i | 0 <= i < |init| :: init[i] == lines[i];
      forall i: nat | LastEvent(lines, i) ensures |lines[i]| >= 6 { KindsDiffer(lines[i]); }
    }
  }

  // ---- callbacks ---------------------------------------------------------------------------------------------------

  ghost predicate Parses(t: string) { exists v :: IsText(t, v) }

  lemma ParsesIs(t: string)
    ensures Loads(t).Some? <==> Parses(t)
    ensures Loads(t).Some? ==> IsText(t, Loads(t).value)
    ensures forall v | IsText(t, v) :: Loads(t) == Some(v)
  {
    hide Loads, IsText;
    forall v ensures Loads(t) == Some(v) <==> IsText(t, v) { LoadsExactly(t, v); }
    if Loads(t).Some? { assert IsText(t, Loads(t).value); }
  }

  /** The callbacks of a block with data, by event; v is the value its data are a text of, if they are one. */
  lemma DeliverIs(f: Fields, v: JSON)
    requires f.data != "" && (Parses(f.data) ==> IsText(f.data, v))
    ensures f.event == "citations" ==> Deliver(f) == if Parses(f.data) then [OnCitations(v)] else []
    ensures f.event == "token" ==>
              Deliver(f) == if Parses(f.data) && v.JObject? && Get(v.members, "text").Some? && Truthy(Get(v.members, "text").value)
                            then [OnToken(Get(v.members, "text").value)] else []
    ensures f.event == "error" ==>
              Deliver(f) == if Parses(f.data) && v.JObject? && Get(v.members, "error").Some? && Get(v.members, "error").value != JNull
                            then [OnError(Get(v.members, "error").value)] else [OnError(JString("stream error"))]
    ensures f.event !in {"citations", "token", "error"} ==> Deliver(f) == []
  {
    hide Loads, IsText, Truthy, Get, Parses;
    EventsDiffer();
    ParsesIs(f.data);
  }

  lemma EventsDiffer()
    ensures "citations" != "token" && "citations" != "error" && "token" != "error"
  {
    assert "citations"[0] == 'c' && "token"[0] == 't' && "error"[0] == 'e';
  }

  ghost predicate SomeNonZero(s: string) { exists i :: 0 <= i < |s| && s[i] != '0' }

  lemma {:induction false} NonZeroDigits(s: string, k: string)
    requires forall i | 0 <= i < |s| :: '0' <= s[i] <= '9'
    ensures NonZero(s + k) <==> SomeNonZero(s) || NonZero(k)
  {
    if s == "" {
      assert s + k == k;
    } else {
      assert (s + k)[1..] == s[1..] + k;
      NonZeroDigits(s[1..], k);
      if i :| 0 <= i < |s| && s[i] != '0' && s[0] == '0' { assert s[1..][i - 1] == s[i]; }
      if i :| 0 <= i < |s[1..]| && s[1..][i] != '0' { assert s[i + 1] != '0'; }
    }
  }

  lemma ExponentIsZero(n: Number)
    requires n.Valid()
    ensures !NonZero(n.ExponentText())
  {
  }

  lemma SignSkipped(c: char, k: string)
    requires c == '-' || c == '.'
    ensures NonZero([c] + k) <==> NonZero(k)
  {
    assert ([c] + k)[1..] == k;
  }

  /** A number is truthy exactly when a digit in front of its exponent is not zero. */
  lemma NumberTruthy(n: Number)
    requires n.Valid()
    ensures Truthy(JNumber(n.Text())) <==> SomeNonZero(n.whole) || (n.fraction.Some? && SomeNonZero(n.fraction.value))
  {
    hide NonZero, SomeNonZero, Exponent.Valid;
    var tail := n.FractionText() + n.ExponentText();
    ExponentIsZero(n);
    NonZeroDigits(n.whole, tail);
    SignSkipped('-', n.whole + tail);
    assert n.minus ==> n.Text() == ['-'] + (n.whole + tail);
    assert !n.minus ==> n.Text() == n.whole + tail;
    if n.fraction.Some? {
      assert tail == ['.'] + (n.fraction.value + n.ExponentText());
      SignSkipped('.', n.fraction.value + n.ExponentText());
      NonZeroDigits(n.fraction.value, n.ExponentText());
    } else {
      assert tail == n.ExponentText();
    }
  }

  // ---- a stream that ends inside a block -----------------------------------------------------------------------------

  lemma SplitWhole(t: string)
    requires !Contains(t, SEP)
    ensures Split(t) == Pieces([], t)
  {
    SplitOnce(t);
  }

  lemma SeparatorAt(t: string, j: nat)
    ensures OccursAt(t, SEP, j) <==> j + 1 < |t| && t[j] == '\n' && t[j + 1] == '\n'
  {
    assert j + 1 < |t| ==> t[j..j + 2] == [t[j], t[j + 1]];
  }

  /** The first separator behind text that has none and does not end in a line feed. */
  lemma SplitAt(b: string, left: string)
    requires !Contains(b, SEP) && (b == "" || b[|b| - 1] != '\n')
    ensures Find(b + (SEP + left), SEP) == Some(|b|)
  {
    hide Find, OccursAt;
    var t := b + (SEP + left);
    SeparatorAt(t, |b|);
    forall j: nat | j < |b| ensures !OccursAt(t, SEP, j) {
      SeparatorAt(t, j);
      SeparatorAt(b, j);
    }
    FindIsFirst(t, SEP, |b|);
  }

  lemma HeadHasNone(a: string, b: string)
    requires !Contains(a + b, SEP)
    ensures !Contains(a, SEP)
  {
    hide OccursAt;
    forall j: nat ensures !OccursAt(a, SEP, j) {
      SeparatorAt(a, j);
      SeparatorAt(a + b, j);
    }
  }

  /** What a separator makes of an unfinished block: one block, and perhaps one more line feed. */
  lemma SplitClosed(b: string, left: string)
    requires !Contains(b + left, SEP) && (left == "" || left == "\n")
    requires b == "" || b[|b| - 1] != '\n'
    ensures Split(b + left + SEP) == Pieces([b], left)
  {
    hide Split, Find, OccursAt;
    var t := b + (SEP + left);
    assert b + left + SEP == t;
    HeadHasNone(b, left);
    SplitAt(b, left);
    SplitOnce(t);
    assert t[..|b|] == b && t[|b| + 2..] == left;
    ShortSplit(left);
    assert [b] + [] == [b];
  }

  lemma ShortSplit(left: string)
    requires left == "" || left == "\n"
    ensures Split(left) == Pieces([], left) && JsTrim(left) == ""
  {
    hide OccursAt, Find;
    forall i: nat ensures !OccursAt(left, SEP, i) { SeparatorAt(left, i); }
    SplitWhole(left);
    assert left == "\n" ==> left[1..] == "" && TrimStart(left) == TrimStart("");
  }

  lemma {:induction false} LinesThenFeed(t: string)
    ensures Lines(t + "\n") == Lines(t) + [""]
    decreases |t|
  {
    hide Find;
    match Find(t, "\n")
    case None =>
      NoLineFeed(t);
      LineFeedAt(t, "");
      assert t + ("\n" + "") == t + "\n";
      assert (t + "\n")[..|t|] == t && (t + "\n")[|t| + 1..] == "";
      OneLine();
    case Some(i) =>
      FirstLineFeed(t, i);
      LineFeedAt(t[..i], t[i + 1..] + "\n");
      assert t + "\n" == t[..i] + ("\n" + (t[i + 1..] + "\n"));
      assert (t + "\n")[..i] == t[..i] && (t + "\n")[i + 1..] == t[i + 1..] + "\n";
      LinesThenFeed(t[i + 1..]);
  }

  lemma OneLine()
    ensures Lines("") == [""]
  {
    hide OccursAt;
    forall i: nat ensures !OccursAt("", "\n", i) { FeedAt("", i); }
  }

  lemma LineFeedAt(a: string, b: string)
    requires '\n' !in a
    ensures Find(a + ("\n" + b), "\n") == Some(|a|)
  {
    hide Find, OccursAt;
    var t := a + ("\n" + b);
    FeedAt(t, |a|);
    forall j: nat | j < |a| ensures !OccursAt(t, "\n", j) { FeedAt(t, j); }
    FindIsFirst(t, "\n", |a|);
  }

  lemma FeedIgnored(t: string)
    ensures Dispatch(t + "\n") == Dispatch(t)
  {
    hide Lines, ReadLines, Deliver;
    LinesThenFeed(t);
    ReadSnoc(Fields("message", ""), Lines(t), "");
  }

  lemma BlankIsNoData(line: string)
    requires AllJsSpace(line)
    ensures !DataLine(line)
  {
    assert |line| >= 5 ==> line[..5][0] == line[0] && "data:"[0] == 'd';
  }

  /** A blank block fires nothing. */
  lemma {:induction false} BlankLines(lines: seq<string>)
    requires forall i | 0 <= i < |lines| :: AllJsSpace(lines[i])
    ensures DataOf(lines) == ""
    decreases |lines|
  {
    if lines != [] {
      BlankLines(lines[..|lines| - 1]);
      BlankIsNoData(lines[|lines| - 1]);
    }
  }

  lemma {:induction false} BlankParts(lines: seq<string>)
    requires lines != [] && AllJsSpace(Joined(lines))
    ensures forall i | 0 <= i < |lines| :: AllJsSpace(lines[i])
    decreases |lines|
  {
    if |lines| > 1 {
      var t, rest := Joined(lines), Joined(lines[1..]);
      assert forall i | 0 <= i < |lines[0]| :: t[i] == lines[0][i];
      assert forall i | 0 <= i < |rest| :: t[|lines[0]| + 1 + i] == rest[i];
      BlankParts(lines[1..]);
      assert forall i | 1 <= i < |lines| :: lines[i] == lines[1..][i - 1];
    }
  }

  lemma BlankFires(t: string)
    requires JsTrim(t) == ""
    ensures Dispatch(t) == []
  {
    hide Lines, ReadLines, JsTrim, JsSpace;
    JsTrimIs(t);
    var a, b :| AllJsSpace(a) && AllJsSpace(b) && t == a + JsTrim(t) + b;
    assert AllJsSpace(t);
    LinesAre(t);
    BlankParts(Lines(t));
    BlankLines(Lines(t));
    FieldsAre(Lines(t));
  }

  /** A buffer that holds no separator ends in one line feed at most. */
  lemma Unfinished(rest: string) returns (b: string, left: string)
    requires !Contains(rest, SEP)
    ensures rest == b + left && (left == "" || left == "\n") && (b == "" || b[|b| - 1] != '\n')
  {
    hide OccursAt;
    b, left := rest, "";
    if rest != "" && rest[|rest| - 1] == '\n' {
      b, left := rest[..|rest| - 1], "\n";
      if |rest| > 1 { SeparatorAt(rest, |rest| - 2); }
    }
  }

  /** The end of a stream closes an unfinished block exactly as a separator would, wherever the stream breaks off. */
  lemma ClosedByEnd(t: string)
    ensures Received(t) == Received(t + SEP)
  {
    hide Split, Dispatch, JsTrim, DispatchAll;
    var p := Split(t);
    SplitAppend(t, SEP);
    SplitMeaning(t);
    var rest := p.rest;
    var b, left := Unfinished(rest);
    assert rest == b + left;
    SplitClosed(b, left);
    ShortSplit(left);
    if left == "\n" { FeedIgnored(b); } else { assert b + "" == b; }
    assert Dispatch(b) == Dispatch(rest);
    if JsTrim(rest) == "" { BlankFires(rest); }
    DispatchAppend(p.blocks, [b]);
    DispatchCons(b, []);
    FiredNone();
    assert [b] + [] == [b] && Dispatch(b) + [] == Dispatch(b);
    AppendNothing(DispatchAll(p.blocks), Dispatch(b));
  }

  lemma AppendNothing(a: seq<Callback>, b: seq<Callback>)
    ensures a + b + [] + [OnDone] == a + b + [OnDone] && (b == [] ==> a + b == a + [])
  {
  }
}
