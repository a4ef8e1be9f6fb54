/** What the server streams is what the client's callbacks receive. */
module SseRoundTrip {
  import opened Text
  import opened Json
  import opened JsonText
  import opened ParseFacts
  import opened Sse

  // ---- the server ------------------------------------------------------------------------------------------------

  /** One server-sent event: an event field, a data field and an empty line. */
  function Frame(event: string, data: string): string { "event: " + event + ("\n" + ("data: " + data)) + SEP }

  function TokenValue(text: string): JSON { JObject([Member("text", JString(text))]) }

  function ErrorValue(message: string): JSON {
    JObject([Member("error", JString(if |message| > 200 then message[..200] else message))])
  }

  function TokenFrame(text: string): string { Frame("token", Print(TokenValue(text), Compact)) }

  function TokenFrames(tokens: seq<string>): string {
    if tokens == [] then "" else TokenFrame(tokens[0]) + TokenFrames(tokens[1..])
  }

  /** How generation ended: normally, or with an exception. */
  datatype Ending = Finished | Failed(message: string)

  function LastFrame(ending: Ending): string {
    match ending
    case Finished => Frame("done", "{}")
    case Failed(m) => Frame("error", Print(ErrorValue(m), Compact))
  }

  /** The whole response body: citations first, then a frame per token, then how it ended. */
  function Streamed(citations: JSON, tokens: seq<string>, ending: Ending): string {
    Frame("citations", Print(citations, Compact)) + (TokenFrames(tokens) + LastFrame(ending))
  }

  method ServeSse(citations: JSON, tokens: seq<string>, ending: Ending) returns (yielded: seq<string>)
    ensures Concat(yielded) == Streamed(citations, tokens, ending)
  {
    hide Frame, TokenFrame, LastFrame, Concat, TokenFrames, Print;
    yielded := [Frame("citations", Print(citations, Compact))];
    ghost var first := Frame("citations", Print(citations, Compact));
    ConcatOne(first);
    assert tokens[0..] == tokens;
    for i := 0 to |tokens|
      invariant Concat(yielded) + TokenFrames(tokens[i..]) == first + TokenFrames(tokens)
    {
      TokensStep(tokens, i);
      ConcatSnoc(yielded, TokenFrame(tokens[i]));
      yielded := yielded + [TokenFrame(tokens[i])];
    }
    NoTokens();
    assert tokens[|tokens|..] == [] && Concat(yielded) + "" == Concat(yielded);
    ConcatSnoc(yielded, LastFrame(ending));
    yielded := yielded + [LastFrame(ending)];
  }

  lemma NoTokens()
    ensures TokenFrames([]) == ""
  {
  }

  lemma TokensStep(tokens: seq<string>, i: nat)
    requires i < |tokens|
    ensures TokenFrames(tokens[i..]) == TokenFrame(tokens[i]) + TokenFrames(tokens[i + 1..])
  {
    hide TokenFrame;
    assert tokens[i..][1..] == tokens[i + 1..];
  }

  lemma ConcatOne(a: string)
    ensures Concat([a]) == a
  {
    assert [a][1..] == [] && a + "" == a;
  }

  lemma {:induction false} ConcatSnoc(chunks: seq<string>, last: string)
    ensures Concat(chunks + [last]) == Concat(chunks) + last
  {
    if chunks == [] {
      assert chunks + [last] == [last] && "" + last == last;
      ConcatOne(last);
    } else {
      ConcatSnoc(chunks[1..], last);
      assert (chunks + [last])[1..] == chunks[1..] + [last];
    }
  }

  // ---- the client on one frame -------------------------------------------------------------------------------------

  lemma NotNewline(t: string, j: nat)
    requires j < |t| && t[j] != '\n'
    ensures !OccursAt(t, "\n", j)
  {
    assert t[j..j + 1][0] == t[j];
  }

  lemma NoNewline(t: string)
    requires '\n' !in t
    ensures Find(t, "\n") == None
  {
    hide Find;
    forall j: nat ensures !OccursAt(t, "\n", j) { if j < |t| { NotNewline(t, j); } }
  }

  lemma LinesOfOne(t: string)
    requires '\n' !in t
    ensures Lines(t) == [t]
  {
    hide Find;
    NoNewline(t);
  }

  lemma FirstNewline(x: string, y: string)
    requires '\n' !in x
    ensures Find(x + ("\n" + y), "\n") == Some(|x|)
  {
    hide Find;
    var t := x + ("\n" + y);
    assert t[|x|..|x| + 1] == "\n";
    forall j: nat | j < |x| ensures !OccursAt(t, "\n", j) { NotNewline(t, j); }
    FindIsFirst(t, "\n", |x|);
  }

  lemma LinesOfTwo(x: string, y: string)
    requires '\n' !in x && '\n' !in y
    ensures Lines(x + ("\n" + y)) == [x, y]
  {
    hide Find;
    var t := x + ("\n" + y);
    FirstNewline(x, y);
    assert t[..|x|] == x && t[|x| + 1..] == y;
    LinesOfOne(y);
  }

  lemma NoSeparator(x: string, y: string)
    requires '\n' !in x && '\n' !in y && y != ""
    ensures !Contains(x + ("\n" + y) + "\n", SEP)
  {
    var t := x + ("\n" + y) + "\n";
    forall j: nat ensures !OccursAt(t, SEP, j) {
      if j + 2 <= |t| {
        assert t[j..j + 2][0] == t[j] && t[j..j + 2][1] == t[j + 1];
        assert j < |x| ==> t[j] == x[j];
        assert j == |x| ==> t[j + 1] == y[0];
        assert j > |x| ==> t[j] == y[j - |x| - 1];
      }
    }
  }

  /** The event names the server uses. */
  predicate EventName(e: string) { e == "citations" || e == "token" || e == "error" || e == "done" }

  lemma EventField(e: string)
    requires EventName(e)
    ensures JsTrim(("event: " + e)[6..]) == e && StartsWith("event: " + e, "event:") && '\n' !in "event: " + e
  {
    hide StartsWith;
    assert ("event: " + e)[6..] == " " + e;
    EventTrimmed(e);
    assert ("event: " + e)[..6] == "event:" by { EventPrefix(e); }
    EventStarts(e);
  }

  lemma EventPrefix(e: string)
    ensures ("event: " + e)[..6] == "event:"
  {
    assert "event: " == "event:" + " ";
  }

  lemma EventStarts(e: string)
    ensures StartsWith("event: " + e, "event:")
  {
    EventPrefix(e);
  }

  lemma EventTrimmed(e: string)
    requires EventName(e)
    ensures JsTrim(" " + e) == e
  {
    assert (" " + e)[1..] == e;
    assert !JsSpace(e[0]) && !JsSpace(e[|e| - 1]);
    assert TrimStart(e) == e && TrimEnd(e) == e;
  }

  lemma DataField(d: string)
    requires d != "" && !JsSpace(d[0])
    ensures TrimStart(("data: " + d)[5..]) == d && StartsWith("data: " + d, "data:") && !StartsWith("data: " + d, "event:")
  {
    assert "data: " == "data:" + " ";
    assert ("data: " + d)[..5] == "data:";
    assert ("data: " + d)[5..] == " " + d;
    assert (" " + d)[1..] == d;
    assert ("data: " + d)[0] == 'd' && "event:"[0] == 'e';
    assert TrimStart(d) == d;
  }

  /** The fields of a frame's block are the event and the data it was built from. */
  lemma BlockFields(e: string, d: string)
    requires EventName(e) && d != "" && '\n' !in d && !JsSpace(d[0])
    ensures Dispatch("event: " + e + ("\n" + ("data: " + d))) == Deliver(Fields(e, d))
  {
    hide Lines, JsTrim, TrimStart, StartsWith, Deliver;
    var x, y := "event: " + e, "data: " + d;
    EventField(e);
    DataField(d);
    LinesOfTwo(x, y);
    TwoLines(Fields("message", ""), x, y);
    NotData(e);
    assert "" + d == d;
  }

  lemma TwoLines(f: Fields, x: string, y: string)
    ensures ReadLines(f, [x, y]) == ReadLine(ReadLine(f, x), y)
  {
    hide ReadLine;
    var g := ReadLine(f, x);
    assert [x, y][1..] == [y] && [y][1..] == [];
    assert ReadLines(g, [y]) == ReadLines(ReadLine(g, y), []);
  }

  lemma NotData(e: string)
    ensures !StartsWith("event: " + e, "data:")
  {
    assert ("event: " + e)[0] == 'e' && "data:"[0] == 'd';
  }

  /** A frame at the start of a text is its first block. */
  lemma FrameFirst(e: string, d: string, k: string)
    requires EventName(e) && d != "" && '\n' !in d && !JsSpace(d[0])
    ensures DispatchAll(Split(Frame(e, d) + k).blocks) == Deliver(Fields(e, d)) + DispatchAll(Split(k).blocks)
    ensures Split(Frame(e, d) + k).rest == Split(k).rest
  {
    hide Split, Dispatch, Deliver, DispatchAll, Find, Contains;
    var b := "event: " + e + ("\n" + ("data: " + d));
    EventField(e);
    NoSeparator("event: " + e, "data: " + d);
    FindAfterBlock(b, k);
    var t := b + (SEP + k);
    assert Frame(e, d) + k == t;
    SplitOnce(t);
    assert t[..|b|] == b && t[|b| + 2..] == k;
    DispatchCons(b, Split(k).blocks);
    BlockFields(e, d);
  }

  lemma PrintedData(v: JSON)
    requires WellFormed(v)
    ensures var d := Print(v, Compact); d != "" && '\n' !in d && !JsSpace(d[0]) && Loads(d) == Some(v)
  {
    hide PrintTo, Loads, ValidNumber, WellFormed, NumbersValid;
    WellFormedNumbers(v);
    PrintedLacks('\n', v, Compact);
    DumpsLoads(v, Compact);
    StartsVisible(v);
  }

  lemma StartsVisible(v: JSON)
    requires NumbersValid(v)
    ensures var d := Print(v, Compact); d != "" && !JsSpace(d[0])
  {
    match v
    case JNumber(x) => NumberThen(x, "");
    case _ =>
  }

  /** A printed value at the start of a stream is delivered under its event. */
  lemma ValueFrame(e: string, v: JSON, k: string)
    requires EventName(e) && WellFormed(v)
    ensures var t := Frame(e, Print(v, Compact)) + k;
            && DispatchAll(Split(t).blocks) == Deliver(Fields(e, Print(v, Compact))) + DispatchAll(Split(k).blocks)
            && Split(t).rest == Split(k).rest
            && Print(v, Compact) != "" && Loads(Print(v, Compact)) == Some(v)
  {
    hide Frame, Print, Split, Deliver, DispatchAll, WellFormed, EventName, Loads;
    PrintedData(v);
    FrameFirst(e, Print(v, Compact), k);
  }

  lemma EventNames()
    ensures EventName("citations") && EventName("token") && EventName("error") && EventName("done")
    ensures "token" != "citations" && "error" != "citations" && "error" != "token"
    ensures "done" != "citations" && "done" != "token" && "done" != "error"
  {
    assert "token"[0] == 't' && "error"[0] == 'e' && "citations"[0] == 'c' && "done"[0] == 'd';
  }

  lemma CitationsDelivered(v: JSON, d: string)
    requires d != "" && Loads(d) == Some(v)
    ensures Deliver(Fields("citations", d)) == [OnCitations(v)]
  {
    hide Loads;
  }

  lemma TokenDelivered(text: string, d: string)
    requires d != "" && Loads(d) == Some(TokenValue(text))
    ensures Deliver(Fields("token", d)) == if text == "" then [] else [OnToken(JString(text))]
  {
    hide Loads;
    EventNames();
    OneMember("text", JString(text));
  }

  lemma OneMember(key: string, v: JSON)
    ensures Property(JObject([Member(key, v)]), key) == Some(v)
    ensures WellFormed(v) ==> WellFormed(JObject([Member(key, v)]))
  {
  }

  lemma ErrorDelivered(message: string, d: string)
    requires d != "" && Loads(d) == Some(ErrorValue(message))
    ensures Deliver(Fields("error", d)) == [OnError(JString(if |message| > 200 then message[..200] else message))]
  {
    hide Loads;
    EventNames();
    OneMember("error", JString(if |message| > 200 then message[..200] else message));
  }

  // ---- the whole stream --------------------------------------------------------------------------------------------

  /** The callbacks the tokens fire: one for each, except that an empty text fires none. */
  function TokenCallbacks(tokens: seq<string>): seq<Callback> {
    if tokens == [] then []
    else (if tokens[0] == "" then [] else [OnToken(JString(tokens[0]))]) + TokenCallbacks(tokens[1..])
  }

  function EndingCallbacks(ending: Ending): seq<Callback> {
    match ending
    case Finished => []
    case Failed(m) => [OnError(JString(if |m| > 200 then m[..200] else m))]
  }

  lemma TokenReceived(text: string, k: string)
    ensures var t := TokenFrame(text) + k;
            && DispatchAll(Split(t).blocks) == (if text == "" then [] else [OnToken(JString(text))]) + DispatchAll(Split(k).blocks)
            && Split(t).rest == Split(k).rest
  {
    hide Frame, Print, Split, Deliver, DispatchAll, Loads;
    EventNames();
    OneMember("text", JString(text));
    ValueFrame("token", TokenValue(text), k);
    TokenDelivered(text, Print(TokenValue(text), Compact));
  }

  lemma {:induction false} TokensReceived(tokens: seq<string>, k: string)
    ensures var t := TokenFrames(tokens) + k;
            && DispatchAll(Split(t).blocks) == TokenCallbacks(tokens) + DispatchAll(Split(k).blocks)
            && Split(t).rest == Split(k).rest
  {
    hide TokenFrame, Split, DispatchAll;
    if tokens == [] {
      assert TokenFrames(tokens) + k == k;
    } else {
      TokensReceived(tokens[1..], k);
      TokenReceived(tokens[0], TokenFrames(tokens[1..]) + k);
      assert TokenFrames(tokens) + k == TokenFrame(tokens[0]) + (TokenFrames(tokens[1..]) + k);
    }
  }

  lemma EndReceived(ending: Ending)
    ensures DispatchAll(Split(LastFrame(ending)).blocks) == EndingCallbacks(ending) && Split(LastFrame(ending)).rest == ""
  {
    hide Frame, Print, Split, Deliver, DispatchAll, Loads;
    EventNames();
    NothingLeft();
    var t := LastFrame(ending);
    assert t + "" == t;
    match ending
    case Finished =>
      FrameFirst("done", "{}", "");
      DoneDelivered();
      assert [] + DispatchAll(Split("").blocks) == [];
    case Failed(m) =>
      var v := ErrorValue(m);
      OneMember("error", JString(if |m| > 200 then m[..200] else m));
      ValueFrame("error", v, "");
      ErrorDelivered(m, Print(v, Compact));
  }

  lemma NothingLeft()
    ensures Split("") == Pieces([], "") && DispatchAll([]) == []
  {
    StreamStart([]);
  }

  lemma DoneDelivered()
    ensures Deliver(Fields("done", "{}")) == []
  {
    hide Loads;
    EventNames();
  }

  /**
   Encode, then decode: the callbacks are the citations, then every non-empty token in order, then the error if
   generation failed, then done, once. With ChatStream this holds for every way of cutting the stream.
   */
  lemma StreamRoundTrip(citations: JSON, tokens: seq<string>, ending: Ending)
    requires WellFormed(citations)
    ensures Received(Streamed(citations, tokens, ending))
         == [OnCitations(citations)] + (TokenCallbacks(tokens) + EndingCallbacks(ending)) + [OnDone]
  {
    hide Frame, Print, Split, Deliver, DispatchAll, Loads, TokenFrames, LastFrame, WellFormed;
    EventNames();
    var k := TokenFrames(tokens) + LastFrame(ending);
    ValueFrame("citations", citations, k);
    CitationsDelivered(citations, Print(citations, Compact));
    TokensReceived(tokens, LastFrame(ending));
    EndReceived(ending);
    NothingTrimmed();
    var fired := [OnCitations(citations)] + (TokenCallbacks(tokens) + EndingCallbacks(ending));
    assert fired + [] + [OnDone] == fired + [OnDone];
  }

  lemma NothingTrimmed()
    ensures JsTrim("") == ""
  {
  }

  /** Server and client together, whatever the chunking in between. */
  method Chat(citations: JSON, tokens: seq<string>, ending: Ending, chunks: seq<string>) returns (fired: seq<Callback>)
    requires WellFormed(citations) && Concat(chunks) == Streamed(citations, tokens, ending)
    ensures fired == [OnCitations(citations)] + (TokenCallbacks(tokens) + EndingCallbacks(ending)) + [OnDone]
  {
    hide Streamed, Concat, WellFormed, TokenCallbacks, EndingCallbacks;
    fired := ChatStream(chunks);
    StreamRoundTrip(citations, tokens, ending);
  }
}
