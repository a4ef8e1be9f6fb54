/** The chat stream: server frames, and the client that splits them out of text chunks and fires callbacks. */
module Sse {
  import opened Text
  import opened Json
  import opened JsonText

  const SEP := "\n\n"

  // ---- splitting ---------------------------------------------------------------------------------------------

  datatype Pieces = Pieces(blocks: seq<string>, rest: string)

  /** The blocks a text completes, and what is left in the buffer. */
  function Split(t: string): Pieces
    decreases |t|
  {
    match Find(t, SEP)
    case None => Pieces([], t)
    case Some(i) => var more := Split(t[i + 2..]); Pieces([t[..i]] + more.blocks, more.rest)
  }

  function Concat(chunks: seq<string>): string {
    if chunks == [] then "" else chunks[0] + Concat(chunks[1..])
  }

  // ---- one block -----------------------------------------------------------------------------------------------

  /** White space for trim and trimStart of JavaScript strings. */
  predicate JsSpace(c: char) {
    var n := c as int;
    || 9 <= n <= 13 || n == 32 || n == 160 || n == 5760 || 8192 <= n <= 8202
    || n == 8232 || n == 8233 || n == 8239 || n == 8287 || n == 12288 || n == 65279
  }

  function TrimStart(t: string): string { if t != "" && JsSpace(t[0]) then TrimStart(t[1..]) else t }

  function TrimEnd(t: string): string
    decreases |t|
  {
    if t != "" && JsSpace(t[|t| - 1]) then TrimEnd(t[..|t| - 1]) else t
  }

  function JsTrim(t: string): string { TrimEnd(TrimStart(t)) }

  /** block.split("\n") */
  function Lines(t: string): (r: seq<string>)
    ensures r != []
    decreases |t|
  {
    match Find(t, "\n")
    case None => [t]
    case Some(i) => assert OccursAt(t, "\n", i); [t[..i]] + Lines(t[i + 1..])
  }

  datatype Fields = Fields(event: string, data: string)

  function ReadLine(f: Fields, line: string): Fields {
    if StartsWith(line, "event:") then f.(event := JsTrim(line[6..]))
    else if StartsWith(line, "data:") then f.(data := f.data + TrimStart(line[5..]))
    else f
  }

  /** The fields after the given lines. */
  function ReadLines(f: Fields, lines: seq<string>): Fields
    decreases |lines|
  {
    if lines == [] then f else ReadLines(ReadLine(f, lines[0]), lines[1..])
  }

  datatype Callback = OnCitations(value: JSON) | OnToken(text: JSON) | OnError(message: JSON) | OnDone

  /** A property of a parsed value; undefined unless it is an object that has it. */
  function Property(v: JSON, key: string): Option<JSON> {
    match v
    case JObject(ms) => Get(ms, key)
    case _ => None
  }

  predicate NonZero(x: string) {
    x != "" && x[0] != 'e' && x[0] != 'E' && ('1' <= x[0] <= '9' || NonZero(x[1..]))
  }

  predicate Truthy(v: JSON) {
    match v
    case JNull => false
    case JBool(b) => b
    case JNumber(x) => NonZero(x)
    case JString(s) => s != ""
    case _ => true
  }

  /** What a complete block fires. Reading a property of null throws, which the handlers catch. */
  function Deliver(f: Fields): seq<Callback> {
    if f.data == "" then []
    else if f.event == "citations" then
      match Loads(f.data)
      case Some(v) => [OnCitations(v)]
      case None => []
    else if f.event == "token" then
      match Loads(f.data)
      case Some(v) => (match Property(v, "text") case Some(x) => if Truthy(x) then [OnToken(x)] else [] case None => [])
      case None => []
    else if f.event == "error" then
      match Loads(f.data)
      case Some(v) =>
        (match Property(v, "error")
         case Some(x) => if x.JNull? then [OnError(JString("stream error"))] else [OnError(x)]
         case None => [OnError(JString("stream error"))])
      case None => [OnError(JString("stream error"))]
    else []
  }

  function Dispatch(block: string): seq<Callback> { Deliver(ReadLines(Fields("message", ""), Lines(block))) }

  function DispatchAll(blocks: seq<string>): seq<Callback> {
    if blocks == [] then [] else Dispatch(blocks[0]) + DispatchAll(blocks[1..])
  }

  /** Everything a stream of the given text fires, end included. */
  function Received(t: string): seq<Callback> {
    var p := Split(t);
    DispatchAll(p.blocks) + (if JsTrim(p.rest) != "" then Dispatch(p.rest) else []) + [OnDone]
  }

  // ---- the client's loops ----------------------------------------------------------------------------------------

  method DispatchSseBlock(block: string) returns (fired: seq<Callback>)
    ensures fired == Dispatch(block)
  {
    hide JsTrim, TrimStart, Lines, Deliver, StartsWith;
    var event := "message";
    var data := "";
    var lines := Lines(block);
    for i := 0 to |lines|
      invariant ReadLines(Fields(event, data), lines[i..]) == ReadLines(Fields("message", ""), lines)
    {
      var line := lines[i];
      assert lines[i..][1..] == lines[i + 1..];
      if StartsWith(line, "event:") {
        StartsLonger(line, "event:");
        event := JsTrim(line[6..]);
      } else if StartsWith(line, "data:") {
        StartsLonger(line, "data:");
        data := data + TrimStart(line[5..]);
      }
    }
    assert lines[|lines|..] == [];
    fired := Deliver(Fields(event, data));
  }

  lemma StartsLonger(t: string, p: string)
    requires StartsWith(t, p)
    ensures |p| <= |t|
  {
  }

  /** chatStream, fed with the decoded chunks the reader hands out. */
  method ChatStream(chunks: seq<string>) returns (fired: seq<Callback>)
    ensures fired == Received(Concat(chunks))
  {
    hide Split, DispatchAll, Dispatch, JsTrim, Concat, Find;
    fired := [];
    var buffer := "";
    ghost var seen := "";
    StreamStart(chunks);
    for i := 0 to |chunks|
      invariant seen + Concat(chunks[i..]) == Concat(chunks)
      invariant fired == DispatchAll(Split(seen).blocks) && buffer == Split(seen).rest
    {
      ChunkStep(chunks, i, seen);
      BufferGrows(seen, chunks[i]);
      ghost var before, grown := fired, buffer + chunks[i];
      seen := seen + chunks[i];
      buffer := buffer + chunks[i];
      FiredNone();
      while true
        invariant fired + DispatchAll(Split(buffer).blocks) == before + DispatchAll(Split(grown).blocks)
        invariant Split(buffer).rest == Split(grown).rest
        decreases |buffer|
      {
        SplitOnce(buffer);
        match Find(buffer, SEP) {
          case None => break;
          case Some(sep) =>
            var block := buffer[..sep];
            buffer := buffer[sep + 2..];
            var now := DispatchSseBlock(block);
            DispatchCons(block, Split(buffer).blocks);
            fired := fired + now;
        }
      }
      assert fired + [] == fired;
    }
    StreamEnd(chunks, seen);
    if JsTrim(buffer) != "" {
      var now := DispatchSseBlock(buffer);
      fired := fired + now;
    } else {
      assert fired + [] == fired;
    }
    fired := fired + [OnDone];
  }

  lemma StreamStart(chunks: seq<string>)
    ensures chunks[0..] == chunks && "" + Concat(chunks) == Concat(chunks)
    ensures Split("") == Pieces([], "") && DispatchAll([]) == []
  {
    assert forall i: nat :: !OccursAt("", SEP, i);
  }

  lemma FiredNone()
    ensures DispatchAll([]) == []
  {
  }

  lemma ChunkStep(chunks: seq<string>, i: nat, seen: string)
    requires i < |chunks|
    ensures seen + Concat(chunks[i..]) == seen + chunks[i] + Concat(chunks[i + 1..])
  {
    assert chunks[i..][1..] == chunks[i + 1..];
  }

  lemma StreamEnd(chunks: seq<string>, seen: string)
    requires seen + Concat(chunks[|chunks|..]) == Concat(chunks)
    ensures seen == Concat(chunks)
  {
    assert chunks[|chunks|..] == [] && seen + "" == seen;
  }

  lemma SplitOnce(t: string)
    ensures match Find(t, SEP)
            case None => Split(t) == Pieces([], t)
            case Some(i) => i + 2 <= |t| && Split(t) == Pieces([t[..i]] + Split(t[i + 2..]).blocks, Split(t[i + 2..]).rest)
  {
  }

  lemma DispatchCons(b: string, rest: seq<string>)
    ensures DispatchAll([b] + rest) == Dispatch(b) + DispatchAll(rest)
  {
    hide Dispatch;
    assert ([b] + rest)[1..] == rest;
  }

  /** More text behind a text that has a separator does not move its first separator. */
  lemma FirstStays(a: string, b: string, i: nat)
    requires Find(a, SEP) == Some(i) && i + 2 <= |a|
    ensures Find(a + b, SEP) == Some(i)
  {
    hide Find;
    FoundIs(a, i);
    SameBefore(a, b, i);
    FindIsFirst(a + b, SEP, i);
  }

  lemma FoundIs(a: string, i: nat)
    requires Find(a, SEP) == Some(i)
    ensures OccursAt(a, SEP, i) && forall j: nat | j < i :: !OccursAt(a, SEP, j)
  {
  }

  lemma SameBefore(a: string, b: string, i: nat)
    requires i + 2 <= |a|
    ensures forall j: nat | j <= i :: OccursAt(a + b, SEP, j) == OccursAt(a, SEP, j)
  {
    forall j: nat | j <= i ensures OccursAt(a + b, SEP, j) == OccursAt(a, SEP, j) { OccursLeft(a, b, SEP, j); }
  }

  /** Splitting more text is splitting what was left in the buffer together with it. */
  lemma {:induction false} SplitAppend(a: string, b: string)
    ensures var p, q := Split(a), Split(Split(a).rest + b);
            Split(a + b) == Pieces(p.blocks + q.blocks, q.rest)
    decreases |a|
  {
    hide Find, Split;
    SplitOnce(a);
    match Find(a, SEP)
    case None =>
      assert [] + Split(a + b).blocks == Split(a + b).blocks;
    case Some(i) =>
      FirstStays(a, b, i);
      SplitOnce(a + b);
      assert (a + b)[..i] == a[..i] && (a + b)[i + 2..] == a[i + 2..] + b;
      SplitAppend(a[i + 2..], b);
  }

  lemma {:induction false} DispatchAppend(a: seq<string>, b: seq<string>)
    ensures DispatchAll(a + b) == DispatchAll(a) + DispatchAll(b)
  {
    hide Dispatch, DispatchAll;
    if a == [] {
      FiredNone();
      assert a + b == b && [] + DispatchAll(b) == DispatchAll(b);
    } else {
      var h, t := a[0], a[1..];
      DispatchAppend(t, b);
      DispatchCons(h, t);
      DispatchCons(h, t + b);
      assert a == [h] + t && a + b == [h] + (t + b);
    }
  }

  lemma BufferGrows(seen: string, chunk: string)
    ensures DispatchAll(Split(seen + chunk).blocks)
         == DispatchAll(Split(seen).blocks) + DispatchAll(Split(Split(seen).rest + chunk).blocks)
    ensures Split(seen + chunk).rest == Split(Split(seen).rest + chunk).rest
  {
    hide Split, DispatchAll;
    SplitAppend(seen, chunk);
    DispatchAppend(Split(seen).blocks, Split(Split(seen).rest + chunk).blocks);
  }

  // ---- what a split is -------------------------------------------------------------------------------------------

  /** The text that blocks and a rest were split from. */
  function Rejoined(blocks: seq<string>, rest: string): string {
    if blocks == [] then rest else blocks[0] + (SEP + Rejoined(blocks[1..], rest))
  }

  /** A block holds no separator, not even with the line feed that follows it; the rest holds none. */
  ghost predicate ProperPieces(p: Pieces) {
    (forall i | 0 <= i < |p.blocks| :: !Contains(p.blocks[i] + "\n", SEP)) && !Contains(p.rest, SEP)
  }

  lemma NotInBlock(t: string, i: nat)
    requires Find(t, SEP) == Some(i) && i + 2 <= |t|
    ensures !Contains(t[..i] + "\n", SEP)
  {
    hide Find;
    FoundIs(t, i);
    assert t[i..i + 2] == "\n\n";
    assert t[..i + 1] == t[..i] + "\n";
    forall j: nat ensures !OccursAt(t[..i] + "\n", SEP, j) {
      if j + 2 <= i + 1 {
        assert t == t[..i + 1] + t[i + 1..];
        OccursLeft(t[..i + 1], t[i + 1..], SEP, j);
      }
    }
  }

  lemma RejoinedCons(b: string, more: seq<string>, rest: string)
    ensures Rejoined([b] + more, rest) == b + (SEP + Rejoined(more, rest))
  {
    assert ([b] + more)[1..] == more;
  }

  lemma ProperCons(b: string, more: seq<string>, rest: string)
    requires !Contains(b + "\n", SEP) && ProperPieces(Pieces(more, rest))
    ensures ProperPieces(Pieces([b] + more, rest))
  {
    hide Contains;
  }

  lemma {:induction false} SplitMeaning(t: string)
    ensures var p := Split(t); Rejoined(p.blocks, p.rest) == t && ProperPieces(p)
    decreases |t|
  {
    hide Find, Split, Contains, ProperPieces, Rejoined;
    SplitOnce(t);
    match Find(t, SEP)
    case None => NoBlocks(t);
    case Some(i) =>
      var more := Split(t[i + 2..]);
      SplitMeaning(t[i + 2..]);
      NotInBlock(t, i);
      ProperCons(t[..i], more.blocks, more.rest);
      RejoinedCons(t[..i], more.blocks, more.rest);
      FoundText(t, i);
  }

  lemma TextAround(t: string, i: nat, m: string)
    requires i + |m| <= |t| && t[i..i + |m|] == m
    ensures t == t[..i] + (m + t[i + |m|..])
  {
    var n := i + |m|;
    assert t[..n] == t[..i] + t[i..n];
    assert t == t[..n] + t[n..];
  }

  lemma FoundText(t: string, i: nat)
    requires Find(t, SEP) == Some(i) && i + 2 <= |t|
    ensures t == t[..i] + (SEP + t[i + 2..])
  {
    FoundIs(t, i);
    hide Find;
    TextAround(t, i, SEP);
  }

  lemma NoBlocks(t: string)
    requires Find(t, SEP) == None
    ensures Rejoined([], t) == t && ProperPieces(Pieces([], t))
  {
  }

  lemma SepAfterBlock(b: string, k: string)
    ensures b + (SEP + k) == b + "\n" + ("\n" + k) && OccursAt(b + (SEP + k), SEP, |b|)
  {
    var t := b + (SEP + k);
    assert SEP == "\n" + "\n";
    assert t[|b|..|b| + 2] == SEP;
  }

  lemma FindAfterBlock(b: string, k: string)
    requires !Contains(b + "\n", SEP)
    ensures Find(b + (SEP + k), SEP) == Some(|b|)
  {
    hide Find, OccursAt;
    var t := b + (SEP + k);
    SepAfterBlock(b, k);
    forall j: nat | j < |b| ensures !OccursAt(t, SEP, j) {
      OccursLeft(b + "\n", "\n" + k, SEP, j);
    }
    FindIsFirst(t, SEP, |b|);
  }

  /** The split is the only way to read a text as separated blocks and an unfinished rest. */
  lemma {:induction false} SplitUnique(p: Pieces)
    requires ProperPieces(p)
    ensures Split(Rejoined(p.blocks, p.rest)) == p
    decreases |p.blocks|
  {
    hide Find, Split, Contains;
    var t := Rejoined(p.blocks, p.rest);
    SplitOnce(t);
    if p.blocks == [] {
      NotThere(p.rest);
    } else {
      var b, more := p.blocks[0], Pieces(p.blocks[1..], p.rest);
      var k := Rejoined(more.blocks, p.rest);
      FindAfterBlock(b, k);
      assert t[..|b|] == b && t[|b| + 2..] == k;
      SplitUnique(more);
    }
  }

  lemma NotThere(t: string)
    requires !Contains(t, SEP)
    ensures Find(t, SEP) == None
  {
  }
}
