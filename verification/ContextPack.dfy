/** Packing retrieved memories into the chat prompt under a character budget. */
module ContextPack {
  import opened Text
  import opened Numerals

  const ELLIPSIS := '\U{2026}'
  const GAP := "\n\n"
  const CITATION_LIMIT := 400

  function Truncate(text: string, limit: nat): string {
    var t := Strip(text);
    if |t| <= limit then t else RStrip(t[..limit]) + [ELLIPSIS]
  }

  /**
   The stripped text if it is not over the limit; otherwise its first limit characters, without the white space at
   their end, and an ellipsis.
   */
  lemma TruncateMeaning(text: string, limit: nat)
    ensures var t, r := Strip(text), Truncate(text, limit);
            && StrippedFrom(text, t)
            && (|t| <= limit ==> r == t)
            && (|t| > limit ==>
                  && r != "" && r[|r| - 1] == ELLIPSIS
                  && var h := r[..|r| - 1];
                     h <= t[..limit] && AllSpace(t[|h|..limit]) && (h == "" || !IsSpace(h[|h| - 1])))
  {
    hide Strip;
    var t := Strip(text);
    StripMeaning(text);
    if |t| > limit {
      var h := RStrip(t[..limit]);
      assert Truncate(text, limit)[..|h|] == h;
      assert t[..limit][|h|..] == t[|h|..limit];
    }
  }

  /** A retrieved memory: its content and whatever else the client is shown. */
  datatype Memory = Memory(content: string, rest: string)

  datatype Citation = Citation(ref: string, content: string, rest: string)

  /** The reference of the memory at index i, counted from one. */
  function Ref(i: nat): string { "m" + Decimal(i + 1) }

  function Block(memories: seq<Memory>, i: nat, limit: nat): string
    requires i < |memories|
  {
    "[" + Ref(i) + "] " + Truncate(memories[i].content, limit)
  }

  predicate Blank(memories: seq<Memory>, i: nat, limit: nat)
    requires i < |memories|
  {
    Truncate(memories[i].content, limit) == ""
  }

  method FormatCitations(memories: seq<Memory>) returns (citations: seq<Citation>)
    ensures |citations| == |memories|
    ensures forall i | 0 <= i < |memories| ::
              citations[i] == Citation(Ref(i), Truncate(memories[i].content, CITATION_LIMIT), memories[i].rest)
  {
    hide Truncate, Ref;
    citations := [];
    for i := 0 to |memories|
      invariant |citations| == i
      invariant forall j | 0 <= j < i ::
                  citations[j] == Citation(Ref(j), Truncate(memories[j].content, CITATION_LIMIT), memories[j].rest)
    {
      citations := citations + [Citation(Ref(i), Truncate(memories[i].content, CITATION_LIMIT), memories[i].rest)];
    }
  }

  // ---- specification -----------------------------------------------------------------------------------------------

  /** The blocks of the memories from index i on that are not blank after truncation, in order. */
  function Blocks(memories: seq<Memory>, i: nat, limit: nat): seq<string>
    requires i <= |memories|
    decreases |memories| - i
  {
    if i == |memories| then []
    else (if Blank(memories, i, limit) then [] else [Block(memories, i, limit)]) + Blocks(memories, i + 1, limit)
  }

  /** What blocks cost, each with the two line feeds behind it. */
  function Cost(blocks: seq<string>): nat {
    if blocks == [] then 0 else Cost(blocks[..|blocks| - 1]) + |blocks[|blocks| - 1]| + 2
  }

  /** "\n\n".join(blocks) */
  function JoinGap(blocks: seq<string>): string {
    if blocks == [] then ""
    else if |blocks| == 1 then blocks[0]
    else JoinGap(blocks[..|blocks| - 1]) + GAP + blocks[|blocks| - 1]
  }

  /**
   k blocks are taken: the first whatever it costs, more as long as all of them fit, and k is not the whole list
   only if one more would not have fitted.
   */
  predicate Greedy(blocks: seq<string>, k: nat, total: int) {
    && k <= |blocks| && (blocks != [] ==> k > 0)
    && (k > 1 ==> Cost(blocks[..k]) <= total)
    && (k < |blocks| ==> Cost(blocks[..k + 1]) > total)
  }

  function Packed(blocks: seq<string>): string { if blocks == [] then "(none)" else JoinGap(blocks) }

  // ---- the packer ----------------------------------------------------------------------------------------------------

  lemma CostSnoc(blocks: seq<string>, b: string)
    ensures Cost(blocks + [b]) == Cost(blocks) + |b| + 2
  {
    assert (blocks + [b])[..|blocks|] == blocks;
  }

  lemma BlocksStep(memories: seq<Memory>, i: nat, limit: nat, lines: seq<string>)
    requires i < |memories|
    ensures lines + Blocks(memories, i, limit)
         == (if Blank(memories, i, limit) then lines else lines + [Block(memories, i, limit)]) + Blocks(memories, i + 1, limit)
  {
    hide Block, Blank;
  }

  /** The included blocks are the longest greedy prefix of the blocks of the non-blank memories. */
  method PackContext(memories: seq<Memory>, limit: nat, total: int) returns (context: string)
    ensures var all := Blocks(memories, 0, limit);
            && (exists k: nat :: Greedy(all, k, total) && context == Packed(all[..k]))
            && (all != [] ==> |context| <= if |all[0]| > total - 2 then |all[0]| else total - 2)
  {
    hide Truncate, Ref, Block, Blank, Blocks, Cost;
    ghost var all := Blocks(memories, 0, limit);
    var lines: seq<string> := [];
    var used := 0;
    var i := 0;
    CostNone();
    while i < |memories|
      invariant i <= |memories|
      invariant lines + Blocks(memories, i, limit) == all
      invariant used == Cost(lines) && (|lines| > 1 ==> used <= total)
    {
      BlocksStep(memories, i, limit, lines);
      var snippet := Truncate(memories[i].content, limit);
      BlankIs(memories, i, limit);
      if snippet != "" {
        var block := "[" + Ref(i) + "] " + snippet;
        var cost := |block| + 2;
        CostSnoc(lines, block);
        if used + cost > total && lines != [] {
          StoppedHere(all, lines, block, Blocks(memories, i + 1, limit), total);
          LengthBound(all, |lines|, total);
          context := JoinGap(lines);
          return;
        }
        lines := lines + [block];
        used := used + cost;
      }
      i := i + 1;
    }
    NothingLeft(memories, limit);
    assert lines + [] == lines;
    assert all[..|lines|] == lines && Greedy(all, |lines|, total);
    if all != [] { LengthBound(all, |lines|, total); }
    context := if lines != [] then JoinGap(lines) else "(none)";
  }

  lemma CostNone()
    ensures Cost([]) == 0
  {
  }

  lemma BlankIs(memories: seq<Memory>, i: nat, limit: nat)
    requires i < |memories|
    ensures Blank(memories, i, limit) <==> Truncate(memories[i].content, limit) == ""
    ensures Block(memories, i, limit) == "[" + Ref(i) + "] " + Truncate(memories[i].content, limit)
  {
  }

  lemma NothingLeft(memories: seq<Memory>, limit: nat)
    ensures Blocks(memories, |memories|, limit) == []
  {
  }

  lemma StoppedHere(all: seq<string>, lines: seq<string>, block: string, rest: seq<string>, total: int)
    requires all == lines + [block] + rest && lines != [] && Cost(lines + [block]) > total
    requires |lines| > 1 ==> Cost(lines) <= total
    ensures Greedy(all, |lines|, total) && all[..|lines|] == lines
  {
    assert all[..|lines|] == lines && all[..|lines| + 1] == lines + [block];
  }

  // ---- what that means -------------------------------------------------------------------------------------------

  /** A block stands in the list exactly when it is the block of a memory that is not blank. */
  lemma {:induction false} BlocksAre(memories: seq<Memory>, i: nat, limit: nat, b: string)
    requires i <= |memories|
    ensures b in Blocks(memories, i, limit) <==>
              exists j :: i <= j < |memories| && !Blank(memories, j, limit) && b == Block(memories, j, limit)
    decreases |memories| - i
  {
    hide Block, Blank;
    if i < |memories| { BlocksAre(memories, i + 1, limit, b); }
  }

  lemma {:induction false} JoinLength(blocks: seq<string>)
    requires blocks != []
    ensures |JoinGap(blocks)| == Cost(blocks) - 2
  {
    if |blocks| == 1 {
      assert blocks[..0] == [];
    } else {
      JoinLength(blocks[..|blocks| - 1]);
    }
  }

  /** The packed context is no longer than the budget less one gap, or than its first block if that is longer. */
  lemma LengthBound(blocks: seq<string>, k: nat, total: int)
    requires Greedy(blocks, k, total) && blocks != []
    ensures |Packed(blocks[..k])| <= if |blocks[0]| > total - 2 then |blocks[0]| else total - 2
  {
    hide JoinGap, Cost;
    JoinLength(blocks[..k]);
    if k == 1 {
      assert blocks[..1] == [] + [blocks[0]];
      CostNone();
      CostSnoc([], blocks[0]);
    }
  }

  lemma {:induction false} CostGrows(blocks: seq<string>, j: nat, k: nat)
    requires j <= k <= |blocks|
    ensures Cost(blocks[..j]) <= Cost(blocks[..k])
    decreases k
  {
    hide Cost;
    if j < k {
      CostGrows(blocks, j, k - 1);
      assert blocks[..k] == blocks[..k - 1] + [blocks[k - 1]];
      CostSnoc(blocks[..k - 1], blocks[k - 1]);
    }
  }

  /** There is only one greedy prefix, so the packer has no choice. */
  lemma GreedyUnique(blocks: seq<string>, j: nat, k: nat, total: int)
    requires Greedy(blocks, j, total) && Greedy(blocks, k, total)
    ensures j == k
  {
    hide Cost;
    if j < k { CostGrows(blocks, j + 1, k); }
    if k < j { CostGrows(blocks, k + 1, j); }
  }

  /** The positions of the memories that are not blank. */
  ghost function BlocksAt(memories: seq<Memory>, i: nat, limit: nat): seq<nat>
    requires i <= |memories|
    decreases |memories| - i
  {
    if i == |memories| then [] else (if Blank(memories, i, limit) then [] else [i]) + BlocksAt(memories, i + 1, limit)
  }

  /** The blocks are those of exactly the memories that are not blank, each once and in the order of the memories. */
  lemma {:induction false} BlocksInOrder(memories: seq<Memory>, i: nat, limit: nat)
    requires i <= |memories|
    ensures var at, blocks := BlocksAt(memories, i, limit), Blocks(memories, i, limit);
            && |at| == |blocks|
            && (forall k | 0 <= k < |at| :: i <= at[k] < |memories| && blocks[k] == Block(memories, at[k], limit))
            && (forall j, k | 0 <= j < k < |at| :: at[j] < at[k])
            && (forall j: nat | i <= j < |memories| :: j in at <==> !Blank(memories, j, limit))
    decreases |memories| - i
  {
    hide Block, Blank;
    if i < |memories| {
      BlocksInOrder(memories, i + 1, limit);
      var head: seq<nat> := if Blank(memories, i, limit) then [] else [i];
      assert BlocksAt(memories, i, limit) == head + BlocksAt(memories, i + 1, limit);
    }
  }

  /** Every block stands whole in the joined text, in order, with a gap behind all but the last. */
  lemma {:induction false} JoinedAt(blocks: seq<string>, k: nat)
    requires k < |blocks|
    ensures var t, at := JoinGap(blocks), Cost(blocks[..k]);
            && at + |blocks[k]| <= |t| && t[at..at + |blocks[k]|] == blocks[k]
            && (k + 1 < |blocks| ==> at + |blocks[k]| + 2 <= |t| && t[at + |blocks[k]|..at + |blocks[k]| + 2] == GAP)
            && (k + 1 == |blocks| ==> at + |blocks[k]| == |t|)
    decreases |blocks|
  {
    hide JoinGap, Cost;
    var init, last := blocks[..|blocks| - 1], blocks[|blocks| - 1];
    var at := Cost(blocks[..k]);
    JoinLength(blocks);
    CostSnoc(init, last);
    assert blocks == init + [last];
    if init == [] {
      CostNone();
      JoinOne(blocks);
      assert blocks[..0] == [];
    } else {
      JoinMore(blocks);
      JoinLength(init);
      if k == |init| {
        assert blocks[..k] == init;
      } else {
        JoinedAt(init, k);
        assert init[..k] == blocks[..k] && init[k] == blocks[k];
      }
    }
  }

  lemma JoinOne(blocks: seq<string>)
    requires |blocks| == 1
    ensures JoinGap(blocks) == blocks[0]
  {
  }

  lemma JoinMore(blocks: seq<string>)
    requires |blocks| > 1
    ensures JoinGap(blocks) == JoinGap(blocks[..|blocks| - 1]) + GAP + blocks[|blocks| - 1]
  {
  }

  /** Text up to a bracket is the same when the bracketed texts are and neither part has a bracket in it. */
  lemma LabelEnds(a: string, b: string, x: string, y: string)
    requires a + ("]" + x) == b + ("]" + y) && ']' !in a && ']' !in b
    ensures a == b
  {
    var t := a + ("]" + x);
    assert t[|a|] == ']' && t[|b|] == ']';
    assert forall i | 0 <= i < |a| :: t[i] == a[i];
    assert forall i | 0 <= i < |b| :: t[i] == b[i];
    assert t[..|a|] == a && t[..|b|] == b;
  }

  /** A label names one memory: a block that starts with the label of citation j is the block of memory j. */
  lemma LabelNamesMemory(memories: seq<Memory>, i: nat, j: nat, limit: nat, x: string)
    requires i < |memories| && Block(memories, i, limit) == "[" + Ref(j) + "] " + x
    ensures i == j
  {
    hide Truncate, Decimal;
    var t := Truncate(memories[i].content, limit);
    var a, b := "[m" + Decimal(i + 1), "[m" + Decimal(j + 1);
    assert Block(memories, i, limit) == a + ("]" + (" " + t));
    assert "[" + Ref(j) + "] " + x == b + ("]" + (" " + x));
    NoBracket(i + 1);
    NoBracket(j + 1);
    LabelEnds(a, b, " " + t, " " + x);
    assert a[2..] == Decimal(i + 1) && b[2..] == Decimal(j + 1);
    DecimalInjective(i + 1, j + 1);
  }

  lemma NoBracket(n: nat)
    ensures ']' !in "[m" + Decimal(n)
  {
  }
}
