/** The block substitution as the regular expression sees it: leftmost, and no longer than it must be. */
module CodexRegex {
  import opened Text
  import opened CodexBlock

  predicate Parts(s: string, lead: string, body: string, tail: string) {
    && s == lead + BEGIN + body + END + tail
    && (forall k | 0 <= k < |lead| :: lead[k] == '\n') && (tail == "" || tail == "\n")
  }

  /** s is a word of \n* BEGIN .* END \n? */
  ghost predicate IsMatch(s: string) { exists lead, body, tail :: Parts(s, lead, body, tail) }

  ghost predicate MatchAt(t: string, i: nat, j: nat) { i <= j <= |t| && IsMatch(t[i..j]) }

  /** The match the expression finds: none begins further left, and none that begins there is shorter. */
  ghost predicate FirstMatch(t: string, i: nat, j: nat) {
    MatchAt(t, i, j) && forall x: nat, y: nat | MatchAt(t, x, y) :: i <= x && (x == i ==> j <= y)
  }

  /** Where the markers of a match stand. */
  predicate Spans(t: string, i: nat, p: nat, q: nat) {
    && i <= p && p + 24 <= q && q + 24 <= |t| && (forall k | i <= k < p :: t[k] == '\n')
    && OccursAt(t, BEGIN, p) && OccursAt(t, END, q)
  }

  lemma Slice(t: string, i: nat, j: nat, a: nat, b: nat)
    requires i <= j <= |t| && a <= b <= j - i
    ensures t[i..j][a..b] == t[i + a..i + b]
  {
    assert forall k | 0 <= k < b - a :: t[i..j][a..b][k] == t[i + a..i + b][k];
  }

  lemma Markers(lead: string, body: string, tail: string)
    ensures var s, m := lead + BEGIN + body + END + tail, |lead| + 24 + |body|;
            m + 24 <= |s| && s[|lead|..|lead| + 24] == BEGIN && s[m..m + 24] == END && s[..|lead|] == lead
  {
    hide BEGIN, END;
    MarkersHaveOneHash();
  }

  lemma PartsSpan(t: string, i: nat, j: nat, lead: string, body: string, tail: string)
    requires i <= j <= |t| && Parts(t[i..j], lead, body, tail)
    ensures var p := i + |lead|; var q := p + 24 + |body|; Spans(t, i, p, q) && q + 24 <= j
  {
    hide BEGIN, END;
    MarkersHaveOneHash();
    Markers(lead, body, tail);
    var m := |lead| + 24 + |body|;
    Slice(t, i, j, 0, |lead|);
    Slice(t, i, j, |lead|, |lead| + 24);
    Slice(t, i, j, m, m + 24);
    forall k | i <= k < i + |lead| ensures t[k] == '\n' { assert t[k] == t[i..i + |lead|][k - i]; }
  }

  lemma SpanMatches(t: string, i: nat, p: nat, q: nat)
    requires Spans(t, i, p, q)
    ensures MatchAt(t, i, q + 24)
  {
    hide BEGIN, END;
    MarkersHaveOneHash();
    var lead, body := t[i..p], t[p + 24..q];
    assert t[i..q + 24] == lead + BEGIN + body + END + "";
    assert Parts(t[i..q + 24], lead, body, "");
  }

  lemma SpanBounds(t: string, x: nat, p: nat, q: nat, b: nat)
    requires Spans(t, x, p, q) && Find(t, BEGIN) == Some(b) && b + 24 <= |t|
    ensures |TrimNewlines(t[..b])| <= x && b <= p && (p == b || x > b)
  {
    hide BEGIN, END, OccursAt, Find;
    FirstIsHash(t, b);
    TrimmedHead(t, b);
    var r := TrimNewlines(t[..b]);
    assert b <= p;
    assert r != "" ==> t[|r| - 1] == r[|r| - 1];
  }

  lemma MatchSpan(t: string, x: nat, y: nat) returns (p: nat, q: nat)
    requires MatchAt(t, x, y)
    ensures Spans(t, x, p, q) && q + 24 <= y
  {
    hide Parts, Spans, BEGIN, END;
    var lead, body, tail :| Parts(t[x..y], lead, body, tail);
    PartsSpan(t, x, y, lead, body, tail);
    p := x + |lead|;
    q := p + 24 + |body|;
  }

  /** Every match has its begin marker at the first one or behind it, and an end marker behind that. */
  lemma MatchBounds(t: string, x: nat, y: nat, b: nat)
    requires MatchAt(t, x, y) && Find(t, BEGIN) == Some(b) && b + 24 <= |t|
    ensures |TrimNewlines(t[..b])| <= x
    ensures match Find(t[b + 24..], END)
            case None => false
            case Some(e) => x == |TrimNewlines(t[..b])| ==> b + 24 + e + 24 <= y
  {
    hide MatchAt, Find, BEGIN, END, TrimNewlines, OccursAt;
    var p, q := MatchSpan(t, x, y);
    SpanBounds(t, x, p, q, b);
    EndBehind(t, b + 24, q);
  }

  lemma FirstIsHash(t: string, b: nat)
    requires Find(t, BEGIN) == Some(b)
    ensures OccursAt(t, BEGIN, b) && b + 24 <= |t| && t[b] == '#' && forall j: nat | j < b :: !OccursAt(t, BEGIN, j)
  {
    hide BEGIN, Find, OccursAt;
    FindsFirst(t, BEGIN, b);
    MarkersHaveOneHash();
    OccursHead(t, BEGIN, b);
  }

  lemma OccursHead(t: string, p: string, i: nat)
    requires OccursAt(t, p, i) && p != ""
    ensures i + |p| <= |t| && t[i] == p[0]
  {
    assert t[i] == t[i..i + |p|][0];
  }

  lemma FindsFirst(t: string, p: string, b: nat)
    requires Find(t, p) == Some(b)
    ensures OccursAt(t, p, b) && forall j: nat | j < b :: !OccursAt(t, p, j)
  {
  }

  lemma EndBehind(t: string, n: nat, q: nat)
    requires n <= q && OccursAt(t, END, q)
    ensures match Find(t[n..], END) case None => false case Some(e) => n + e <= q
  {
    hide END;
    assert t == t[..n] + t[n..];
    OccursShift(t[..n], t[n..], END, q - n);
    assert Contains(t[n..], END);
  }

  lemma NothingFound(t: string)
    requires match Find(t, BEGIN)
             case None => true
             case Some(b) => b + 24 <= |t| && Find(t[b + 24..], END) == None
    ensures StripBlocks(t) == t
  {
    hide BEGIN, END, Find;
    MarkersHaveOneHash();
  }

  lemma NoMatch(t: string, x: nat, y: nat)
    requires match Find(t, BEGIN)
             case None => true
             case Some(b) => b + 24 <= |t| && Find(t[b + 24..], END) == None
    ensures !MatchAt(t, x, y)
  {
    hide BEGIN, END, TrimNewlines, Find, MatchAt, OccursAt;
    if MatchAt(t, x, y) {
      match Find(t, BEGIN)
      case None => NotFoundMeans(t, BEGIN); NoBegin(t, x, y);
      case Some(b) => MatchBounds(t, x, y, b);
    }
  }

  lemma NotFoundMeans(t: string, p: string)
    requires Find(t, p) == None
    ensures !Contains(t, p)
  {
  }

  lemma NoBegin(t: string, x: nat, y: nat)
    requires !Contains(t, BEGIN)
    ensures !MatchAt(t, x, y)
  {
    hide BEGIN, END, MatchAt, OccursAt;
    if MatchAt(t, x, y) { var _, _ := MatchSpan(t, x, y); }
  }

  /** The match the stripping removes, when there is one. */
  lemma FoundIsFirst(t: string, b: nat, e: nat) returns (i: nat, j: nat)
    requires Find(t, BEGIN) == Some(b) && b + 24 <= |t| && Find(t[b + 24..], END) == Some(e)
    ensures FirstMatch(t, i, j) && i <= |t| && j <= |t|
    ensures StripBlocks(t) == t[..i] + "\n" + StripBlocks(DropNewline(t[j..]))
  {
    hide BEGIN, END, StripBlocks, IsMatch, TrimNewlines, Find, OccursAt, DropNewline;
    FoundIn(t, b, e);
    MarkersHaveOneHash();
    i, j := |TrimNewlines(t[..b])|, b + 24 + e + 24;
    SpanMatches(t, i, b, b + 24 + e);
    forall x: nat, y: nat | MatchAt(t, x, y) ensures i <= x && (x == i ==> j <= y) { MatchBounds(t, x, y, b); }
    StripBlocksStep(t, b, e);
    TrimmedHead(t, b);
    Slice(t, b + 24, |t|, e + 24, |t| - b - 24);
    assert t[b + 24..][e + 24..] == t[j..];
  }

  lemma TrimmedHead(t: string, b: nat)
    requires b <= |t|
    ensures |TrimNewlines(t[..b])| <= b && TrimNewlines(t[..b]) == t[..|TrimNewlines(t[..b])|]
  {
    var r := TrimNewlines(t[..b]);
    assert r == t[..b][..|r|];
  }

  lemma FirstIsUnique(t: string, i: nat, j: nat, x: nat, y: nat)
    requires FirstMatch(t, i, j) && FirstMatch(t, x, y)
    ensures i == x && j == y
  {
    hide IsMatch;
  }

  lemma FirstFits(t: string, i: nat, j: nat)
    requires FirstMatch(t, i, j)
    ensures i <= j <= |t| && MatchAt(t, i, j)
  {
  }

  /**
   Stripping is that substitution, a line feed behind the match taken with it: without a match the text stays,
   otherwise its first match becomes one line feed and the text behind it is treated the same way.
   */
  lemma StripIsSubstitution(t: string)
    ensures (forall x: nat, y: nat :: !MatchAt(t, x, y)) ==> StripBlocks(t) == t
    ensures (exists x: nat, y: nat :: MatchAt(t, x, y)) ==> exists i: nat, j: nat :: FirstMatch(t, i, j)
    ensures forall i: nat, j: nat | FirstMatch(t, i, j) ::
              i <= j <= |t| && StripBlocks(t) == t[..i] + "\n" + StripBlocks(DropNewline(t[j..]))
  {
    hide BEGIN, END, StripBlocks, MatchAt, FirstMatch, Find, OccursAt, DropNewline;
    MarkersHaveOneHash();
    if Find(t, BEGIN).Some? { FirstIsHash(t, Find(t, BEGIN).value); }
    if Find(t, BEGIN).Some? && Find(t[Find(t, BEGIN).value + 24..], END).Some? {
      var b := Find(t, BEGIN).value;
      var i, j := FoundIsFirst(t, b, Find(t[b + 24..], END).value);
      forall x: nat, y: nat | FirstMatch(t, x, y) ensures x == i && y == j { FirstIsUnique(t, i, j, x, y); }
      FirstFits(t, i, j);
    } else {
      NothingFound(t);
      forall x: nat, y: nat ensures !MatchAt(t, x, y) { NoMatch(t, x, y); }
      forall i: nat, j: nat ensures !FirstMatch(t, i, j) { if FirstMatch(t, i, j) { FirstFits(t, i, j); } }
    }
  }

  lemma FoundIn(t: string, b: nat, e: nat)
    requires Find(t, BEGIN) == Some(b) && b + 24 <= |t| && Find(t[b + 24..], END) == Some(e)
    ensures b + 24 + e + 24 <= |t| && Spans(t, |TrimNewlines(t[..b])|, b, b + 24 + e)
  {
    hide BEGIN, END, Find;
    MarkersHaveOneHash();
    FindsFirst(t, BEGIN, b);
    FindsFirst(t[b + 24..], END, e);
    var head, after := t[..b + 24], t[b + 24..];
    assert t == head + after;
    OccursShift(head, after, END, e);
    var r := TrimNewlines(t[..b]);
    forall k | |r| <= k < b ensures t[k] == '\n' { assert t[..b][k] == t[k]; }
  }
}
