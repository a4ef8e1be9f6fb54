/** Characters and strings as Python's str sees them. */
module Text {

  datatype Option<+T> = None | Some(value: T)

  /** str.isspace, which is also the class \s of the re module for str patterns. */
  predicate IsSpace(c: char) {
    var n := c as int;
    || 9 <= n <= 13 || 28 <= n <= 32 || n == 133 || n == 160 || n == 5760
    || 8192 <= n <= 8202 || n == 8232 || n == 8233 || n == 8239 || n == 8287 || n == 12288
  }

  predicate IsDigit(c: char) { '0' <= c <= '9' }

  predicate StartsWith(t: string, p: string) { |p| <= |t| && t[..|p|] == p }

  predicate AllSpace(t: string) { forall i | 0 <= i < |t| :: IsSpace(t[i]) }

  /** str.lstrip() */
  function LStrip(t: string): (r: string)
    ensures |r| <= |t| && (r != "" ==> !IsSpace(r[0]))
  {
    if t != "" && IsSpace(t[0]) then LStrip(t[1..]) else t
  }

  /** What lstrip leaves is the end of the text, and what it takes is white space. */
  lemma {:induction false} LStripParts(t: string)
    ensures var r := LStrip(t); r == t[|t| - |r|..] && AllSpace(t[..|t| - |r|])
  {
    if t != "" && IsSpace(t[0]) {
      var r := LStrip(t[1..]);
      LStripParts(t[1..]);
      assert t[1..][|t| - 1 - |r|..] == t[|t| - |r|..];
      assert t[..|t| - |r|] == [t[0]] + t[1..][..|t| - 1 - |r|];
    }
  }

  /** str.rstrip() */
  function RStrip(t: string): (r: string)
    ensures |r| <= |t| && r == t[..|r|]
    ensures AllSpace(t[|r|..])
    ensures r != "" ==> !IsSpace(r[|r| - 1])
  {
    if t != "" && IsSpace(t[|t| - 1]) then
      var init := t[..|t| - 1];
      var r := RStrip(init);
      assert r == t[..|r|];
      assert t[|r|..] == init[|r|..] + [t[|t| - 1]];
      r
    else
      t
  }

  function Strip(t: string): string { RStrip(LStrip(t)) }

  /** t is the part of text between the white space at its ends. */
  ghost predicate StrippedFrom(text: string, t: string) {
    && (exists a, b :: AllSpace(a) && AllSpace(b) && text == a + t + b)
    && (t == "" || (!IsSpace(t[0]) && !IsSpace(t[|t| - 1])))
  }

  lemma RStripParts(u: string)
    requires u == "" || !IsSpace(u[0])
    ensures var t := RStrip(u);
            && u == t + u[|t|..] && AllSpace(u[|t|..]) && (t == "" || (!IsSpace(t[0]) && !IsSpace(t[|t| - 1])))
  {
    var t := RStrip(u);
    assert u == u[..|t|] + u[|t|..];
  }

  lemma StripMeaning(text: string)
    ensures StrippedFrom(text, Strip(text))
  {
    hide LStrip, RStrip, AllSpace, IsSpace;
    var u, t := LStrip(text), Strip(text);
    LStripEnds(text);
    RStripParts(u);
    var a, b := text[..|text| - |u|], u[|t|..];
    assert text == a + u;
    InThree(text, a, u, t, b);
  }

  lemma LStripEnds(text: string)
    ensures var u := LStrip(text);
            && |u| <= |text| && text == text[..|text| - |u|] + u && AllSpace(text[..|text| - |u|])
            && (u == "" || !IsSpace(u[0]))
  {
    hide LStrip, AllSpace;
    LStripParts(text);
    var u := LStrip(text);
    assert text == text[..|text| - |u|] + text[|text| - |u|..];
  }

  lemma InThree(text: string, a: string, u: string, t: string, b: string)
    requires text == a + u && u == t + b
    ensures text == a + t + b
  {
  }

  /** Only one text is left between the white space. */
  lemma StrippedOnce(text: string, t: string)
    requires StrippedFrom(text, t)
    ensures Strip(text) == t
  {
    hide LStrip, RStrip, AllSpace;
    var a, b :| AllSpace(a) && AllSpace(b) && text == a + t + b;
    if t == "" {
      assert a + "" + b == a + b;
      BlankAppend(a, b);
      BlankStripped(text);
    } else {
      assert a + t + b == a + (t + b);
      LStripOf(a, t + b);
      RStripBehind(t, b);
    }
  }

  lemma BlankAppend(a: string, b: string)
    requires AllSpace(a) && AllSpace(b)
    ensures AllSpace(a + b)
  {
  }

  lemma {:induction false} BlankStripped(t: string)
    requires AllSpace(t)
    ensures Strip(t) == ""
  {
    if t != "" {
      BlankStripped(t[1..]);
    }
  }

  lemma {:induction false} LStripOf(a: string, k: string)
    requires AllSpace(a) && k != "" && !IsSpace(k[0])
    ensures LStrip(a + k) == k
  {
    if a == "" {
      assert a + k == k;
    } else {
      assert (a + k)[1..] == a[1..] + k;
      LStripOf(a[1..], k);
    }
  }

  lemma {:induction false} RStripBehind(t: string, b: string)
    requires AllSpace(b) && t != "" && !IsSpace(t[|t| - 1])
    ensures RStrip(t + b) == t
  {
    if b == "" {
      assert t + b == t;
    } else {
      assert (t + b)[..|t + b| - 1] == t + b[..|b| - 1];
      RStripBehind(t, b[..|b| - 1]);
    }
  }

  /** p occurs in t at index i. */
  predicate OccursAt(t: string, p: string, i: nat) { i + |p| <= |t| && t[i..i + |p|] == p }

  /** The Python expression `p in t`. */
  ghost predicate Contains(t: string, p: string) { exists i: nat :: OccursAt(t, p, i) }

  lemma OccursInTail(t: string, p: string, j: nat)
    requires t != ""
    ensures OccursAt(t[1..], p, j) == OccursAt(t, p, j + 1)
  {
    assert j + |p| < |t| ==> t[1..][j..j + |p|] == t[j + 1..j + 1 + |p|];
  }

  lemma OccursTail(t: string, p: string)
    requires t != ""
    ensures forall j: nat :: OccursAt(t[1..], p, j) == OccursAt(t, p, j + 1)
  {
    forall j: nat ensures OccursAt(t[1..], p, j) == OccursAt(t, p, j + 1) { OccursInTail(t, p, j); }
  }

  /** str.find, with None for -1. */
  function Find(t: string, p: string): (r: Option<nat>)
    ensures r.Some? ==> OccursAt(t, p, r.value) && forall j: nat | j < r.value :: !OccursAt(t, p, j)
    ensures r.None? ==> !Contains(t, p)
    decreases |t|
  {
    if OccursAt(t, p, 0) then Some(0)
    else if t == "" then
      assert forall j: nat :: OccursAt(t, p, j) ==> j == 0;
      None
    else
      OccursTail(t, p);
      hide OccursAt;
      assert forall j: nat :: OccursAt(t, p, j) ==> j > 0 && OccursAt(t[1..], p, j - 1);
      match Find(t[1..], p)
      case None => None
      case Some(i) => Some(i + 1)
  }

  lemma FindContains(t: string, p: string)
    ensures Find(t, p).Some? <==> Contains(t, p)
  {
  }

  lemma FindIsFirst(t: string, p: string, i: nat)
    requires OccursAt(t, p, i)
    requires forall j: nat | j < i :: !OccursAt(t, p, j)
    ensures Find(t, p) == Some(i)
  {
    assert Contains(t, p);
    assert Find(t, p).Some?;
  }

  lemma OccursShift(a: string, b: string, p: string, i: nat)
    ensures OccursAt(a + b, p, |a| + i) == OccursAt(b, p, i)
  {
    if i + |p| <= |b| {
      assert (a + b)[|a| + i..|a| + i + |p|] == b[i..i + |p|];
    }
  }

  lemma OccursLeft(a: string, b: string, p: string, i: nat)
    requires i + |p| <= |a|
    ensures OccursAt(a + b, p, i) == OccursAt(a, p, i)
  {
    assert (a + b)[i..i + |p|] == a[i..i + |p|];
  }
}
