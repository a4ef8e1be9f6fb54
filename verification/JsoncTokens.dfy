/** The two substitutions of _parse_jsonc as regular expressions see them, on any text. */
module JsoncTokens {
  import opened Text
  import opened Jsonc
  import opened JsoncRoundTrip

  // ---- the alternatives of the token expression ------------------------------------------------------------------

  predicate IsLiteral(s: string) { s != "" && s[0] == '"' && IsStringTail(s[1..]) }

  predicate IsLineComment(s: string) { StartsWith(s, "//") && '\n' !in s[2..] }

  predicate IsBlockComment(s: string) {
    |s| >= 4 && StartsWith(s, "/*") && MarkAt(s[2..], |s| - 4) && forall i: nat | i < |s| - 4 :: !MarkAt(s[2..], i)
  }

  /** s is the comment matched in front of rest: a line comment takes all of its line. */
  predicate IsComment(s: string, rest: string) {
    IsBlockComment(s) || (IsLineComment(s) && (rest == "" || rest[0] == '\n'))
  }

  lemma RestIs(a: string, rest: string, r: string)
    requires |r| <= |a + rest| && r == (a + rest)[|a + rest| - |r|..]
    ensures r == rest <==> |r| == |rest|
  {
    if |r| == |rest| { assert (a + rest)[|a|..] == rest; }
  }

  lemma LiteralIs(s: string, rest: string)
    ensures TokenAt(s + rest) == Literal(rest) <==> IsLiteral(s)
  {
    var t := s + rest;
    if s != "" {
      assert t[1..] == s[1..] + rest;
      assert t[1..][..|s| - 1] == s[1..] && t[1..][|s| - 1..] == rest;
      StringRestIsMatch(t[1..], |s| - 1);
    }
  }

  lemma {:induction false} LineRestIs(s: string, rest: string)
    ensures LineRest(s + rest) == rest <==> '\n' !in s && (rest == "" || rest[0] == '\n')
  {
    if s == "" {
      assert s + rest == rest;
      if rest != "" && rest[0] != '\n' { assert |LineRest(rest)| < |rest|; }
    } else {
      assert (s + rest)[1..] == s[1..] + rest;
      LineRestIs(s[1..], rest);
      assert '\n' in s <==> s[0] == '\n' || '\n' in s[1..];
    }
  }

  /** s ends in its first end-of-comment mark. */
  predicate EndsAtMark(s: string) { |s| >= 2 && MarkAt(s, |s| - 2) && forall i: nat | i < |s| - 2 :: !MarkAt(s, i) }

  lemma SameMarks(s: string, rest: string)
    ensures forall i: nat | i + 1 < |s| :: MarkAt(s + rest, i) == MarkAt(s, i)
  {
  }

  lemma FirstMark(s: string, rest: string, n: nat)
    requires n >= 2 && MarkAt(s + rest, n - 2) && forall i: nat | i < n - 2 :: !MarkAt(s + rest, i)
    ensures n == |s| <==> EndsAtMark(s)
  {
    SameMarks(s, rest);
    hide MarkAt;
    var m: nat := n - 2;
    assert n <= |s| ==> MarkAt(s, m);
    if EndsAtMark(s) { assert MarkAt(s + rest, |s| - 2); }
  }

  lemma BlockRestIs(s: string, rest: string)
    ensures BlockRest(s + rest) == Some(rest) <==> EndsAtMark(s)
  {
    hide BlockRest, MarkAt;
    var t := s + rest;
    BlockRestIsFirst(t);
    SameMarks(s, rest);
    if BlockRest(t).Some? {
      RestIs(s, rest, BlockRest(t).value);
      FirstMark(s, rest, |t| - |BlockRest(t).value|);
    }
  }

  lemma CommentStarts(s: string, rest: string, p: string)
    requires |p| == 2
    ensures |s| >= 2 ==> (StartsWith(s + rest, p) <==> StartsWith(s, p))
  {
    if |s| >= 2 { assert (s + rest)[..2] == s[..2]; }
  }

  lemma CommentIs(s: string, rest: string)
    ensures TokenAt(s + rest) == Comment(rest) <==> IsComment(s, rest)
  {
    hide IsStringTail, StringRest, MarkAt, LineRest, BlockRest;
    var t := s + rest;
    if |s| >= 2 {
      assert t[2..] == s[2..] + rest && t[0] == s[0];
      CommentStarts(s, rest, "//");
      CommentStarts(s, rest, "/*");
      LineRestIs(s[2..], rest);
      BlockRestIs(s[2..], rest);
      assert StartsWith(s, "//") ==> s[..2] == "//" && s[1] == '/';
      assert StartsWith(s, "/*") ==> s[..2] == "/*" && s[1] == '*';
    }
  }

  // ---- the first substitution -------------------------------------------------------------------------------------

  /** A piece of the text: copied, or a comment that is blanked. */
  datatype Piece = Copied(text: string) | Blank(text: string)

  ghost predicate NoTokenStarts(t: string) {
    forall n: nat | n <= |t| :: !IsLiteral(t[..n]) && !IsComment(t[..n], t[n..])
  }

  /** Cutting t from the left into matches of the token expression and characters at which nothing matches. */
  ghost predicate Scans(ps: seq<Piece>, t: string) {
    if ps == [] then t == ""
    else
      var s := ps[0].text;
      && s != "" && StartsWith(t, s)
      && (if ps[0].Blank? then IsComment(s, t[|s|..]) else IsLiteral(s) || (|s| == 1 && NoTokenStarts(t)))
      && Scans(ps[1..], t[|s|..])
  }

  function Replaced(ps: seq<Piece>): string {
    if ps == [] then ""
    else (match ps[0] case Copied(s) => s case Blank(s) => Blanked(s)) + Replaced(ps[1..])
  }

  lemma Cut(t: string, n: nat)
    requires n <= |t|
    ensures t == t[..n] + t[n..]
    ensures TokenAt(t) == Literal(t[n..]) <==> IsLiteral(t[..n])
    ensures TokenAt(t) == Comment(t[n..]) <==> IsComment(t[..n], t[n..])
  {
    hide TokenAt, IsLiteral, IsComment;
    assert t == t[..n] + t[n..];
    LiteralIs(t[..n], t[n..]);
    CommentIs(t[..n], t[n..]);
  }

  lemma OtherIs(t: string)
    ensures TokenAt(t).Other? <==> NoTokenStarts(t)
  {
    hide TokenAt, IsLiteral, IsComment;
    forall n: nat | n <= |t|
      ensures IsLiteral(t[..n]) || IsComment(t[..n], t[n..]) ==> !TokenAt(t).Other?
    {
      Cut(t, n);
    }
    if !TokenAt(t).Other? {
      var n := |t| - |TokenAt(t).rest|;
      Cut(t, n);
    }
  }

  lemma {:induction false} ScanGives(ps: seq<Piece>, t: string)
    requires Scans(ps, t)
    ensures BlankComments(t) == Replaced(ps)
    decreases |ps|
  {
    hide TokenAt, IsLiteral, IsComment, NoTokenStarts;
    if ps != [] {
      var n := |ps[0].text|;
      Cut(t, n);
      OtherIs(t);
      ScanGives(ps[1..], t[n..]);
    }
  }

  lemma {:induction false} ScanExists(t: string) returns (ps: seq<Piece>)
    ensures Scans(ps, t)
    decreases |t|
  {
    hide TokenAt, IsLiteral, IsComment, NoTokenStarts;
    if t == "" {
      ps := [];
    } else {
      OtherIs(t);
      var n := match TokenAt(t) case Other => 1 case Literal(rest) => |t| - |rest| case Comment(rest) => |t| - |rest|;
      Cut(t, n);
      var more := ScanExists(t[n..]);
      var first := if TokenAt(t).Comment? then Blank(t[..n]) else Copied(t[..n]);
      ps := [first] + more;
      assert ps[1..] == more;
    }
  }

  /** Blanking is that substitution: any text can be cut so, and every such cut gives the blanked text. */
  lemma BlankingIsSubstitution(t: string)
    ensures exists ps :: Scans(ps, t)
    ensures forall ps | Scans(ps, t) :: BlankComments(t) == Replaced(ps)
  {
    var _ := ScanExists(t);
    forall ps | Scans(ps, t) ensures BlankComments(t) == Replaced(ps) { ScanGives(ps, t); }
  }

  // ---- the second substitution ---------------------------------------------------------------------------------------

  /** t without each comma that white space and a closing bracket follow. */
  function WithoutTrailing(t: string): string {
    if t == "" then ""
    else (if t[0] == ',' && CloserAfter(t[1..]) then "" else [t[0]]) + WithoutTrailing(t[1..])
  }

  /** One pass of the substitution removes every trailing comma of the text, and nothing else. */
  lemma {:induction false} DropsExactly(t: string)
    ensures DropCommas(t) == WithoutTrailing(t)
  {
    hide DropCommas, CloserAfter;
    if t == "" {
      DropNothing();
    } else {
      var c, k := t[0], t[1..];
      DropsExactly(k);
      assert t == [c] + k;
      if c != ',' { NoComma(c, k); } else if CloserAfter(k) { CommaDropped(k); } else { CommaKept(k); }
    }
  }

  lemma DropNothing()
    ensures DropCommas("") == ""
  {
  }
}
