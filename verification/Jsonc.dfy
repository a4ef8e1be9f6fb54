/**
 The reader for JSON with comments: one substitution blanks comments while stepping over string literals,
 a second drops trailing commas, and json.loads reads what is left.
 */
module Jsonc {
  import opened Text
  import opened Json
  import opened JsonText

  // ---- the tokens of the first substitution --------------------------------------------------------

  /** What follows the string literal whose opening quote stands just before t; None if it never closes. */
  function StringRest(t: string): (r: Option<string>)
    ensures r.Some? ==> |r.value| < |t| && r.value == t[|t| - |r.value|..]
    decreases |t|
  {
    if t == "" then None
    else if t[0] == '"' then Some(t[1..])
    else if t[0] == '\\' then if |t| > 1 then StringRest(t[2..]) else None
    else StringRest(t[1..])
  }

  /** What follows the rest of a line. */
  function LineRest(t: string): (r: string)
    ensures |r| <= |t| && r == t[|t| - |r|..]
  {
    if t == "" || t[0] == '\n' then t else LineRest(t[1..])
  }

  /** What follows the next end-of-comment mark; None if there is none. */
  function BlockRest(t: string): (r: Option<string>)
    ensures r.Some? ==> |r.value| < |t| && r.value == t[|t| - |r.value|..]
  {
    if |t| < 2 then None
    else if t[0] == '*' && t[1] == '/' then Some(t[2..])
    else BlockRest(t[1..])
  }

  datatype Token = Literal(rest: string) | Comment(rest: string) | Other

  /** The alternative of the token expression that matches at the start of t, tried in the order written. */
  function TokenAt(t: string): (r: Token)
    ensures !r.Other? ==> |r.rest| < |t| && r.rest == t[|t| - |r.rest|..]
  {
    if t == "" then Other
    else if t[0] == '"' then
      match StringRest(t[1..])
      case Some(rest) => Literal(rest)
      case None => Other
    else if StartsWith(t, "//") then Comment(LineRest(t[2..]))
    else if StartsWith(t, "/*") then
      match BlockRest(t[2..])
      case Some(rest) => Comment(rest)
      case None => Other
    else Other
  }

  function Blanked(t: string): (r: string)
    ensures |r| == |t| && forall i | 0 <= i < |t| :: r[i] == if t[i] == '\n' then '\n' else ' '
  {
    seq(|t|, i requires 0 <= i < |t| => if t[i] == '\n' then '\n' else ' ')
  }

  function BlankComments(t: string): (r: string)
    ensures |r| == |t|
    decreases |t|
  {
    if t == "" then ""
    else match TokenAt(t)
         case Literal(rest) => t[..|t| - |rest|] + BlankComments(rest)
         case Comment(rest) => Blanked(t[..|t| - |rest|]) + BlankComments(rest)
         case Other => [t[0]] + BlankComments(t[1..])
  }

  // ---- the second substitution -----------------------------------------------------------------------

  predicate IsCloser(c: char) { c == '}' || c == ']' }

  /** White space, then a closing bracket. */
  predicate CloserAfter(t: string) {
    var u := LStrip(t);
    u != "" && IsCloser(u[0])
  }

  function DropCommas(t: string): string
    decreases |t|
  {
    if t == "" then ""
    else if t[0] == ',' && CloserAfter(t[1..]) then
      var rest := LStrip(t[1..])[1..];
      t[1..|t| - |rest|] + DropCommas(rest)
    else [t[0]] + DropCommas(t[1..])
  }

  /** _parse_jsonc, None standing for the exceptions it raises. */
  function ParseJsonc(t: string): Option<JSON> { Loads(DropCommas(BlankComments(t))) }

  // ---- what the tokens are -----------------------------------------------------------------------------

  /** s matches (?:[^"\\]|\\.)*" */
  predicate IsStringTail(s: string)
    decreases |s|
  {
    if s == "" then false
    else if s[0] == '"' then |s| == 1
    else if s[0] == '\\' then |s| > 1 && IsStringTail(s[2..])
    else IsStringTail(s[1..])
  }

  /** The string alternative matches at most one prefix, and the scanner finds it if there is one. */
  lemma {:induction false} StringRestIsMatch(t: string, n: nat)
    requires n <= |t|
    ensures IsStringTail(t[..n]) <==> StringRest(t) == Some(t[n..])
    decreases |t|
  {
    if t == "" || n == 0 {
    } else if t[0] == '"' {
      assert t[n..] == t[1..] ==> |t[n..]| == |t[1..]|;
    } else if t[0] == '\\' {
      if n > 1 {
        assert t[..n][2..] == t[2..][..n - 2] && t[n..] == t[2..][n - 2..];
        StringRestIsMatch(t[2..], n - 2);
      } else if |t| > 1 {
        var r := StringRest(t[2..]);
        assert r.Some? ==> |r.value| < |t[n..]|;
      }
    } else {
      assert t[..n][1..] == t[1..][..n - 1] && t[n..] == t[1..][n - 1..];
      StringRestIsMatch(t[1..], n - 1);
    }
  }

  /** An end-of-comment mark stands at index i of t. */
  predicate MarkAt(t: string, i: nat) { i + 1 < |t| && t[i] == '*' && t[i + 1] == '/' }

  /** BlockRest finds the first end-of-comment mark. */
  lemma {:induction false} BlockRestIsFirst(t: string)
    ensures BlockRest(t).None? ==> forall i: nat :: !MarkAt(t, i)
    ensures BlockRest(t).Some? ==>
              var n := |t| - |BlockRest(t).value|;
              n >= 2 && MarkAt(t, n - 2) && forall i: nat | i < n - 2 :: !MarkAt(t, i)
  {
    if |t| >= 2 && !MarkAt(t, 0) {
      var w := t[1..];
      BlockRestIsFirst(w);
      forall i: nat | i > 0 ensures MarkAt(t, i) == MarkAt(w, i - 1) {}
    }
  }

  // ---- comment blanking on arbitrary text ------------------------------------------------------------

  /** Every character is copied or, unless it is a line break, turned into a space. */
  lemma {:induction false} BlankingShape(t: string)
    ensures forall i | 0 <= i < |t| ::
              BlankComments(t)[i] == t[i] || (BlankComments(t)[i] == ' ' && t[i] != '\n')
    decreases |t|
  {
    hide TokenAt;
    if t != "" {
      match TokenAt(t)
      case Literal(rest) => BlankingShape(rest);
      case Comment(rest) => BlankingShape(rest);
      case Other => BlankingShape(t[1..]);
    }
  }

  lemma NotSpecial(c: char, k: string)
    requires c != '"' && c != '/'
    ensures BlankComments([c] + k) == [c] + BlankComments(k)
  {
    assert ([c] + k)[1..] == k;
  }

  predicate White(w: string) { forall i | 0 <= i < |w| :: w[i] == ' ' || w[i] == '\n' }

  lemma {:induction false} WhiteCopied(w: string, k: string)
    requires White(w)
    ensures BlankComments(w + k) == w + BlankComments(k)
  {
    hide BlankComments;
    if w == "" {
      assert w + k == k;
    } else {
      assert w + k == [w[0]] + (w[1..] + k);
      NotSpecial(w[0], w[1..] + k);
      WhiteCopied(w[1..], k);
    }
  }

  lemma InString(c: char, k: string)
    requires c != '"' && c != '\\'
    ensures StringRest([c] + k) == StringRest(k)
  {
    assert ([c] + k)[1..] == k;
  }

  lemma {:induction false} WhiteInString(w: string, k: string)
    requires White(w)
    ensures StringRest(w + k) == StringRest(k)
  {
    hide StringRest;
    if w == "" {
      assert w + k == k;
    } else {
      WhiteInString(w[1..], k);
      InString(w[0], w[1..] + k);
      assert w + k == [w[0]] + (w[1..] + k);
    }
  }

  /** Replacing what follows a closed string literal leaves the literal closed in the same place. */
  lemma LiteralStays(t: string, rest: string, k: string)
    requires StringRest(t) == Some(rest)
    ensures StringRest(t[..|t| - |rest|] + k) == Some(k)
  {
    var n := |t| - |rest|;
    StringRestIsMatch(t, n);
    assert (t[..n] + k)[..n] == t[..n] && (t[..n] + k)[n..] == k;
    StringRestIsMatch(t[..n] + k, n);
  }

  // An unclosed string stays unclosed when a comment inside it is skipped or blanked.

  lemma {:induction false} UnclosedAfterLine(t: string)
    requires StringRest(t).None?
    ensures StringRest(LineRest(t)).None?
    decreases |t|
  {
    if t == "" || t[0] == '\n' {
    } else if t[0] == '\\' && |t| > 1 {
      if t[1] != '\n' {
        assert t[1..][1..] == t[2..];
        UnclosedAfterLine(t[2..]);
      } else {
        assert t[1..][1..] == t[2..];
      }
    } else {
      UnclosedAfterLine(t[1..]);
    }
  }

  lemma {:induction false} UnclosedAfterBlock(t: string)
    requires StringRest(t).None? && BlockRest(t).Some?
    ensures StringRest(BlockRest(t).value).None?
    decreases |t|
  {
    assert t[1..][1..] == t[2..];
    if t[0] == '*' && t[1] == '/' {
    } else if t[0] == '\\' {
      if t[1] == '*' && |t| > 2 && t[2] == '/' {
        assert t[2..][1..] == t[1..][2..];
      } else {
        UnclosedAfterBlock(t[2..]);
      }
    } else {
      UnclosedAfterBlock(t[1..]);
    }
  }

  lemma UnclosedAfterComment(t: string)
    requires StringRest(t).None? && TokenAt(t).Comment?
    ensures StringRest(TokenAt(t).rest).None?
  {
    assert t[1..][1..] == t[2..];
    if StartsWith(t, "//") {
      assert t[0] == '/' && t[1] == '/';
      UnclosedAfterLine(t[2..]);
    } else {
      assert t[0] == '/' && t[1] == '*';
      UnclosedAfterBlock(t[2..]);
    }
  }

  lemma {:induction false} UnclosedWhenBlanked(t: string)
    requires StringRest(t).None?
    ensures StringRest(BlankComments(t)).None?
    decreases |t|
  {
    var b := BlankComments(t);
    if t == "" {
    } else if TokenAt(t).Comment? {
      var rest := TokenAt(t).rest;
      UnclosedAfterComment(t);
      UnclosedWhenBlanked(rest);
      WhiteInString(Blanked(t[..|t| - |rest|]), BlankComments(rest));
    } else if t[0] == '\\' && |t| > 1 {
      assert b[1..] == BlankComments(t[1..]);
      assert b[2..] == BlankComments(t[1..])[1..];
      UnclosedAfterEscape(t[1..]);
    } else {
      assert b[1..] == BlankComments(t[1..]);
      UnclosedWhenBlanked(t[1..]);
    }
  }

  lemma UnclosedInsideComment(t: string)
    requires t != "" && StringRest(t[1..]).None? && TokenAt(t).Comment?
    ensures StringRest(TokenAt(t).rest).None?
  {
    assert t[1..][1..] == t[2..];
    if StartsWith(t, "//") {
      assert t[1] == '/';
      UnclosedAfterLine(t[2..]);
    } else {
      assert t[1] == '*';
      UnclosedAfterBlock(t[2..]);
    }
  }

  /** t begins with the character a backslash escapes, and the string is unclosed behind it. */
  lemma {:induction false} UnclosedAfterEscape(t: string)
    requires t != "" && StringRest(t[1..]).None?
    ensures StringRest(BlankComments(t)[1..]).None?
    decreases |t|
  {
    var b := BlankComments(t);
    if TokenAt(t).Comment? {
      var rest := TokenAt(t).rest;
      var w := Blanked(t[..|t| - |rest|]);
      UnclosedInsideComment(t);
      UnclosedWhenBlanked(rest);
      assert b[1..] == w[1..] + BlankComments(rest);
      WhiteInString(w[1..], BlankComments(rest));
    } else {
      assert TokenAt(t).Other?;
      assert b[1..] == BlankComments(t[1..]);
      UnclosedWhenBlanked(t[1..]);
    }
  }

  /** Blanking characters of a text without end-of-comment mark creates none. */
  lemma NoMarkAppears(x: string, y: string)
    requires |x| == |y| && (forall i | 0 <= i < |x| :: y[i] == x[i] || y[i] == ' ')
    requires BlockRest(x).None?
    ensures BlockRest(y).None?
  {
    hide BlockRest;
    BlockRestIsFirst(x);
    BlockRestIsFirst(y);
    assert forall i: nat :: MarkAt(y, i) ==> MarkAt(x, i);
  }

  /** When no token begins at t. */
  predicate NoToken(c: char, k: string) {
    && (c == '"' ==> StringRest(k).None?)
    && (c == '/' && k != "" ==> k[0] != '/' && (k[0] == '*' ==> BlockRest(k[1..]).None?))
  }

  lemma NoTokenIs(c: char, k: string)
    ensures TokenAt([c] + k).Other? <==> NoToken(c, k)
  {
    hide StringRest, BlockRest, LineRest;
    var t := [c] + k;
    assert t[1..] == k;
    if k != "" {
      assert t[..2] == [c, k[0]] && t[2..] == k[1..];
    }
  }

  /** A character that began no token begins none after the text behind it was blanked. */
  lemma OtherStays(c: char, k: string)
    requires TokenAt([c] + k).Other?
    ensures TokenAt([c] + BlankComments(k)).Other?
  {
    hide StringRest, BlockRest, TokenAt, BlankComments;
    NoTokenIs(c, k);
    var b := BlankComments(k);
    BlankingShape(k);
    if c == '"' {
      UnclosedWhenBlanked(k);
    } else if c == '/' && k != "" {
      if b[0] == '*' {
        NoMarkAppears(k[1..], b[1..]);
      }
    }
    NoTokenIs(c, b);
  }

  lemma LiteralCopied(t: string, k: string)
    requires TokenAt(t) == Literal(k)
    ensures BlankComments(t) == t[..|t| - |k|] + BlankComments(k)
  {
  }

  lemma LiteralAgain(t: string, rest: string, k: string)
    requires TokenAt(t) == Literal(rest)
    ensures TokenAt(t[..|t| - |rest|] + k) == Literal(k)
  {
    var b := t[..|t| - |rest|] + k;
    LiteralStays(t[1..], rest, k);
    assert b[1..] == t[1..][..|t[1..]| - |rest|] + k;
  }

  lemma OtherCopied(c: char, k: string)
    requires TokenAt([c] + k).Other?
    ensures BlankComments([c] + k) == [c] + BlankComments(k)
  {
    assert ([c] + k)[1..] == k;
  }

  /** Blanking comments a second time changes nothing, on any text. */
  lemma {:induction false} BlankingIdempotent(t: string)
    ensures BlankComments(BlankComments(t)) == BlankComments(t)
    decreases |t|
  {
    hide TokenAt;
    if t != "" {
      match TokenAt(t)
      case Literal(rest) =>
        var lit, k := t[..|t| - |rest|], BlankComments(rest);
        BlankingIdempotent(rest);
        LiteralAgain(t, rest, k);
        LiteralCopied(lit + k, k);
        assert (lit + k)[..|lit|] == lit;
      case Comment(rest) =>
        BlankingIdempotent(rest);
        WhiteCopied(Blanked(t[..|t| - |rest|]), BlankComments(rest));
      case Other =>
        BlankingIdempotent(t[1..]);
        assert t == [t[0]] + t[1..];
        OtherStays(t[0], t[1..]);
        OtherCopied(t[0], BlankComments(t[1..]));
    }
  }
}
