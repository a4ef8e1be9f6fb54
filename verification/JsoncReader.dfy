/** The comment-tolerant reader on any JSON text with comments and commas behind last items, however it is laid out. */
module JsoncReader {
  import opened Text
  import opened Json
  import opened JsonText
  import opened Jsonc
  import opened JsoncRoundTrip
  import opened JsonGrammar
  import opened JsonReader

  // ---- comments become white space -----------------------------------------------------------------------------------

  function Whites(w: string): (g: Gap)
    ensures StrictGap(g)
  {
    seq(|w|, i requires 0 <= i < |w| => White(w[i]))
  }

  lemma {:induction false} WhitesTo(w: string, k: string)
    ensures GapTo(Whites(w), k) == w + k
  {
    if w == "" {
      assert w + k == k;
    } else {
      assert Whites(w)[1..] == Whites(w[1..]);
      WhitesTo(w[1..], k);
      assert w + k == [w[0]] + (w[1..] + k);
    }
  }

  lemma {:induction false} GapThen(a: Gap, b: Gap, k: string)
    ensures GapTo(a + b, k) == GapTo(a, GapTo(b, k))
  {
    if a == [] {
      assert a + b == b;
    } else {
      assert (a + b)[1..] == a[1..] + b;
      GapThen(a[1..], b, k);
    }
  }

  function BlankBit(b: Bit): (g: Gap)
    ensures StrictGap(g)
  {
    match b
    case White(_) => [b]
    case Line(s) => Whites(Blanked("//" + s + "\n"))
    case Block(s) => Whites(Blanked("/*" + s + "*/"))
  }

  function BlankGap(g: Gap): (r: Gap)
    ensures StrictGap(r)
  {
    if g == [] then [] else BlankBit(g[0]) + BlankGap(g[1..])
  }

  lemma {:induction false} LineEnds(s: string, k: string)
    requires '\n' !in s && (k == "" || k[0] == '\n')
    ensures LineRest(s + k) == k
  {
    if s == "" {
      assert s + k == k;
    } else {
      assert (s + k)[1..] == s[1..] + k;
      LineEnds(s[1..], k);
    }
  }

  lemma CommentBlanked(head: string, k: string)
    requires head != "" && TokenAt(head + k) == Comment(k)
    ensures BlankComments(head + k) == Blanked(head) + BlankComments(k)
  {
    hide TokenAt;
    var t := head + k;
    assert t[..|t| - |k|] == head;
  }

  lemma LineBlanked(s: string, k: string)
    requires '\n' !in s && (k == "" || k[0] == '\n')
    ensures BlankComments("//" + s + k) == Blanked("//" + s) + BlankComments(k)
  {
    var t := "//" + s + k;
    assert t[2..] == s + k && StartsWith(t, "//") && t[0] == '/';
    LineEnds(s, k);
    CommentBlanked("//" + s, k);
  }

  lemma {:induction false} BlockEnds(s: string, k: string)
    requires forall i: nat | i < |s| :: !OccursAt(s + "*/", "*/", i)
    ensures BlockRest(s + ("*/" + k)) == Some(k)
  {
    var t := s + ("*/" + k);
    if s == "" {
      assert t == "*/" + k && t[2..] == k;
    } else {
      var u := s + "*/";
      assert t[1..] == s[1..] + ("*/" + k) && u[1..] == s[1..] + "*/";
      forall i: nat | i < |s[1..]| ensures !OccursAt(s[1..] + "*/", "*/", i) { OccursInTail(u, "*/", i); }
      BlockEnds(s[1..], k);
      NotMark(s, k);
    }
  }

  lemma NotMark(s: string, k: string)
    requires s != "" && !OccursAt(s + "*/", "*/", 0)
    ensures var t := s + ("*/" + k); !(t[0] == '*' && t[1] == '/')
  {
    var t, u := s + ("*/" + k), s + "*/";
    assert t[0] == u[0] && t[1] == u[1];
    assert u[0..2] == [u[0], u[1]] && "*/" == ['*', '/'];
  }

  lemma BlockBlanked(s: string, k: string)
    requires forall i: nat | i < |s| :: !OccursAt(s + "*/", "*/", i)
    ensures BlankComments("/*" + s + "*/" + k) == Blanked("/*" + s + "*/") + BlankComments(k)
  {
    var t := "/*" + s + "*/" + k;
    assert t[2..] == s + ("*/" + k);
    assert t[..2] == "/*" && t[0] == '/' && t[1] == '*';
    BlockEnds(s, k);
    CommentBlanked("/*" + s + "*/", k);
  }

  lemma BlankedLine(head: string, k: string)
    ensures Blanked(head) + ("\n" + k) == Blanked(head + "\n") + k
  {
    assert Blanked(head + "\n") == Blanked(head) + "\n";
  }

  lemma LineBitBlanked(s: string, k: string)
    requires ValidBit(Line(s))
    ensures BlankComments(BitTo(Line(s), k)) == GapTo(BlankBit(Line(s)), BlankComments(k))
  {
    hide BlankComments, Blanked, Whites, GapTo;
    LineBlanked(s, "\n" + k);
    NotSpecial('\n', k);
    BlankedLine("//" + s, BlankComments(k));
    WhitesTo(Blanked("//" + s + "\n"), BlankComments(k));
    LineText(s, k);
  }

  lemma LineText(s: string, k: string)
    ensures BitTo(Line(s), k) == "//" + s + ("\n" + k)
  {
  }

  lemma BlockBitBlanked(s: string, k: string)
    requires ValidBit(Block(s))
    ensures BlankComments(BitTo(Block(s), k)) == GapTo(BlankBit(Block(s)), BlankComments(k))
  {
    hide BlankComments;
    BlockBlanked(s, k);
    WhitesTo(Blanked("/*" + s + "*/"), BlankComments(k));
    assert BitTo(Block(s), k) == "/*" + s + "*/" + k;
  }

  lemma BlanksValid(t: string)
    ensures ValidGap(Whites(Blanked(t)))
  {
  }

  lemma BitBlanked(b: Bit, k: string)
    requires ValidBit(b)
    ensures BlankComments(BitTo(b, k)) == GapTo(BlankBit(b), BlankComments(k))
    ensures ValidGap(BlankBit(b))
  {
    hide BlankComments, Blanked, Whites;
    match b
    case White(c) =>
      NotSpecial(c, k);
      assert GapTo([b], BlankComments(k)) == [c] + GapTo([b][1..], BlankComments(k));
    case Line(s) => LineBitBlanked(s, k); BlanksValid("//" + s + "\n");
    case Block(s) => BlockBitBlanked(s, k); BlanksValid("/*" + s + "*/");
  }

  lemma {:induction false} GapBlanked(g: Gap, k: string)
    requires ValidGap(g)
    ensures BlankComments(GapTo(g, k)) == GapTo(BlankGap(g), BlankComments(k))
    ensures ValidGap(BlankGap(g))
  {
    hide BlankComments, BlankBit;
    if g != [] {
      BitBlanked(g[0], GapTo(g[1..], k));
      GapBlanked(g[1..], k);
      GapThen(BlankBit(g[0]), BlankGap(g[1..]), BlankComments(k));
    }
  }

  // ---- string literals are stepped over --------------------------------------------------------------------------------

  lemma HexInside(h: Hex, k: string)
    requires h.Valid()
    ensures StringRest("\\u" + (h.text + k)) == StringRest(k)
    ensures forall i | 0 <= i < 4 :: h.text[i] != ',' && !IsSpace(h.text[i]) && !IsCloser(h.text[i])
  {
    var t := "\\u" + (h.text + k);
    forall i | 0 <= i < 4 ensures IsDigit(h.text[i]) || 'a' <= h.text[i] <= 'f' || 'A' <= h.text[i] <= 'F' {
      DigitValues(h.text[i], h.digits[i]);
    }
    assert t[2..] == h.text + k;
    InsideString(h.text, k);
  }

  lemma LetterInside(x: Letter, k: string)
    requires ValidLetter(x)
    ensures StringRest(LetterTo(x, k)) == StringRest(k)
  {
    hide Hex.Valid, Hex.Number;
    match x.glyph
    case Itself => InString(x.c, k);
    case Short(m) => ShortEscapeInside(m, k); assert LetterTo(x, k) == ['\\', m] + k;
    case Unicode(h) => HexInside(h, k);
    case Surrogates(h, l) => HexInside(l, k); HexInside(h, "\\u" + (l.text + k));
  }

  lemma {:induction false} LettersInside(s: seq<Letter>, k: string)
    requires ValidLetters(s)
    ensures StringRest(LettersTo(s, "\"" + k)) == Some(k)
  {
    hide ValidLetter, LetterTo;
    if s == [] {
      assert ("\"" + k)[1..] == k;
    } else {
      LetterInside(s[0], LettersTo(s[1..], "\"" + k));
      LettersInside(s[1..], k);
    }
  }

  lemma {:induction false} LettersThen(s: seq<Letter>, k: string)
    ensures LettersTo(s, k) == LettersTo(s, "") + k
  {
    if s == [] {
      assert "" + k == k;
    } else {
      LettersThen(s[1..], k);
      LetterThen(s[0], LettersTo(s[1..], ""), k);
    }
  }

  lemma LetterThen(x: Letter, a: string, b: string)
    ensures LetterTo(x, a + b) == LetterTo(x, a) + b
  {
  }

  lemma LiteralThen(s: seq<Letter>, k: string)
    ensures LiteralTo(s, k) == LiteralTo(s, "") + k
  {
    LettersThen(s, "\"" + k);
    LettersThen(s, "\"" + "");
  }

  lemma LiteralKept(s: seq<Letter>, k: string)
    requires ValidLetters(s)
    ensures BlankComments(LiteralTo(s, k)) == LiteralTo(s, BlankComments(k))
  {
    hide ValidLetters, LettersTo;
    var t := LiteralTo(s, k);
    LettersInside(s, k);
    assert t[1..] == LettersTo(s, "\"" + k);
    assert TokenAt(t) == Literal(k);
    LiteralCopied(t, k);
    LiteralThen(s, k);
    assert t[..|t| - |k|] == LiteralTo(s, "");
    LiteralThen(s, BlankComments(k));
  }

  // ---- whole trees without their comments --------------------------------------------------------------------------------

  function BlankComma(comma: Option<Gap>): Option<Gap> { match comma case Some(g) => Some(BlankGap(g)) case None => None }

  function BlankTree(d: Tree): Tree
    decreases d, 1
  {
    match d
    case NoItems(g) => NoItems(BlankGap(g))
    case Items(items, comma) => Items(BlankItems(items), BlankComma(comma))
    case NoEntries(g) => NoEntries(BlankGap(g))
    case Entries(es, comma) => Entries(BlankEntries(es), BlankComma(comma))
    case _ => d
  }

  function BlankItems(items: seq<Item>): (r: seq<Item>)
    ensures |r| == |items|
    decreases items, 0
  {
    if items == [] then []
    else [Item(BlankGap(items[0].before), BlankTree(items[0].value), BlankGap(items[0].after))] + BlankItems(items[1..])
  }

  function BlankEntries(es: seq<Entry>): (r: seq<Entry>)
    ensures |r| == |es|
    decreases es, 0
  {
    if es == [] then []
    else
      var e := es[0];
      [Entry(BlankGap(e.before), e.key, BlankGap(e.afterKey), BlankGap(e.beforeValue), BlankTree(e.value), BlankGap(e.after))]
        + BlankEntries(es[1..])
  }

  lemma CloseBlanked(comma: Option<Gap>, close: char, k: string)
    requires comma.Some? ==> ValidGap(comma.value)
    requires close == ']' || close == '}'
    ensures BlankComments(CloseTo(comma, close, k)) == CloseTo(BlankComma(comma), close, BlankComments(k))
  {
    hide BlankComments, BlankGap, GapTo, ValidGap;
    NotSpecial(close, k);
    match comma
    case Some(g) => NotSpecial(',', GapTo(g, [close] + k)); GapBlanked(g, [close] + k);
    case None =>
  }

  lemma WordKept(d: Tree, k: string)
    requires ValidTree(d) && (d.Null? || d.Bool? || d.Num?)
    ensures BlankComments(TreeTo(d, k)) == TreeTo(d, BlankComments(k))
    ensures DropCommas(TreeTo(d, k)) == TreeTo(d, DropCommas(k))
  {
    hide BlankComments, DropCommas, Number.Text, Number.Valid;
    var w := match d case Null => "null" case Bool(b) => if b then "true" else "false" case Num(n) => n.Text() case _ => "";
    if d.Num? {
      NumberTextValid(d.number);
      NumberInert(w);
    }
    InertCopied(w, k);
    NoCommas(w, k);
  }

  lemma {:induction false} TreeBlanked(d: Tree, k: string)
    requires ValidTree(d)
    ensures BlankComments(TreeTo(d, k)) == TreeTo(BlankTree(d), BlankComments(k))
    decreases d, 2
  {
    hide BlankComments, BlankGap, GapTo, LiteralTo, CloseTo, BlankComma, Number.Text, Number.Valid, ValidLetters, ValidGap;
    match d
    case Str(s) => LiteralKept(s, k);
    case NoItems(g) => NotSpecial('[', GapTo(g, "]" + k)); GapBlanked(g, "]" + k); NotSpecial(']', k);
    case NoEntries(g) => NotSpecial('{', GapTo(g, "}" + k)); GapBlanked(g, "}" + k); NotSpecial('}', k);
    case Items(items, comma) =>
      var tail := CloseTo(comma, ']', k);
      NotSpecial('[', ListTo(items, tail));
      CloseBlanked(comma, ']', k);
      ItemsBlanked(items, tail);
    case Entries(es, comma) =>
      var tail := CloseTo(comma, '}', k);
      NotSpecial('{', EntriesTo(es, tail));
      CloseBlanked(comma, '}', k);
      EntriesBlanked(es, tail);
    case _ => WordKept(d, k);
  }

  lemma {:induction false} ItemsBlanked(items: seq<Item>, k: string)
    requires forall i | 0 <= i < |items| :: ValidGap(items[i].before) && ValidTree(items[i].value) && ValidGap(items[i].after)
    ensures BlankComments(ListTo(items, k)) == ListTo(BlankItems(items), BlankComments(k))
    decreases items, 1
  {
    hide BlankComments, BlankGap, GapTo, TreeTo, BlankTree, ValidTree, ValidGap;
    if items != [] {
      var first, rest := items[0], items[1..];
      var next := if |items| == 1 then k else "," + ListTo(rest, k);
      GapBlanked(first.before, TreeTo(first.value, GapTo(first.after, next)));
      TreeBlanked(first.value, GapTo(first.after, next));
      GapBlanked(first.after, next);
      if |items| > 1 {
        NotSpecial(',', ListTo(rest, k));
        ItemsBlanked(rest, k);
      }
      assert BlankItems(items)[1..] == BlankItems(rest);
    }
  }

  lemma {:induction false} EntriesBlanked(es: seq<Entry>, k: string)
    requires forall i | 0 <= i < |es| ::
               && ValidGap(es[i].before) && ValidLetters(es[i].key) && ValidGap(es[i].afterKey)
               && ValidGap(es[i].beforeValue) && ValidTree(es[i].value) && ValidGap(es[i].after)
    ensures BlankComments(EntriesTo(es, k)) == EntriesTo(BlankEntries(es), BlankComments(k))
    decreases es, 1
  {
    hide BlankComments, BlankGap, GapTo, TreeTo, BlankTree, ValidTree, LiteralTo, ValidLetters, ValidGap;
    if es != [] {
      var first, rest := es[0], es[1..];
      var next := if |es| == 1 then k else "," + EntriesTo(rest, k);
      var value := TreeTo(first.value, GapTo(first.after, next));
      var colon := ":" + GapTo(first.beforeValue, value);
      GapBlanked(first.before, LiteralTo(first.key, GapTo(first.afterKey, colon)));
      LiteralKept(first.key, GapTo(first.afterKey, colon));
      GapBlanked(first.afterKey, colon);
      NotSpecial(':', GapTo(first.beforeValue, value));
      GapBlanked(first.beforeValue, value);
      TreeBlanked(first.value, GapTo(first.after, next));
      GapBlanked(first.after, next);
      if |es| > 1 {
        NotSpecial(',', EntriesTo(rest, k));
        EntriesBlanked(rest, k);
      }
      assert BlankEntries(es)[1..] == BlankEntries(rest);
    }
  }

  // ---- commas are dropped ------------------------------------------------------------------------------------------------

  /** White space and then a closing bracket, all written as themselves. */
  predicate CloserComes(s: seq<Letter>) {
    s != [] && s[0].glyph.Itself? && (IsCloser(s[0].c) || (IsSpace(s[0].c) && CloserComes(s[1..])))
  }

  predicate IsComma(x: Letter) { x.glyph.Itself? && x.c == ',' }

  /** The letters without the commas that stand before white space and a closing bracket. */
  function DropLetters(s: seq<Letter>): seq<Letter> {
    if s == [] then []
    else if IsComma(s[0]) && CloserComes(s[1..]) then DropLetters(s[1..])
    else [s[0]] + DropLetters(s[1..])
  }

  /** The tree without commas behind last items, its strings and keys without the commas the reader drops. */
  function DropTree(d: Tree): Tree
    decreases d, 1
  {
    match d
    case Str(s) => Str(DropLetters(s))
    case Items(items, comma) => Items(DropItems(items, comma), None)
    case Entries(es, comma) => Entries(DropEntries(es, comma), None)
    case _ => d
  }

  function Behind(after: Gap, last: bool, comma: Option<Gap>): Gap { if last && comma.Some? then after + comma.value else after }

  function DropItems(items: seq<Item>, comma: Option<Gap>): (r: seq<Item>)
    ensures |r| == |items|
    decreases items, 0
  {
    if items == [] then []
    else
      [Item(items[0].before, DropTree(items[0].value), Behind(items[0].after, |items| == 1, comma))]
        + DropItems(items[1..], comma)
  }

  function DropEntries(es: seq<Entry>, comma: Option<Gap>): (r: seq<Entry>)
    ensures |r| == |es|
    decreases es, 0
  {
    if es == [] then []
    else
      var e := es[0];
      [Entry(e.before, DropLetters(e.key), e.afterKey, e.beforeValue, DropTree(e.value), Behind(e.after, |es| == 1, comma))]
        + DropEntries(es[1..], comma)
  }

  lemma {:induction false} GapDropped(g: Gap, k: string)
    requires ValidGap(g) && StrictGap(g)
    ensures DropCommas(GapTo(g, k)) == GapTo(g, DropCommas(k))
    ensures CloserAfter(GapTo(g, k)) == CloserAfter(k)
  {
    hide DropCommas;
    if g != [] {
      assert ValidBit(g[0]);
      var rest := GapTo(g[1..], k);
      NoComma(g[0].c, rest);
      assert GapTo(g, k)[1..] == rest;
      GapDropped(g[1..], k);
    }
  }

  lemma LetterStarts(x: Letter, k: string)
    requires ValidLetter(x)
    ensures CloserAfter(LetterTo(x, k)) == (x.glyph.Itself? && (IsCloser(x.c) || (IsSpace(x.c) && CloserAfter(k))))
  {
    var t := LetterTo(x, k);
    if x.glyph.Itself? && IsSpace(x.c) {
      assert t[1..] == k;
    } else {
      StartsPlain(t);
    }
  }

  lemma {:induction false} LettersClose(s: seq<Letter>, k: string)
    requires ValidLetters(s)
    ensures CloserAfter(LettersTo(s, "\"" + k)) == CloserComes(s)
  {
    hide ValidLetter, LetterTo, CloserAfter;
    if s == [] {
      StartsPlain("\"" + k);
    } else {
      LettersClose(s[1..], k);
      LetterStarts(s[0], LettersTo(s[1..], "\"" + k));
    }
  }

  lemma HexNoComma(h: Hex)
    requires h.Valid()
    ensures var e := "\\u" + h.text; forall i | 0 <= i < |e| :: e[i] != ','
  {
    hide Hex.Number, LOWER, UPPER;
    HexInside(h, "");
  }

  lemma HexDropped(h: Hex, k: string)
    requires h.Valid()
    ensures DropCommas("\\u" + (h.text + k)) == "\\u" + (h.text + DropCommas(k))
  {
    hide DropCommas, Hex.Valid;
    HexNoComma(h);
    NoCommas("\\u" + h.text, k);
    PrefixText("\\u", h.text, k);
    PrefixText("\\u", h.text, DropCommas(k));
  }

  lemma PrefixText(a: string, b: string, k: string)
    ensures a + (b + k) == a + b + k
  {
  }

  lemma LetterDropped(x: Letter, k: string)
    requires ValidLetter(x) && !IsComma(x)
    ensures DropCommas(LetterTo(x, k)) == LetterTo(x, DropCommas(k))
  {
    hide DropCommas, Hex.Valid, Hex.Number;
    match x.glyph
    case Itself => NoComma(x.c, k);
    case Short(m) =>
      NoCommas(['\\', m], k);
      assert LetterTo(x, k) == ['\\', m] + k;
    case Unicode(h) => HexDropped(h, k);
    case Surrogates(h, l) => HexDropped(h, "\\u" + (l.text + k)); HexDropped(l, k);
  }

  lemma {:induction false} LettersDropped(s: seq<Letter>, k: string)
    requires ValidLetters(s)
    ensures DropCommas(LettersTo(s, "\"" + k)) == LettersTo(DropLetters(s), "\"" + DropCommas(k))
    ensures ValidLetters(DropLetters(s))
  {
    hide ValidLetter, DropCommas, CloserAfter;
    if s == [] {
      NoComma('"', k);
    } else {
      var rest := LettersTo(s[1..], "\"" + k);
      LettersDropped(s[1..], k);
      if IsComma(s[0]) {
        LettersClose(s[1..], k);
        assert LettersTo(s, "\"" + k) == "," + rest;
        if CloserComes(s[1..]) { CommaDropped(rest); } else { CommaKept(rest); ConsLetters(s[0], DropLetters(s[1..]), "\"" + DropCommas(k)); }
      } else {
        LetterDropped(s[0], rest);
        ConsLetters(s[0], DropLetters(s[1..]), "\"" + DropCommas(k));
      }
    }
  }

  lemma ConsLetters(x: Letter, s: seq<Letter>, k: string)
    ensures LettersTo([x] + s, k) == LetterTo(x, LettersTo(s, k))
  {
    assert ([x] + s)[1..] == s;
  }

  lemma LiteralDropped(s: seq<Letter>, k: string)
    requires ValidLetters(s)
    ensures DropCommas(LiteralTo(s, k)) == LiteralTo(DropLetters(s), DropCommas(k))
    ensures ValidLetters(DropLetters(s))
  {
    hide ValidLetters, LettersTo, DropLetters;
    NoComma('"', LettersTo(s, "\"" + k));
    LettersDropped(s, k);
  }

  /** The gaps hold no comments; there may be commas behind last items. */
  ghost predicate BlankOnly(d: Tree) {
    match d
    case NoItems(g) => StrictGap(g)
    case Items(items, comma) =>
      && (comma.Some? ==> StrictGap(comma.value))
      && forall i | 0 <= i < |items| :: StrictGap(items[i].before) && BlankOnly(items[i].value) && StrictGap(items[i].after)
    case NoEntries(g) => StrictGap(g)
    case Entries(es, comma) =>
      && (comma.Some? ==> StrictGap(comma.value))
      && forall i | 0 <= i < |es| ::
           && StrictGap(es[i].before) && StrictGap(es[i].afterKey)
           && StrictGap(es[i].beforeValue) && BlankOnly(es[i].value) && StrictGap(es[i].after)
    case _ => true
  }

  ghost predicate GoodItem(x: Item) {
    && ValidGap(x.before) && ValidTree(x.value) && ValidGap(x.after)
    && StrictGap(x.before) && BlankOnly(x.value) && StrictGap(x.after)
  }

  ghost predicate GoodEntry(x: Entry) {
    && ValidGap(x.before) && ValidLetters(x.key) && ValidGap(x.afterKey)
    && ValidGap(x.beforeValue) && ValidTree(x.value) && ValidGap(x.after)
    && StrictGap(x.before) && StrictGap(x.afterKey) && StrictGap(x.beforeValue) && BlankOnly(x.value) && StrictGap(x.after)
  }

  ghost predicate GoodComma(comma: Option<Gap>) { comma.Some? ==> ValidGap(comma.value) && StrictGap(comma.value) }

  /** What stands behind a last item, its closing bracket included. */
  lemma CloseDropped(after: Gap, comma: Option<Gap>, close: char, k: string)
    requires ValidGap(after) && StrictGap(after) && GoodComma(comma) && (close == ']' || close == '}')
    ensures DropCommas(GapTo(after, CloseTo(comma, close, k))) == GapTo(Behind(after, true, comma), [close] + DropCommas(k))
    ensures ValidGap(Behind(after, true, comma)) && StrictGap(Behind(after, true, comma))
  {
    hide DropCommas, CloserAfter;
    NoComma(close, k);
    GapDropped(after, CloseTo(comma, close, k));
    match comma
    case None =>
    case Some(g) =>
      var tail := GapTo(g, [close] + k);
      GapDropped(g, [close] + k);
      StartsPlain([close] + k);
      CommaDropped(tail);
      GapThen(after, g, [close] + DropCommas(k));
  }

  /** A comma between two items stays, for a value or a key comes next. */
  lemma SeparatorStays(g: Gap, next: string)
    requires ValidGap(g) && StrictGap(g) && ValueStart(next)
    ensures DropCommas("," + GapTo(g, next)) == "," + DropCommas(GapTo(g, next))
  {
    hide DropCommas, CloserAfter, GapTo;
    GapDropped(g, next);
    StartsPlain(next);
    CommaKept(GapTo(g, next));
  }

  lemma NoLastComma(close: char, k: string)
    ensures CloseTo(None, close, k) == [close] + k
  {
  }

  lemma {:induction false} TreeDropped(d: Tree, k: string)
    requires ValidTree(d) && BlankOnly(d)
    ensures DropCommas(TreeTo(d, k)) == TreeTo(DropTree(d), DropCommas(k))
    ensures ValidTree(DropTree(d)) && StrictTree(DropTree(d))
    decreases d, 2
  {
    hide DropCommas, GapTo, LiteralTo, CloseTo, Number.Text, Number.Valid, ValidLetters, ValidGap, StrictGap, DropLetters;
    match d
    case Str(s) => LiteralDropped(s, k);
    case NoItems(g) => NoComma('[', GapTo(g, "]" + k)); GapDropped(g, "]" + k); NoComma(']', k);
    case NoEntries(g) => NoComma('{', GapTo(g, "}" + k)); GapDropped(g, "}" + k); NoComma('}', k);
    case Items(items, comma) =>
      assert forall i | 0 <= i < |items| :: GoodItem(items[i]);
      NoComma('[', ListTo(items, CloseTo(comma, ']', k)));
      ItemsDropped(items, comma, k);
      NoLastComma(']', DropCommas(k));
    case Entries(es, comma) =>
      assert forall i | 0 <= i < |es| :: GoodEntry(es[i]);
      NoComma('{', EntriesTo(es, CloseTo(comma, '}', k)));
      EntriesDropped(es, comma, k);
      NoLastComma('}', DropCommas(k));
    case _ => WordKept(d, k);
  }

  lemma {:induction false} ItemsDropped(items: seq<Item>, comma: Option<Gap>, k: string)
    requires items != [] && GoodComma(comma) && forall i | 0 <= i < |items| :: GoodItem(items[i])
    ensures DropCommas(ListTo(items, CloseTo(comma, ']', k))) == ListTo(DropItems(items, comma), "]" + DropCommas(k))
    ensures ValidTree(Items(DropItems(items, comma), None)) && StrictTree(Items(DropItems(items, comma), None))
    decreases items, 1
  {
    hide DropCommas, GapTo, TreeTo, DropTree, ValidTree, StrictTree, BlankOnly, CloseTo, ValidGap, StrictGap, Behind;
    var first, rest := items[0], items[1..];
    var tail := CloseTo(comma, ']', k);
    var next := if |items| == 1 then tail else "," + ListTo(rest, tail);
    var value := TreeTo(first.value, GapTo(first.after, next));
    GapDropped(first.before, value);
    TreeDropped(first.value, GapTo(first.after, next));
    if |items| == 1 {
      CloseDropped(first.after, comma, ']', k);
    } else {
      NotLast(first.after, comma);
      GapDropped(first.after, next);
      ItemsDropped(rest, comma, k);
      TreeStarts(rest[0].value, GapTo(rest[0].after, if |rest| == 1 then tail else "," + ListTo(rest[1..], tail)));
      SeparatorStays(rest[0].before, FirstItem(rest, tail));
    }
    assert DropItems(items, comma)[1..] == DropItems(rest, comma);
    ItemsGood(first, DropItems(items, comma));
  }

  lemma NotLast(after: Gap, comma: Option<Gap>)
    ensures Behind(after, false, comma) == after
  {
  }

  lemma ItemsGood(first: Item, items: seq<Item>)
    requires items != [] && ValidGap(items[0].before) && ValidTree(items[0].value) && ValidGap(items[0].after)
    requires StrictGap(items[0].before) && StrictTree(items[0].value) && StrictGap(items[0].after)
    requires |items| > 1 ==> ValidTree(Items(items[1..], None)) && StrictTree(Items(items[1..], None))
    ensures ValidTree(Items(items, None)) && StrictTree(Items(items, None))
  {
    hide ValidGap, StrictGap;
    assert forall i | 1 <= i < |items| :: items[i] == items[1..][i - 1];
  }

  lemma EntriesGood(es: seq<Entry>)
    requires es != [] && ValidGap(es[0].before) && ValidLetters(es[0].key) && ValidGap(es[0].afterKey)
    requires ValidGap(es[0].beforeValue) && ValidTree(es[0].value) && ValidGap(es[0].after)
    requires StrictGap(es[0].before) && StrictGap(es[0].afterKey)
    requires StrictGap(es[0].beforeValue) && StrictTree(es[0].value) && StrictGap(es[0].after)
    requires |es| > 1 ==> ValidTree(Entries(es[1..], None)) && StrictTree(Entries(es[1..], None))
    ensures ValidTree(Entries(es, None)) && StrictTree(Entries(es, None))
  {
    hide ValidGap, StrictGap, ValidLetters;
    assert forall i | 1 <= i < |es| :: es[i] == es[1..][i - 1];
  }

  lemma LiteralStarts(s: seq<Letter>, k: string)
    ensures ValueStart(LiteralTo(s, k))
  {
  }

  lemma {:induction false} EntriesDropped(es: seq<Entry>, comma: Option<Gap>, k: string)
    requires es != [] && GoodComma(comma) && forall i | 0 <= i < |es| :: GoodEntry(es[i])
    ensures DropCommas(EntriesTo(es, CloseTo(comma, '}', k))) == EntriesTo(DropEntries(es, comma), "}" + DropCommas(k))
    ensures ValidTree(Entries(DropEntries(es, comma), None)) && StrictTree(Entries(DropEntries(es, comma), None))
    decreases es, 1
  {
    hide DropCommas, GapTo, TreeTo, DropTree, ValidTree, StrictTree, BlankOnly, CloseTo, ValidGap, StrictGap, Behind, LiteralTo,
         ValidLetters, DropLetters;
    var first, rest := es[0], es[1..];
    var tail := CloseTo(comma, '}', k);
    var next := if |es| == 1 then tail else "," + EntriesTo(rest, tail);
    var value := TreeTo(first.value, GapTo(first.after, next));
    var colon := ":" + GapTo(first.beforeValue, value);
    GapDropped(first.before, LiteralTo(first.key, GapTo(first.afterKey, colon)));
    LiteralDropped(first.key, GapTo(first.afterKey, colon));
    GapDropped(first.afterKey, colon);
    NoComma(':', GapTo(first.beforeValue, value));
    GapDropped(first.beforeValue, value);
    TreeDropped(first.value, GapTo(first.after, next));
    if |es| == 1 {
      CloseDropped(first.after, comma, '}', k);
    } else {
      NotLast(first.after, comma);
      GapDropped(first.after, next);
      EntriesDropped(rest, comma, k);
      LiteralStarts(rest[0].key, GapTo(rest[0].afterKey, ":" + GapTo(rest[0].beforeValue, TreeTo(rest[0].value,
        GapTo(rest[0].after, if |rest| == 1 then tail else "," + EntriesTo(rest[1..], tail))))));
      SeparatorStays(rest[0].before, FirstEntry(rest, tail));
    }
    assert DropEntries(es, comma)[1..] == DropEntries(rest, comma);
    EntriesGood(DropEntries(es, comma));
  }

  // ---- the whole reader --------------------------------------------------------------------------------------------------

  lemma GoodItems(items: seq<Item>, comma: Option<Gap>)
    requires items != [] && GoodComma(comma) && forall i | 0 <= i < |items| :: GoodItem(items[i])
    ensures ValidTree(Items(items, comma)) && BlankOnly(Items(items, comma))
  {
    hide ValidGap, StrictGap;
  }

  lemma GoodEntries(es: seq<Entry>, comma: Option<Gap>)
    requires es != [] && GoodComma(comma) && forall i | 0 <= i < |es| :: GoodEntry(es[i])
    ensures ValidTree(Entries(es, comma)) && BlankOnly(Entries(es, comma))
  {
    hide ValidGap, StrictGap, ValidLetters;
  }

  lemma CommaBlanked(comma: Option<Gap>)
    requires comma.Some? ==> ValidGap(comma.value)
    ensures GoodComma(BlankComma(comma))
  {
    hide BlankGap, ValidGap, StrictGap;
    if comma.Some? { GapBlanked(comma.value, ""); }
  }

  lemma {:induction false} BlankTreeOnly(d: Tree)
    requires ValidTree(d)
    ensures ValidTree(BlankTree(d)) && BlankOnly(BlankTree(d)) && Value(DropTree(BlankTree(d))) == Value(DropTree(d))
    decreases d, 2
  {
    hide BlankGap, DropLetters, ValidLetters, ValidGap, StrictGap, Number.Valid, Spelled, GoodItem, GoodEntry, GoodComma, BlankComma,
         DropItems, DropEntries, BlankItems, BlankEntries;
    match d
    case NoItems(g) => GapBlanked(g, "");
    case NoEntries(g) => GapBlanked(g, "");
    case Items(items, comma) =>
      CommaBlanked(comma);
      BlankItemsOnly(items, comma);
      GoodItems(BlankItems(items), BlankComma(comma));
    case Entries(es, comma) =>
      CommaBlanked(comma);
      BlankEntriesOnly(es, comma);
      GoodEntries(BlankEntries(es), BlankComma(comma));
    case _ =>
  }

  lemma {:induction false} BlankItemsOnly(items: seq<Item>, comma: Option<Gap>)
    requires forall i | 0 <= i < |items| :: ValidGap(items[i].before) && ValidTree(items[i].value) && ValidGap(items[i].after)
    ensures var r := BlankItems(items);
            && (forall i | 0 <= i < |r| :: GoodItem(r[i]))
            && Values(DropItems(r, BlankComma(comma))) == Values(DropItems(items, comma))
    decreases items, 1
  {
    hide BlankGap, BlankTree, ValidTree, BlankOnly, ValidGap, StrictGap, Behind, DropTree, Value;
    if items != [] {
      var r := BlankItems(items);
      GapBlanked(items[0].before, "");
      GapBlanked(items[0].after, "");
      BlankTreeOnly(items[0].value);
      BlankItemsOnly(items[1..], comma);
      assert r[1..] == BlankItems(items[1..]);
      assert forall i | 1 <= i < |r| :: r[i] == r[1..][i - 1];
      ValuesFirst(r, BlankComma(comma));
      ValuesFirst(items, comma);
    }
  }

  lemma ValuesFirst(items: seq<Item>, comma: Option<Gap>)
    requires items != []
    ensures Values(DropItems(items, comma)) == [Value(DropTree(items[0].value))] + Values(DropItems(items[1..], comma))
  {
    hide Value, DropTree, Behind;
    assert DropItems(items, comma)[1..] == DropItems(items[1..], comma);
  }

  lemma PairsFirst(es: seq<Entry>, comma: Option<Gap>)
    requires es != []
    ensures Pairs(DropEntries(es, comma)) ==
            [Member(Spelled(DropLetters(es[0].key)), Value(DropTree(es[0].value)))] + Pairs(DropEntries(es[1..], comma))
  {
    hide Value, DropTree, Behind, Spelled, DropLetters;
    assert DropEntries(es, comma)[1..] == DropEntries(es[1..], comma);
  }

  lemma {:induction false} BlankEntriesOnly(es: seq<Entry>, comma: Option<Gap>)
    requires forall i | 0 <= i < |es| ::
               && ValidGap(es[i].before) && ValidLetters(es[i].key) && ValidGap(es[i].afterKey)
               && ValidGap(es[i].beforeValue) && ValidTree(es[i].value) && ValidGap(es[i].after)
    ensures var r := BlankEntries(es);
            && (forall i | 0 <= i < |r| :: GoodEntry(r[i]))
            && Pairs(DropEntries(r, BlankComma(comma))) == Pairs(DropEntries(es, comma))
    decreases es, 1
  {
    hide BlankGap, BlankTree, ValidTree, BlankOnly, ValidGap, StrictGap, Behind, DropTree, Value, ValidLetters, Spelled, DropLetters;
    if es != [] {
      var r := BlankEntries(es);
      GapBlanked(es[0].before, "");
      GapBlanked(es[0].afterKey, "");
      GapBlanked(es[0].beforeValue, "");
      GapBlanked(es[0].after, "");
      BlankTreeOnly(es[0].value);
      BlankEntriesOnly(es[1..], comma);
      assert r[1..] == BlankEntries(es[1..]);
      assert forall i | 1 <= i < |r| :: r[i] == r[1..][i - 1];
      PairsFirst(r, BlankComma(comma));
      PairsFirst(es, comma);
    }
  }

  /** What may stand at the very end: a line comment without a line feed. */
  lemma LastBlanked(last: Option<string>) returns (g: Gap)
    requires last.Some? ==> '\n' !in last.value
    ensures ValidGap(g) && StrictGap(g)
    ensures BlankComments(match last case Some(s) => "//" + s case None => "") == GapTo(g, "")
  {
    match last
    case Some(s) =>
      g := Whites(Blanked("//" + s));
      LineBlanked(s, "");
      WhitesTo(Blanked("//" + s), "");
      assert "//" + s + "" == "//" + s;
    case None =>
      g := [];
  }

  /**
   Whatever the layout, comments and last commas included: the text is read as its value, but for the commas inside
   strings and keys that stand before white space and a closing bracket.
   */
  lemma DocumentParsed(d: Document)
    requires d.Valid()
    ensures ParseJsonc(d.Text()) == Some(Value(DropTree(d.tree)))
  {
    hide Loads, BlankComments, DropCommas, GapTo, TreeTo, ValidTree, StrictTree, BlankOnly, ValidGap, StrictGap, DropTree, BlankTree,
         Value, BlankGap;
    var tail := match d.last case Some(s) => "//" + s case None => "";
    var tree, before, after := BlankTree(d.tree), BlankGap(d.before), BlankGap(d.after);
    var end := LastBlanked(d.last);
    var tailText := GapTo(after, GapTo(end, ""));
    GapBlanked(d.before, TreeTo(d.tree, GapTo(d.after, tail)));
    TreeBlanked(d.tree, GapTo(d.after, tail));
    GapBlanked(d.after, tail);
    assert BlankComments(d.Text()) == GapTo(before, TreeTo(tree, tailText));
    BlankTreeOnly(d.tree);
    GapDropped(before, TreeTo(tree, tailText));
    TreeDropped(tree, tailText);
    GapDropped(after, GapTo(end, ""));
    GapDropped(end, "");
    NothingDropped();
    GapThen(after, end, "");
    StrictAppend(after, end);
    var strict := Document(before, DropTree(tree), after + end, None);
    assert strict.Text() == DropCommas(BlankComments(d.Text()));
    DocumentRead(strict);
  }

  lemma NothingDropped()
    ensures DropCommas("") == ""
  {
  }

  lemma StrictAppend(a: Gap, b: Gap)
    requires ValidGap(a) && StrictGap(a) && ValidGap(b) && StrictGap(b)
    ensures ValidGap(a + b) && StrictGap(a + b)
  {
  }

  // ---- texts that lose nothing -------------------------------------------------------------------------------------------

  /** A comma at i, white space, and a closing bracket at j, all written as themselves. */
  predicate LetterRun(s: seq<Letter>, i: nat, j: nat): (r: bool)
    ensures r ==> i < j
  {
    && i < j < |s| && IsComma(s[i]) && s[j].glyph.Itself? && IsCloser(s[j].c)
    && forall m | i < m < j :: s[m].glyph.Itself? && IsSpace(s[m].c)
  }

  ghost predicate Runless(s: seq<Letter>) { forall i: nat, j: nat :: !LetterRun(s, i, j) }

  /** No string and no key of the text has a comma before white space and a closing bracket. */
  ghost predicate Lossless(d: Tree) {
    match d
    case Str(s) => Runless(s)
    case Items(items, _) => forall i | 0 <= i < |items| :: Lossless(items[i].value)
    case Entries(es, _) => forall i | 0 <= i < |es| :: Runless(es[i].key) && Lossless(es[i].value)
    case _ => true
  }

  lemma {:induction false} CloserAhead(s: seq<Letter>) returns (j: nat)
    requires CloserComes(s)
    ensures j < |s| && s[j].glyph.Itself? && IsCloser(s[j].c) && forall m | 0 <= m < j :: s[m].glyph.Itself? && IsSpace(s[m].c)
  {
    if IsCloser(s[0].c) {
      j := 0;
    } else {
      var i := CloserAhead(s[1..]);
      j := i + 1;
      assert forall m | 1 <= m < |s| :: s[m] == s[1..][m - 1];
    }
  }

  lemma RunlessTail(s: seq<Letter>)
    requires s != [] && Runless(s)
    ensures Runless(s[1..])
  {
    var w := s[1..];
    forall i: nat, j: nat ensures !LetterRun(w, i, j) {
      if LetterRun(w, i, j) {
        assert forall m | 0 <= m < |w| :: w[m] == s[m + 1];
        assert forall m | i + 1 < m < j + 1 :: s[m] == w[m - 1];
        assert LetterRun(s, i + 1, j + 1);
      }
    }
  }

  lemma {:induction false} RunlessKept(s: seq<Letter>)
    requires Runless(s)
    ensures DropLetters(s) == s
  {
    hide Runless;
    if s != [] {
      RunlessTail(s);
      RunlessKept(s[1..]);
      if IsComma(s[0]) && CloserComes(s[1..]) { CommaRuns(s); }
      assert s == [s[0]] + s[1..];
    }
  }

  lemma CommaRuns(s: seq<Letter>)
    requires s != [] && IsComma(s[0]) && CloserComes(s[1..])
    ensures !Runless(s)
  {
    var j := CloserAhead(s[1..]);
    assert forall m | 0 < m < |s| :: s[m] == s[1..][m - 1];
    assert LetterRun(s, 0, j + 1);
  }

  lemma {:induction false} LosslessKept(d: Tree)
    requires Lossless(d)
    ensures Value(DropTree(d)) == Value(d)
    decreases d, 2
  {
    hide Runless, DropLetters, Spelled;
    match d
    case Str(s) => RunlessKept(s);
    case Items(items, comma) => LosslessItems(items, comma);
    case Entries(es, comma) => LosslessEntries(es, comma);
    case _ =>
  }

  lemma {:induction false} LosslessItems(items: seq<Item>, comma: Option<Gap>)
    requires forall i | 0 <= i < |items| :: Lossless(items[i].value)
    ensures Values(DropItems(items, comma)) == Values(items)
    decreases items, 1
  {
    hide DropTree, Value, Lossless, Behind;
    if items != [] {
      LosslessKept(items[0].value);
      LosslessItems(items[1..], comma);
      ValuesFirst(items, comma);
    }
  }

  lemma {:induction false} LosslessEntries(es: seq<Entry>, comma: Option<Gap>)
    requires forall i | 0 <= i < |es| :: Runless(es[i].key) && Lossless(es[i].value)
    ensures Pairs(DropEntries(es, comma)) == Pairs(es)
    decreases es, 1
  {
    hide DropTree, Value, Lossless, Behind, Runless, DropLetters, Spelled;
    if es != [] {
      RunlessKept(es[0].key);
      LosslessKept(es[0].value);
      LosslessEntries(es[1..], comma);
      PairsFirst(es, comma);
    }
  }

  /** What the reader promises: any layout, comments and last commas, and the value is read. */
  lemma LosslessParsed(d: Document)
    requires d.Valid() && Lossless(d.tree)
    ensures ParseJsonc(d.Text()) == Some(Value(d.tree))
  {
    hide ParseJsonc, Value, DropTree;
    DocumentParsed(d);
    LosslessKept(d.tree);
  }
}
