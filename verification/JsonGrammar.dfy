/**
 JSON text as RFC 8259 defines it, written as syntax trees: a tree says what stands between any two tokens, how each
 character of a string is written, and which parts a number has. Comments and a comma behind the last item, which only
 the comment-tolerant reader accepts, are part of the trees; a strict tree has none. A tree's text takes the text k
 that is to follow it.
 */
module JsonGrammar {
  import opened Text
  import opened Json

  // ---- between the tokens ------------------------------------------------------------------------------------------

  datatype Bit = White(c: char) | Line(text: string) | Block(text: string)

  type Gap = seq<Bit>

  predicate ValidBit(b: Bit) {
    match b
    case White(c) => c == ' ' || c == '\t' || c == '\n' || c == '\r'
    case Line(s) => '\n' !in s
    case Block(s) => forall i: nat | i < |s| :: !OccursAt(s + "*/", "*/", i)
  }

  predicate ValidGap(g: Gap) { forall i | 0 <= i < |g| :: ValidBit(g[i]) }

  function BitTo(b: Bit, k: string): string {
    match b
    case White(c) => [c] + k
    case Line(s) => "//" + (s + ("\n" + k))
    case Block(s) => "/*" + (s + ("*/" + k))
  }

  function GapTo(g: Gap, k: string): string { if g == [] then k else BitTo(g[0], GapTo(g[1..], k)) }

  predicate StrictGap(g: Gap) { forall i | 0 <= i < |g| :: g[i].White? }

  // ---- strings (section 7) -------------------------------------------------------------------------------------------

  const LOWER := "0123456789abcdef"
  const UPPER := "0123456789ABCDEF"

  /** Four hexadecimal digits in either case, and their values. */
  datatype Hex = Hex(text: string, digits: seq<nat>) {
    predicate Valid() {
      |text| == 4 == |digits| && forall i | 0 <= i < 4 :: digits[i] < 16 && (text[i] == LOWER[digits[i]] || text[i] == UPPER[digits[i]])
    }

    function Number(): nat
      requires Valid()
    {
      ((digits[0] * 16 + digits[1]) * 16 + digits[2]) * 16 + digits[3]
    }
  }

  /** How a character is written: as itself, by a two-character escape, or by one or two hexadecimal ones. */
  datatype Glyph = Itself | Short(mark: char) | Unicode(hex: Hex) | Surrogates(high: Hex, low: Hex)

  datatype Letter = Letter(c: char, glyph: Glyph)

  predicate ValidLetter(x: Letter) {
    var n := x.c as int;
    match x.glyph
    case Itself => n >= 0x20 && x.c != '"' && x.c != '\\'
    case Short(m) =>
      || (m == x.c && (m == '"' || m == '\\' || m == '/'))
      || (m == 'b' && n == 8) || (m == 'f' && n == 12) || (m == 'n' && n == 10) || (m == 'r' && n == 13) || (m == 't' && n == 9)
    case Unicode(h) => h.Valid() && h.Number() == n
    case Surrogates(h, l) =>
      && h.Valid() && l.Valid() && 0xD800 <= h.Number() < 0xDC00 <= l.Number() < 0xE000
      && n == 0x10000 + (h.Number() - 0xD800) * 1024 + (l.Number() - 0xDC00)
  }

  function LetterTo(x: Letter, k: string): string {
    match x.glyph
    case Itself => [x.c] + k
    case Short(m) => "\\" + ([m] + k)
    case Unicode(h) => "\\u" + (h.text + k)
    case Surrogates(h, l) => "\\u" + (h.text + ("\\u" + (l.text + k)))
  }

  predicate ValidLetters(s: seq<Letter>) { forall i | 0 <= i < |s| :: ValidLetter(s[i]) }

  function LettersTo(s: seq<Letter>, k: string): string { if s == [] then k else LetterTo(s[0], LettersTo(s[1..], k)) }

  function LiteralTo(s: seq<Letter>, k: string): string { "\"" + LettersTo(s, "\"" + k) }

  function Spelled(s: seq<Letter>): string { seq(|s|, i requires 0 <= i < |s| => s[i].c) }

  // ---- numbers (section 6) -------------------------------------------------------------------------------------------

  predicate Digits(s: string) { s != "" && forall i | 0 <= i < |s| :: '0' <= s[i] <= '9' }

  datatype Exponent = Exponent(letter: char, sign: string, digits: string) {
    predicate Valid() { (letter == 'e' || letter == 'E') && (sign == "" || sign == "+" || sign == "-") && Digits(digits) }
  }

  datatype Number = Number(minus: bool, whole: string, fraction: Option<string>, exponent: Option<Exponent>) {
    predicate Valid() {
      && Digits(whole) && (whole[0] == '0' ==> |whole| == 1)
      && (fraction.Some? ==> Digits(fraction.value))
      && (exponent.Some? ==> exponent.value.Valid())
    }

    function FractionText(): string { if fraction.Some? then "." + fraction.value else "" }

    function ExponentText(): string {
      if exponent.Some? then [exponent.value.letter] + exponent.value.sign + exponent.value.digits else ""
    }

    function Text(): string { (if minus then "-" else "") + (whole + (FractionText() + ExponentText())) }
  }

  // ---- values --------------------------------------------------------------------------------------------------------

  datatype Item = Item(before: Gap, value: Tree, after: Gap)

  datatype Entry = Entry(before: Gap, key: seq<Letter>, afterKey: Gap, beforeValue: Gap, value: Tree, after: Gap)

  /** A container's comma is what stands behind a comma after its last item, if there is such a comma. */
  datatype Tree =
    | Null
    | Bool(b: bool)
    | Num(number: Number)
    | Str(letters: seq<Letter>)
    | NoItems(gap: Gap)
    | Items(items: seq<Item>, comma: Option<Gap>)
    | NoEntries(gap: Gap)
    | Entries(entries: seq<Entry>, comma: Option<Gap>)

  ghost predicate ValidTree(d: Tree) {
    match d
    case Null => true
    case Bool(_) => true
    case Num(n) => n.Valid()
    case Str(s) => ValidLetters(s)
    case NoItems(g) => ValidGap(g)
    case Items(items, comma) =>
      && items != [] && (comma.Some? ==> ValidGap(comma.value))
      && forall i | 0 <= i < |items| :: ValidGap(items[i].before) && ValidTree(items[i].value) && ValidGap(items[i].after)
    case NoEntries(g) => ValidGap(g)
    case Entries(es, comma) =>
      && es != [] && (comma.Some? ==> ValidGap(comma.value))
      && forall i | 0 <= i < |es| ::
           && ValidGap(es[i].before) && ValidLetters(es[i].key) && ValidGap(es[i].afterKey)
           && ValidGap(es[i].beforeValue) && ValidTree(es[i].value) && ValidGap(es[i].after)
  }

  /** RFC 8259 proper: no comments, no comma behind a last item. */
  ghost predicate StrictTree(d: Tree) {
    match d
    case NoItems(g) => StrictGap(g)
    case Items(items, comma) =>
      && comma == None
      && forall i | 0 <= i < |items| :: StrictGap(items[i].before) && StrictTree(items[i].value) && StrictGap(items[i].after)
    case NoEntries(g) => StrictGap(g)
    case Entries(es, comma) =>
      && comma == None
      && forall i | 0 <= i < |es| ::
           && StrictGap(es[i].before) && StrictGap(es[i].afterKey)
           && StrictGap(es[i].beforeValue) && StrictTree(es[i].value) && StrictGap(es[i].after)
    case _ => true
  }

  function CloseTo(comma: Option<Gap>, close: char, k: string): string {
    match comma
    case None => [close] + k
    case Some(g) => "," + GapTo(g, [close] + k)
  }

  function TreeTo(d: Tree, k: string): string
    decreases d, 1
  {
    match d
    case Null => "null" + k
    case Bool(b) => (if b then "true" else "false") + k
    case Num(n) => n.Text() + k
    case Str(s) => LiteralTo(s, k)
    case NoItems(g) => "[" + GapTo(g, "]" + k)
    case Items(items, comma) => "[" + ListTo(items, CloseTo(comma, ']', k))
    case NoEntries(g) => "{" + GapTo(g, "}" + k)
    case Entries(es, comma) => "{" + EntriesTo(es, CloseTo(comma, '}', k))
  }

  function ListTo(items: seq<Item>, k: string): string
    decreases items, 0
  {
    if items == [] then k
    else
      var next := if |items| == 1 then k else "," + ListTo(items[1..], k);
      GapTo(items[0].before, TreeTo(items[0].value, GapTo(items[0].after, next)))
  }

  function EntriesTo(es: seq<Entry>, k: string): string
    decreases es, 0
  {
    if es == [] then k
    else
      var next := if |es| == 1 then k else "," + EntriesTo(es[1..], k);
      GapTo(es[0].before, LiteralTo(es[0].key, GapTo(es[0].afterKey,
        ":" + GapTo(es[0].beforeValue, TreeTo(es[0].value, GapTo(es[0].after, next))))))
  }

  /** The value a tree stands for, every dict built from its entries in order. */
  function Value(d: Tree): JSON
    decreases d, 1
  {
    match d
    case Null => JNull
    case Bool(b) => JBool(b)
    case Num(n) => JNumber(n.Text())
    case Str(s) => JString(Spelled(s))
    case NoItems(_) => JArray([])
    case Items(items, _) => JArray(Values(items))
    case NoEntries(_) => JObject([])
    case Entries(es, _) => JObject(Dict(Pairs(es)))
  }

  function Values(items: seq<Item>): seq<JSON>
    decreases items, 0
  {
    if items == [] then [] else [Value(items[0].value)] + Values(items[1..])
  }

  function Pairs(es: seq<Entry>): seq<Member>
    decreases es, 0
  {
    if es == [] then [] else [Member(Spelled(es[0].key), Value(es[0].value))] + Pairs(es[1..])
  }

  // ---- whole texts ---------------------------------------------------------------------------------------------------

  /** A value with what stands around it; a line comment may end the text without a line feed. */
  datatype Document = Document(before: Gap, tree: Tree, after: Gap, last: Option<string>) {
    ghost predicate Valid() {
      ValidGap(before) && ValidTree(tree) && ValidGap(after) && (last.Some? ==> '\n' !in last.value)
    }

    ghost predicate Strict() { StrictGap(before) && StrictTree(tree) && StrictGap(after) && last == None }

    function Text(): string {
      GapTo(before, TreeTo(tree, GapTo(after, match last case Some(s) => "//" + s case None => "")))
    }
  }

  /** t is a text of v (section 2). */
  ghost predicate IsText(t: string, v: JSON) {
    exists d: Document :: d.Valid() && d.Strict() && d.Text() == t && Value(d.tree) == v
  }
}
