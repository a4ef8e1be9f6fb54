/** The reader accepts exactly the texts of RFC 8259 and reads the value each of them stands for. */
module JsonReader {
  import opened Text
  import opened Json
  import opened JsonText
  import opened JsonGrammar
  import opened ParseFacts

  // ---- between the tokens ------------------------------------------------------------------------------------------

  lemma {:induction false} GapSkipped(g: Gap, k: string)
    requires ValidGap(g) && StrictGap(g)
    ensures SkipBlanks(GapTo(g, k)) == SkipBlanks(k)
    ensures EndsNumber(k) ==> EndsNumber(GapTo(g, k))
  {
    if g != [] {
      GapSkipped(g[1..], k);
      assert ValidBit(g[0]) && GapTo(g, k)[1..] == GapTo(g[1..], k);
    }
  }

  lemma {:induction false} GapRead(t: string) returns (g: Gap)
    ensures ValidGap(g) && StrictGap(g) && GapTo(g, SkipBlanks(t)) == t
  {
    if t != "" && IsBlank(t[0]) {
      var rest := GapRead(t[1..]);
      g := [White(t[0])] + rest;
      assert g[1..] == rest && t == [t[0]] + t[1..];
    } else {
      g := [];
    }
  }

  lemma Solid(t: string)
    requires t != "" && !IsBlank(t[0])
    ensures SkipBlanks(t) == t
  {
  }

  // ---- strings -------------------------------------------------------------------------------------------------------

  lemma DigitValues(c: char, d: nat)
    ensures HexValue(c) == Some(d) <==> d < 16 && (c == LOWER[d] || c == UPPER[d])
  {
    assert forall i: nat | i < 10 :: LOWER[i] == '0' + i as char == UPPER[i];
    assert forall i: nat | 10 <= i < 16 :: LOWER[i] == 'a' + (i - 10) as char && UPPER[i] == 'A' + (i - 10) as char;
  }

  lemma Sixteen()
    ensures |LOWER| == 16 == |UPPER|
  {
  }

  lemma HexTextRead(h: Hex, k: string)
    requires h.Valid()
    ensures ReadHex4(h.text + k) == Some(h.Number()) && (h.text + k)[4..] == k
  {
    hide HexValue, LOWER, UPPER;
    var t := h.text + k;
    forall i | 0 <= i < 4 ensures HexValue(t[i]) == Some(h.digits[i]) { DigitValues(t[i], h.digits[i]); }
  }

  lemma HexRead(t: string) returns (h: Hex)
    requires ReadHex4(t).Some?
    ensures h.Valid() && h.Number() == ReadHex4(t).value && h.text + t[4..] == t
  {
    hide HexValue, LOWER, UPPER;
    Sixteen();
    var ds: seq<nat> := [HexValue(t[0]).value, HexValue(t[1]).value, HexValue(t[2]).value, HexValue(t[3]).value];
    h := Hex(t[..4], ds);
    forall i | 0 <= i < 4 ensures ds[i] < 16 && (t[i] == LOWER[ds[i]] || t[i] == UPPER[ds[i]]) { DigitValues(t[i], ds[i]); }
  }

  lemma UnicodeTextRead(x: Letter, k: string)
    requires ValidLetter(x) && x.glyph.Unicode?
    ensures UnescapeUnicode(x.glyph.hex.text + k) == Some((x.c, k))
  {
    hide ReadHex4;
    HexTextRead(x.glyph.hex, k);
  }

  lemma SurrogatesTextRead(x: Letter, k: string)
    requires ValidLetter(x) && x.glyph.Surrogates?
    ensures UnescapeUnicode(x.glyph.high.text + ("\\u" + (x.glyph.low.text + k))) == Some((x.c, k))
  {
    hide ReadHex4, Hex.Number;
    var low := x.glyph.low.text + k;
    var t := x.glyph.high.text + ("\\u" + low);
    HexTextRead(x.glyph.high, "\\u" + low);
    HexTextRead(x.glyph.low, k);
    assert t[4] == '\\' && t[5] == 'u' && t[6..] == low && t[10..] == low[4..];
  }

  lemma EscapeTextRead(x: Letter, k: string)
    requires ValidLetter(x) && !x.glyph.Itself?
    ensures var t := LetterTo(x, k); t != "" && t[0] == '\\' && Unescape(t[1..]) == Some((x.c, k))
  {
    hide UnescapeUnicode, Hex.Valid, Hex.Number;
    var t := LetterTo(x, k);
    match x.glyph
    case Short(m) =>
      assert t[1..] == [m] + k && t[1..][1..] == k;
    case Unicode(h) =>
      assert t[1..][1..] == h.text + k;
      UnicodeTextRead(x, k);
    case Surrogates(h, l) =>
      assert t[1..][1..] == h.text + ("\\u" + (l.text + k));
      SurrogatesTextRead(x, k);
  }

  lemma SpelledCons(s: seq<Letter>)
    requires s != []
    ensures Spelled(s) == [s[0].c] + Spelled(s[1..])
  {
  }

  /** A string literal is read as the characters it spells, however each is written. */
  lemma {:induction false} LettersTextRead(s: seq<Letter>, k: string)
    requires ValidLetters(s)
    ensures ReadChars(LettersTo(s, "\"" + k)) == Some((Spelled(s), k))
  {
    hide Unescape, Spelled;
    if s == [] {
      NothingSpelled();
      assert ("\"" + k)[1..] == k;
    } else {
      var rest := LettersTo(s[1..], "\"" + k);
      LettersTextRead(s[1..], k);
      SpelledCons(s);
      if s[0].glyph.Itself? {
        assert ([s[0].c] + rest)[1..] == rest;
      } else {
        EscapeTextRead(s[0], rest);
      }
    }
  }

  lemma NothingSpelled()
    ensures Spelled([]) == ""
  {
  }

  lemma UnicodeRead(t: string) returns (x: Letter)
    requires UnescapeUnicode(t).Some?
    ensures var (c, rest) := UnescapeUnicode(t).value; ValidLetter(x) && x.c == c && LetterTo(x, rest) == "\\u" + t
  {
    hide ReadHex4, Hex.Valid, Hex.Number;
    var (c, rest) := UnescapeUnicode(t).value;
    var h := HexRead(t);
    if h.Number() < 0xD800 || 0xE000 <= h.Number() {
      x := Letter(c, Unicode(h));
    } else {
      var l := HexRead(t[6..]);
      x := Letter(c, Surrogates(h, l));
      assert t[6..][4..] == t[10..];
      assert t[4..] == "\\u" + t[6..];
    }
  }

  lemma EscapeRead(t: string) returns (x: Letter)
    requires Unescape(t).Some?
    ensures var (c, rest) := Unescape(t).value; ValidLetter(x) && x.c == c && LetterTo(x, rest) == "\\" + t
  {
    hide UnescapeUnicode, Hex.Valid, Hex.Number;
    if t[0] == 'u' {
      x := UnicodeRead(t[1..]);
      assert "\\u" + t[1..] == "\\" + t;
    } else {
      var (c, rest) := Unescape(t).value;
      x := Letter(c, Short(t[0]));
      assert t == [t[0]] + rest;
    }
  }

  lemma {:induction false} LettersRead(t: string) returns (s: seq<Letter>)
    requires ReadChars(t).Some?
    ensures var (v, rest) := ReadChars(t).value; ValidLetters(s) && Spelled(s) == v && LettersTo(s, "\"" + rest) == t
    decreases |t|
  {
    hide Unescape, ValidLetter, LetterTo, Spelled;
    if t[0] == '"' {
      NothingSpelled();
      s := [];
      assert t == "\"" + t[1..];
    } else {
      var x: Letter, tail: string;
      if t[0] == '\\' {
        tail := Unescape(t[1..]).value.1;
        x := EscapeRead(t[1..]);
        assert t == "\\" + t[1..];
      } else {
        tail := t[1..];
        x := PlainRead(t);
      }
      var more := LettersRead(tail);
      s := [x] + more;
      assert s[1..] == more;
      SpelledCons(s);
    }
  }

  lemma PlainRead(t: string) returns (x: Letter)
    requires t != "" && t[0] != '"' && t[0] != '\\' && t[0] >= ' '
    ensures ValidLetter(x) && x.c == t[0] && LetterTo(x, t[1..]) == t
  {
    x := Letter(t[0], Itself);
    assert t == [t[0]] + t[1..];
  }

  // ---- numbers -------------------------------------------------------------------------------------------------------

  lemma {:induction false} DigitsSkipped(s: string, k: string)
    requires (forall i | 0 <= i < |s| :: IsDigit(s[i])) && (k == "" || !IsDigit(k[0]))
    ensures SkipDigits(s + k) == k
  {
    if s == "" {
      assert s + k == k;
    } else {
      assert (s + k)[1..] == s[1..] + k;
      DigitsSkipped(s[1..], k);
    }
  }

  lemma AllDigits(s: string)
    requires Digits(s)
    ensures forall i | 0 <= i < |s| :: IsDigit(s[i])
    ensures s == [s[0]] + s[1..]
  {
  }

  lemma ExponentSkipped(n: Number)
    requires n.Valid()
    ensures SkipExponent(n.ExponentText()) == ""
    ensures n.ExponentText() != "" ==> n.ExponentText()[0] == 'e' || n.ExponentText()[0] == 'E'
  {
    if n.exponent.Some? {
      var e := n.exponent.value;
      var t := n.ExponentText();
      AllDigits(e.digits);
      DigitsSkipped(e.digits, "");
      assert e.digits + "" == e.digits;
      assert t[1..] == e.sign + e.digits;
      if e.sign == "" { assert t[1..] == e.digits; } else { assert t[2..] == e.digits && t[1] == e.sign[0]; }
    }
  }

  lemma FractionSkipped(n: Number)
    requires n.Valid()
    ensures SkipFraction(n.FractionText() + n.ExponentText()) == n.ExponentText()
    ensures var t := n.FractionText() + n.ExponentText(); t == "" || !IsDigit(t[0])
  {
    hide SkipDigits;
    ExponentSkipped(n);
    var t := n.FractionText() + n.ExponentText();
    if n.fraction.Some? {
      AllDigits(n.fraction.value);
      assert t[1..] == n.fraction.value + n.ExponentText();
      DigitsSkipped(n.fraction.value, n.ExponentText());
    } else {
      assert t == n.ExponentText();
    }
  }

  lemma WholeSkipped(n: Number, tail: string)
    requires n.Valid() && (tail == "" || !IsDigit(tail[0]))
    ensures var a := n.whole + tail;
            && a != "" && IsDigit(a[0]) && a[0] != '-'
            && (if a[0] == '0' then a[1..] else SkipDigits(a[1..])) == tail
  {
    hide SkipDigits;
    var a := n.whole + tail;
    AllDigits(n.whole);
    assert a[0] == n.whole[0] && a[1..] == n.whole[1..] + tail;
    DigitsSkipped(n.whole[1..], tail);
    if n.whole[0] == '0' { assert n.whole[1..] == "" && "" + tail == tail; }
  }

  /** The parts of a number make a number's text. */
  lemma NumberTextValid(n: Number)
    requires n.Valid()
    ensures ValidNumber(n.Text())
  {
    hide SkipDigits, SkipFraction, SkipExponent, Number.FractionText, Number.ExponentText;
    var tail := n.FractionText() + n.ExponentText();
    var t := n.Text();
    FractionSkipped(n);
    ExponentSkipped(n);
    WholeSkipped(n, tail);
    hide Number.Valid;
    if n.minus { assert t[1..] == n.whole + tail; } else { assert t == n.whole + tail; }
  }

  lemma {:induction false} DigitsSplit(t: string) returns (d: string)
    ensures t == d + SkipDigits(t) && forall i | 0 <= i < |d| :: IsDigit(d[i])
  {
    if t != "" && IsDigit(t[0]) {
      var more := DigitsSplit(t[1..]);
      d := [t[0]] + more;
      assert t == [t[0]] + t[1..];
    } else {
      d := "";
    }
  }

  lemma FirstDigits(t: string) returns (d: string)
    requires t != "" && IsDigit(t[0])
    ensures Digits(d) && t == d + SkipDigits(t)
  {
    d := DigitsSplit(t);
  }

  lemma ExponentSplit(t: string) returns (e: Option<Exponent>)
    requires SkipExponent(t) == ""
    ensures e.Some? ==> e.value.Valid()
    ensures t == if e.Some? then [e.value.letter] + e.value.sign + e.value.digits else ""
  {
    hide SkipDigits;
    if t == "" {
      e := None;
    } else {
      var signed := |t| > 1 && (t[1] == '+' || t[1] == '-');
      var x := if signed then t[2..] else t[1..];
      var d := FirstDigits(x);
      e := Some(Exponent(t[0], if signed then [t[1]] else "", d));
      assert d + "" == d;
      if signed { assert t == [t[0]] + [t[1]] + t[2..]; } else { assert t == [t[0]] + "" + t[1..]; }
    }
  }

  lemma FractionSplit(t: string) returns (f: Option<string>)
    ensures f.Some? ==> Digits(f.value)
    ensures t == (if f.Some? then "." + f.value else "") + SkipFraction(t)
  {
    hide SkipDigits;
    if |t| > 1 && t[0] == '.' && IsDigit(t[1]) {
      var d := FirstDigits(t[1..]);
      f := Some(d);
      assert t == "." + t[1..];
    } else {
      f := None;
    }
  }

  /** A number's text has parts. */
  lemma NumberSplit(s: string) returns (n: Number)
    requires ValidNumber(s)
    ensures n.Valid() && n.Text() == s
  {
    hide SkipDigits, SkipFraction, SkipExponent;
    var minus := s[0] == '-';
    var a := if minus then s[1..] else s;
    var whole := WholeSplit(a);
    var i := if a[0] == '0' then a[1..] else SkipDigits(a[1..]);
    var f := FractionSplit(i);
    var e := ExponentSplit(SkipFraction(i));
    n := Number(minus, whole, f, e);
    assert n.FractionText() + n.ExponentText() == i;
    if minus { assert s == "-" + s[1..]; }
  }

  lemma WholeSplit(a: string) returns (whole: string)
    requires a != "" && IsDigit(a[0])
    ensures Digits(whole) && (whole[0] == '0' ==> |whole| == 1)
    ensures a == whole + if a[0] == '0' then a[1..] else SkipDigits(a[1..])
  {
    assert a == [a[0]] + a[1..];
    if a[0] == '0' {
      whole := "0";
    } else {
      var more := DigitsSplit(a[1..]);
      whole := [a[0]] + more;
    }
  }

  // ---- every text of a value is read as that value -------------------------------------------------------------------

  lemma {:induction false} TreeStarts(d: Tree, k: string)
    requires ValidTree(d)
    ensures ValueStart(TreeTo(d, k))
  {
    if d.Num? {
      NumberTextValid(d.number);
      NumberThen(d.number.Text(), "");
    }
  }

  lemma StartIsSolid(t: string)
    requires ValueStart(t)
    ensures t != "" && !IsBlank(t[0]) && SkipBlanks(t) == t
  {
  }

  lemma WordTextRead(d: Tree, k: string)
    requires d.Null? || d.Bool?
    ensures ReadValue(TreeTo(d, k)) == Some((Value(d), k))
  {
    WordReadBack(Value(d), Compact, 0, k);
  }

  lemma EmptyTextRead(d: Tree, k: string)
    requires ValidTree(d) && StrictTree(d) && (d.NoItems? || d.NoEntries?)
    ensures ReadValue(TreeTo(d, k)) == Some((Value(d), k))
  {
    var close := if d.NoItems? then "]" else "}";
    var t := TreeTo(d, k);
    GapSkipped(d.gap, close + k);
    Solid(close + k);
    assert t[1..] == GapTo(d.gap, close + k) && (close + k)[1..] == k;
  }

  lemma ValueStep(d: Tree, g: Gap, next: string)
    requires ValidTree(d) && ValidGap(g) && StrictGap(g)
    ensures SkipBlanks(GapTo(g, TreeTo(d, next))) == TreeTo(d, next)
  {
    hide TreeTo, ValidTree, SkipBlanks;
    GapSkipped(g, TreeTo(d, next));
    TreeStarts(d, next);
    StartIsSolid(TreeTo(d, next));
  }

  /** Reading a text with anything behind it that cannot prolong a number. */
  lemma {:induction false} TextRead(d: Tree, k: string)
    requires ValidTree(d) && StrictTree(d) && EndsNumber(k)
    ensures ReadValue(TreeTo(d, k)) == Some((Value(d), k))
    decreases d, 2
  {
    hide ReadValue, SkipBlanks, ReadChars, NumberRest, Number.Text, Number.Valid;
    match d
    case Null => WordTextRead(d, k);
    case Bool(_) => WordTextRead(d, k);
    case Num(n) => NumberTextValid(n); NumberReadBack(n.Text(), k);
    case Str(s) => LettersTextRead(s, k); ReadLiteral(s, k);
    case NoItems(_) => EmptyTextRead(d, k);
    case NoEntries(_) => EmptyTextRead(d, k);
    case Items(items, _) =>
      ItemsTextRead(items, k);
      ItemsBegin(items, "]" + k);
      ArrayStep(TreeTo(d, k), ListTo(items, "]" + k), Values(items), k);
    case Entries(es, _) =>
      EntriesTextRead(es, k);
      EntriesBegin(es, "}" + k);
      ObjectStep(TreeTo(d, k), EntriesTo(es, "}" + k), Pairs(es), k);
  }

  lemma ReadLiteral(s: seq<Letter>, k: string)
    requires ReadChars(LettersTo(s, "\"" + k)) == Some((Spelled(s), k))
    ensures ReadValue(LiteralTo(s, k)) == Some((JString(Spelled(s)), k))
  {
    assert LiteralTo(s, k)[1..] == LettersTo(s, "\"" + k);
  }

  lemma ArrayStep(t: string, body: string, vs: seq<JSON>, k: string)
    requires t == "[" + body && ValueStart(SkipBlanks(body)) && ReadItems(SkipBlanks(body)) == Some((vs, k))
    ensures ReadValue(t) == Some((JArray(vs), k))
  {
    hide SkipBlanks, ReadItems;
    assert t[1..] == body;
    ReadArrayStep(t, SkipBlanks(body), vs, k);
  }

  lemma ObjectStep(t: string, body: string, ms: seq<Member>, k: string)
    requires t == "{" + body && ValueStart(SkipBlanks(body)) && ReadMembers(SkipBlanks(body)) == Some((ms, k))
    ensures ReadValue(t) == Some((JObject(Dict(ms)), k))
  {
    hide SkipBlanks, ReadMembers;
    assert t[1..] == body;
    ReadObjectStep(t, SkipBlanks(body), ms, k);
  }

  /** What stands at the first item once the gap in front of it is skipped. */
  function FirstItem(items: seq<Item>, k: string): string
    requires items != []
  {
    TreeTo(items[0].value, GapTo(items[0].after, if |items| == 1 then k else "," + ListTo(items[1..], k)))
  }

  lemma ItemsBegin(items: seq<Item>, k: string)
    requires items != [] && ValidTree(items[0].value) && ValidGap(items[0].before) && StrictGap(items[0].before)
    ensures SkipBlanks(ListTo(items, k)) == FirstItem(items, k) && ValueStart(FirstItem(items, k))
  {
    hide SkipBlanks, TreeTo, ValidTree, GapTo;
    var next := GapTo(items[0].after, if |items| == 1 then k else "," + ListTo(items[1..], k));
    ValueStep(items[0].value, items[0].before, next);
    TreeStarts(items[0].value, next);
  }

  lemma {:induction false} ItemsTextRead(items: seq<Item>, k: string)
    requires items != []
    requires forall i | 0 <= i < |items| :: ValidGap(items[i].before) && ValidTree(items[i].value) && ValidGap(items[i].after)
    requires forall i | 0 <= i < |items| :: StrictGap(items[i].before) && StrictTree(items[i].value) && StrictGap(items[i].after)
    ensures ReadItems(SkipBlanks(ListTo(items, "]" + k))) == Some((Values(items), k))
    decreases items, 1
  {
    hide ReadValue, ReadItems, SkipBlanks, TreeTo, ValidTree, StrictTree, GapTo, ValidGap, StrictGap;
    var tail := "]" + k;
    var first, rest := items[0], items[1..];
    var next := if |items| == 1 then tail else "," + ListTo(rest, tail);
    ItemsBegin(items, tail);
    GapSkipped(first.after, next);
    Separator(next);
    TextRead(first.value, GapTo(first.after, next));
    if |items| == 1 {
      assert Values(items) == [Value(first.value)] by { assert items[1..] == []; assert Values(items[1..]) == []; }
      ReadItemsLast(FirstItem(items, tail), Value(first.value), GapTo(first.after, next), k);
    } else {
      ItemsTextRead(rest, k);
      ItemsStep(FirstItem(items, tail), Value(first.value), GapTo(first.after, next), ListTo(rest, tail), Values(rest), k);
    }
  }

  lemma Separator(next: string)
    requires next != "" && (next[0] == ',' || next[0] == ']' || next[0] == '}')
    ensures EndsNumber(next) && SkipBlanks(next) == next
  {
  }

  lemma ItemsStep(t: string, v: JSON, after: string, more: string, vs: seq<JSON>, k: string)
    requires ReadValue(t) == Some((v, after)) && SkipBlanks(after) == "," + more
    requires ReadItems(SkipBlanks(more)) == Some((vs, k))
    ensures ReadItems(t) == Some(([v] + vs, k))
  {
    hide ReadValue, SkipBlanks;
    assert ("," + more)[1..] == more;
  }

  function FirstEntry(es: seq<Entry>, k: string): string
    requires es != []
  {
    LiteralTo(es[0].key, GapTo(es[0].afterKey, ":" + GapTo(es[0].beforeValue, TreeTo(es[0].value,
      GapTo(es[0].after, if |es| == 1 then k else "," + EntriesTo(es[1..], k))))))
  }

  lemma EntriesBegin(es: seq<Entry>, k: string)
    requires es != [] && ValidGap(es[0].before) && StrictGap(es[0].before)
    ensures SkipBlanks(EntriesTo(es, k)) == FirstEntry(es, k) && ValueStart(FirstEntry(es, k))
  {
    hide SkipBlanks, TreeTo, ValidTree, GapTo;
    GapSkipped(es[0].before, FirstEntry(es, k));
    StartIsSolid(FirstEntry(es, k));
  }

  lemma {:induction false} EntriesTextRead(es: seq<Entry>, k: string)
    requires es != []
    requires forall i | 0 <= i < |es| ::
               && ValidGap(es[i].before) && ValidLetters(es[i].key) && ValidGap(es[i].afterKey)
               && ValidGap(es[i].beforeValue) && ValidTree(es[i].value) && ValidGap(es[i].after)
    requires forall i | 0 <= i < |es| ::
               && StrictGap(es[i].before) && StrictGap(es[i].afterKey)
               && StrictGap(es[i].beforeValue) && StrictTree(es[i].value) && StrictGap(es[i].after)
    ensures ReadMembers(SkipBlanks(EntriesTo(es, "}" + k))) == Some((Pairs(es), k))
    decreases es, 1
  {
    hide ReadValue, ReadMembers, SkipBlanks, TreeTo, ValidTree, StrictTree, GapTo, ValidGap, StrictGap, Spelled, ReadChars, LiteralTo;
    var tail := "}" + k;
    var first, rest := es[0], es[1..];
    var next := if |es| == 1 then tail else "," + EntriesTo(rest, tail);
    var value := TreeTo(first.value, GapTo(first.after, next));
    EntriesBegin(es, tail);
    GapSkipped(first.after, next);
    Separator(next);
    TextRead(first.value, GapTo(first.after, next));
    KeyRead(first.key, first.afterKey, GapTo(first.beforeValue, value));
    ValueStep(first.value, first.beforeValue, GapTo(first.after, next));
    if |es| == 1 {
      assert Pairs(es) == [Member(Spelled(first.key), Value(first.value))] by { assert es[1..] == []; assert Pairs(es[1..]) == []; }
      MemberStep(FirstEntry(es, tail), Spelled(first.key), GapTo(first.afterKey, ":" + GapTo(first.beforeValue, value)),
                 GapTo(first.beforeValue, value), Value(first.value), GapTo(first.after, next));
    } else {
      EntriesTextRead(rest, k);
      MemberStep(FirstEntry(es, tail), Spelled(first.key), GapTo(first.afterKey, ":" + GapTo(first.beforeValue, value)),
                 GapTo(first.beforeValue, value), Value(first.value), GapTo(first.after, next));
      assert next[1..] == EntriesTo(rest, tail);
    }
    assert (tail)[1..] == k;
  }

  lemma KeyRead(key: seq<Letter>, after: Gap, value: string)
    requires ValidLetters(key) && ValidGap(after) && StrictGap(after)
    ensures var c := GapTo(after, ":" + value);
            && LiteralTo(key, c)[0] == '"' && ReadChars(LiteralTo(key, c)[1..]) == Some((Spelled(key), c))
            && SkipBlanks(c) == ":" + value && (":" + value)[1..] == value
  {
    hide ReadChars, SkipBlanks, Spelled;
    var c := GapTo(after, ":" + value);
    LettersTextRead(key, c);
    assert LiteralTo(key, c)[1..] == LettersTo(key, "\"" + c);
    GapSkipped(after, ":" + value);
    Solid(":" + value);
  }

  /** One member: what ReadMembers does once its value is read. */
  lemma MemberStep(t: string, key: string, c: string, value: string, v: JSON, after: string)
    requires t != "" && t[0] == '"' && ReadChars(t[1..]) == Some((key, c)) && SkipBlanks(c) == ":" + value
    requires ReadValue(SkipBlanks(value)) == Some((v, after))
    ensures ReadMembers(t) ==
            var u := SkipBlanks(after);
            if u == "" then None
            else if u[0] == '}' then Some(([Member(key, v)], u[1..]))
            else if u[0] == ',' then
              (match ReadMembers(SkipBlanks(u[1..]))
               case None => None
               case Some((ms, last)) => Some(([Member(key, v)] + ms, last)))
            else None
  {
    hide ReadChars, ReadValue, SkipBlanks;
    assert (":" + value)[1..] == value;
  }

  // ---- and every text that is read is the text of some value ---------------------------------------------------------

  lemma WordRead(t: string) returns (d: Tree)
    requires ReadValue(t).Some? && (StartsWith(t, "null") || StartsWith(t, "true") || StartsWith(t, "false"))
    ensures ValidTree(d) && StrictTree(d) && Value(d) == ReadValue(t).value.0 && TreeTo(d, ReadValue(t).value.1) == t
  {
    assert StartsWith(t, "null") ==> t[0] == 'n' && t == "null" + t[4..];
    assert StartsWith(t, "true") ==> t[0] == 't' && t == "true" + t[4..];
    assert StartsWith(t, "false") ==> t[0] == 'f' && t == "false" + t[5..];
    d := if t[0] == 'n' then Null else Bool(t[0] == 't');
  }

  /** b is the end of a. */
  predicate EndOf(a: string, b: string) { |b| <= |a| && a == a[..|a| - |b|] + b }

  lemma EndChain(a: string, b: string, c: string)
    requires EndOf(a, b) && EndOf(b, c)
    ensures EndOf(a, c)
  {
    var x, y := a[..|a| - |b|], b[..|b| - |c|];
    assert a == x + y + c;
    assert a[..|a| - |c|] == x + y;
  }

  lemma EndAt(a: string, n: nat)
    requires n <= |a|
    ensures EndOf(a, a[n..])
  {
    assert a == a[..n] + a[n..];
  }

  lemma SkipsEnd(t: string)
    ensures EndOf(t, SkipDigits(t))
  {
    var d := DigitsSplit(t);
    EndAt(t, |d|);
  }

  lemma PartsEnd(t: string)
    ensures EndOf(t, SkipFraction(t)) && EndOf(t, SkipExponent(t))
  {
    hide SkipDigits, EndOf;
    EndAt(t, 0);
    if |t| > 0 {
      EndAt(t, 1);
      SkipsEnd(t[1..]);
      EndChain(t, t[1..], SkipDigits(t[1..]));
    }
    if |t| > 1 {
      EndAt(t, 2);
      SkipsEnd(t[2..]);
      EndChain(t, t[2..], SkipDigits(t[2..]));
    }
  }

  /** A number is taken from the front of the text. */
  lemma NumberEnd(t: string)
    requires NumberRest(t).Some?
    ensures EndOf(t, NumberRest(t).value)
  {
    hide SkipDigits, SkipFraction, SkipExponent, EndOf;
    var m := if t[0] == '-' then 1 else 0;
    var a := t[m..];
    var i := if a[0] == '0' then a[1..] else SkipDigits(a[1..]);
    EndAt(t, m);
    EndAt(a, 1);
    EndAt(a[1..], 0);
    SkipsEnd(a[1..]);
    EndChain(t, a, a[1..]);
    EndChain(t, a[1..], i);
    PartsEnd(i);
    EndChain(t, i, SkipFraction(i));
    PartsEnd(SkipFraction(i));
    EndChain(t, SkipFraction(i), SkipExponent(SkipFraction(i)));
  }

  lemma NumberRead(t: string) returns (d: Tree)
    requires NumberRest(t).Some?
    ensures var rest := NumberRest(t).value;
            ValidTree(d) && StrictTree(d) && Value(d) == JNumber(t[..|t| - |rest|]) && TreeTo(d, rest) == t
  {
    hide NumberRest, Number.Valid, Number.Text;
    var rest := NumberRest(t).value;
    LexemeValid(t, rest);
    NumberEnd(t);
    var n := NumberSplit(t[..|t| - |rest|]);
    d := Num(n);
  }

  lemma StringRead(t: string) returns (d: Tree)
    requires t != "" && t[0] == '"' && ReadChars(t[1..]).Some?
    ensures var (s, rest) := ReadChars(t[1..]).value;
            ValidTree(d) && StrictTree(d) && Value(d) == JString(s) && TreeTo(d, rest) == t
  {
    hide ReadChars, Spelled;
    var letters := LettersRead(t[1..]);
    d := Str(letters);
    assert t == "\"" + t[1..];
  }

  lemma EmptyRead(t: string, close: char) returns (g: Gap)
    requires t != "" && var u := SkipBlanks(t[1..]); u != "" && u[0] == close
    ensures ValidGap(g) && StrictGap(g) && [t[0]] + GapTo(g, [close] + SkipBlanks(t[1..])[1..]) == t
  {
    g := GapRead(t[1..]);
    var u := SkipBlanks(t[1..]);
    assert [close] + u[1..] == u;
    assert t == [t[0]] + t[1..];
  }

  lemma {:induction false} TreeRead(t: string) returns (d: Tree)
    requires ReadValue(t).Some?
    ensures ValidTree(d) && StrictTree(d) && Value(d) == ReadValue(t).value.0 && TreeTo(d, ReadValue(t).value.1) == t
    decreases |t|, 0
  {
    hide ReadChars, ReadItems, ReadMembers, NumberRest, SkipBlanks, ListTo, EntriesTo, Values, Pairs, Dict, GapTo, LiteralTo;
    if t[0] == '"' {
      d := StringRead(t);
    } else if t[0] == '[' {
      var u := SkipBlanks(t[1..]);
      if u != "" && u[0] == ']' {
        var g := EmptyRead(t, ']');
        d := NoItems(g);
      } else {
        var items := ItemsRead(t[1..]);
        d := Items(items, None);
        assert t == "[" + t[1..];
      }
    } else if t[0] == '{' {
      var u := SkipBlanks(t[1..]);
      if u != "" && u[0] == '}' {
        var g := EmptyRead(t, '}');
        d := NoEntries(g);
      } else {
        var es := EntriesRead(t[1..]);
        d := Entries(es, None);
        assert t == "{" + t[1..];
      }
    } else if StartsWith(t, "null") || StartsWith(t, "true") || StartsWith(t, "false") {
      d := WordRead(t);
    } else {
      d := NumberRead(t);
    }
  }

  lemma {:induction false} ItemsRead(t: string) returns (items: seq<Item>)
    requires ReadItems(SkipBlanks(t)).Some?
    ensures var (vs, rest) := ReadItems(SkipBlanks(t)).value;
            && ValidTree(Items(items, None)) && StrictTree(Items(items, None))
            && Values(items) == vs && ListTo(items, "]" + rest) == t
    decreases |t|, 1
  {
    hide ReadValue, SkipBlanks, TreeTo, GapTo, ValidGap, StrictGap;
    var w := SkipBlanks(t);
    var (v, after) := ReadValue(w).value;
    var (vs, last) := ReadItems(w).value;
    var u := SkipBlanks(after);
    var before := GapRead(t);
    var value := TreeRead(w);
    var behind := GapRead(after);
    assert u == [u[0]] + u[1..];
    if u[0] == ']' {
      items := [Item(before, value, behind)];
      assert Values(items) == [Value(value)] by { assert items[1..] == []; assert Values(items[1..]) == []; }
    } else {
      var more := ItemsRead(u[1..]);
      items := [Item(before, value, behind)] + more;
      assert items[1..] == more;
    }
  }

  lemma {:induction false} EntriesRead(t: string) returns (es: seq<Entry>)
    requires ReadMembers(SkipBlanks(t)).Some?
    ensures var (ms, rest) := ReadMembers(SkipBlanks(t)).value;
            && ValidTree(Entries(es, None)) && StrictTree(Entries(es, None))
            && Pairs(es) == ms && EntriesTo(es, "}" + rest) == t
    decreases |t|, 1
  {
    hide ReadValue, SkipBlanks, TreeTo, GapTo, ValidGap, StrictGap, ReadChars, Spelled, LettersTo, ValidLetters;
    var w := SkipBlanks(t);
    var (key, afterKey) := ReadChars(w[1..]).value;
    var c := SkipBlanks(afterKey);
    var x := SkipBlanks(c[1..]);
    var (v, after) := ReadValue(x).value;
    var u := SkipBlanks(after);
    var before := GapRead(t);
    var letters := LettersRead(w[1..]);
    var behindKey := GapRead(afterKey);
    var beforeValue := GapRead(c[1..]);
    var value := TreeRead(x);
    var behind := GapRead(after);
    assert w == "\"" + w[1..] && c == ":" + c[1..] && u == [u[0]] + u[1..];
    if u[0] == '}' {
      es := [Entry(before, letters, behindKey, beforeValue, value, behind)];
      assert Pairs(es) == [Member(key, v)] by { assert es[1..] == []; assert Pairs(es[1..]) == []; }
    } else {
      var more := EntriesRead(u[1..]);
      es := [Entry(before, letters, behindKey, beforeValue, value, behind)] + more;
      assert es[1..] == more;
    }
  }

  // ---- the whole text ------------------------------------------------------------------------------------------------

  /** A text is read as v if and only if it is a text of v: nothing else is accepted, and nothing is missed. */
  lemma LoadsExactly(t: string, v: JSON)
    ensures Loads(t) == Some(v) <==> IsText(t, v)
  {
    hide ReadValue, SkipBlanks, TreeTo, ValidTree, StrictTree, GapTo, ValidGap, StrictGap, Value;
    if d: Document :| d.Valid() && d.Strict() && d.Text() == t && Value(d.tree) == v {
      DocumentRead(d);
    }
    if Loads(t) == Some(v) {
      var d := DocumentOf(t);
      assert d.Valid() && d.Strict() && d.Text() == t && Value(d.tree) == v;
    }
  }

  lemma BlankEnd(g: Gap)
    requires ValidGap(g) && StrictGap(g)
    ensures SkipBlanks(GapTo(g, "")) == "" && EndsNumber(GapTo(g, ""))
  {
    GapSkipped(g, "");
  }

  lemma DocumentRead(d: Document)
    requires d.Valid() && d.Strict()
    ensures Loads(d.Text()) == Some(Value(d.tree))
  {
    hide ReadValue, SkipBlanks, TreeTo, ValidTree, StrictTree, GapTo, ValidGap, StrictGap, Value;
    var end := GapTo(d.after, "");
    BlankEnd(d.after);
    ValueStep(d.tree, d.before, end);
    TextRead(d.tree, end);
  }

  lemma DocumentOf(t: string) returns (d: Document)
    requires Loads(t).Some?
    ensures d.Valid() && d.Strict() && d.Text() == t && Value(d.tree) == Loads(t).value
  {
    hide ReadValue, SkipBlanks, TreeTo, ValidTree, StrictTree, GapTo, ValidGap, StrictGap, Value;
    var w := SkipBlanks(t);
    var before := GapRead(t);
    var tree := TreeRead(w);
    var after := GapRead(ReadValue(w).value.1);
    d := Document(before, tree, after, None);
  }
}
