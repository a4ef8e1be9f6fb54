/** What json.loads can return, and what text json.dumps writes. */
module ParseFacts {
  import opened Text
  import opened Json
  import opened JsonText
  import opened Jsonc
  import opened JsoncRoundTrip

  // ---- every value read is well formed ---------------------------------------------------------------------

  /** s without its last n characters. */
  function Cut(s: string, n: nat): string
    requires n <= |s|
  {
    s[..|s| - n]
  }

  lemma CutTail(s: string, n: nat, m: nat)
    requires m + n <= |s|
    ensures Cut(s, n)[m..] == Cut(s[m..], n)
  {
  }

  lemma {:induction false} SkipDigitsCut(s: string, n: nat)
    requires n <= |SkipDigits(s)|
    ensures SkipDigits(Cut(s, n)) == Cut(SkipDigits(s), n)
  {
    if s != "" && IsDigit(s[0]) {
      CutTail(s, n, 1);
      SkipDigitsCut(s[1..], n);
    } else {
      var c := Cut(s, n);
      assert c != "" ==> c[0] == s[0];
    }
  }

  lemma SkipFractionCut(s: string, n: nat)
    requires n <= |SkipFraction(s)|
    ensures SkipFraction(Cut(s, n)) == Cut(SkipFraction(s), n)
  {
    var c := Cut(s, n);
    assert forall i | 0 <= i < |c| :: c[i] == s[i];
    if |s| > 1 && s[0] == '.' && IsDigit(s[1]) {
      SkipDigitsCut(s[1..], n);
      CutTail(s, n, 1);
      FirstDigitSkipped(s[1..]);
    }
  }

  lemma FirstDigitSkipped(s: string)
    requires s != "" && IsDigit(s[0])
    ensures |SkipDigits(s)| < |s|
  {
  }

  lemma SkipExponentCut(s: string, n: nat)
    requires n <= |SkipExponent(s)|
    ensures SkipExponent(Cut(s, n)) == Cut(SkipExponent(s), n)
  {
    hide SkipDigits;
    var c := Cut(s, n);
    assert forall i | 0 <= i < |c| :: c[i] == s[i];
    if s != "" && (s[0] == 'e' || s[0] == 'E') {
      var m := if |s| > 1 && (s[1] == '+' || s[1] == '-') then 2 else 1;
      var x := s[m..];
      if x != "" && IsDigit(x[0]) {
        FirstDigitSkipped(x);
        SkipDigitsCut(x, n);
        CutTail(s, n, m);
        assert Cut(x, n)[0] == x[0];
      } else {
        NoExponent(s, n, m);
      }
    }
  }

  lemma NoExponent(s: string, n: nat, m: nat)
    requires n <= |s| && s != "" && (s[0] == 'e' || s[0] == 'E')
    requires m == (if |s| > 1 && (s[1] == '+' || s[1] == '-') then 2 else 1)
    requires s[m..] == "" || !IsDigit(s[m..][0])
    ensures SkipExponent(Cut(s, n)) == Cut(s, n)
  {
    var c := Cut(s, n);
    assert forall i | 0 <= i < |c| :: c[i] == s[i];
    assert |c| > m ==> c[m..][0] == s[m];
    assert |s| > m ==> s[m..][0] == s[m];
  }

  /** The lexeme a number reader takes is a number's text. */
  lemma LexemeValid(t: string, rest: string)
    requires NumberRest(t) == Some(rest)
    ensures ValidNumber(t[..|t| - |rest|])
  {
    hide SkipDigits, SkipFraction, SkipExponent;
    var n := |rest|;
    var m := if t[0] == '-' then 1 else 0;
    var a := t[m..];
    var i := if a[0] == '0' then a[1..] else SkipDigits(a[1..]);
    SkipExponentCut(SkipFraction(i), n);
    SkipFractionCut(i, n);
    if a[0] != '0' { SkipDigitsCut(a[1..], n); }
    var x := Cut(t, n);
    CutTail(t, n, m);
    CutTail(a, n, 1);
    assert x[0] == t[0] && x[m..] == Cut(a, n) && Cut(a, n)[0] == a[0];
    assert Cut(rest, n) == "";
  }

  ghost predicate AllWellFormed(ms: seq<Member>) { forall i | 0 <= i < |ms| :: WellFormed(ms[i].value) }

  lemma PutWellFormed(ms: seq<Member>, k: string, v: JSON)
    requires AllWellFormed(ms) && WellFormed(v)
    ensures AllWellFormed(Put(ms, k, v))
  {
    hide WellFormed, IndexOf;
  }

  lemma {:induction false} DictWellFormed(pairs: seq<Member>)
    requires AllWellFormed(pairs)
    ensures AllWellFormed(Dict(pairs))
  {
    hide WellFormed, Put;
    if pairs != [] {
      DictWellFormed(pairs[..|pairs| - 1]);
      var last := pairs[|pairs| - 1];
      PutWellFormed(Dict(pairs[..|pairs| - 1]), last.key, last.value);
    }
  }

  lemma ObjectWellFormed(pairs: seq<Member>)
    requires AllWellFormed(pairs)
    ensures WellFormed(JObject(Dict(pairs)))
  {
    hide Put, Dict;
    DictWellFormed(pairs);
    DictIsDistinct(pairs);
  }

  lemma {:induction false} ReadWellFormed(t: string)
    requires ReadValue(t).Some?
    ensures WellFormed(ReadValue(t).value.0)
    decreases |t|, 0
  {
    hide WellFormed, ReadChars, ReadItems, ReadMembers, NumberRest, SkipBlanks;
    var v := ReadValue(t).value.0;
    if t[0] == '"' {
      PlainWellFormed(v);
    } else if t[0] == '[' {
      var u := SkipBlanks(t[1..]);
      if u != "" && u[0] == ']' { PlainWellFormed(v); } else { ReadItemsWellFormed(u); PlainWellFormed(v); }
    } else if t[0] == '{' {
      var u := SkipBlanks(t[1..]);
      if u != "" && u[0] == '}' { PlainWellFormed(v); } else {
        ReadMembersWellFormed(u);
        ObjectWellFormed(ReadMembers(u).value.0);
      }
    } else if StartsWith(t, "null") || StartsWith(t, "true") || StartsWith(t, "false") {
      PlainWellFormed(v);
    } else {
      LexemeValid(t, ReadValue(t).value.1);
      PlainWellFormed(v);
    }
  }

  lemma PlainWellFormed(v: JSON)
    requires match v
             case JNumber(x) => ValidNumber(x)
             case JArray(items) => forall i | 0 <= i < |items| :: WellFormed(items[i])
             case JObject(ms) => ms == []
             case _ => true
    ensures WellFormed(v)
  {
  }

  lemma {:induction false} ReadItemsWellFormed(t: string)
    requires ReadItems(t).Some?
    ensures forall i | 0 <= i < |ReadItems(t).value.0| :: WellFormed(ReadItems(t).value.0[i])
    decreases |t|, 1
  {
    hide WellFormed, ReadValue, SkipBlanks;
    ReadWellFormed(t);
    var u := SkipBlanks(ReadValue(t).value.1);
    if u[0] != ']' {
      ReadItemsWellFormed(SkipBlanks(u[1..]));
    }
  }

  lemma {:induction false} ReadMembersWellFormed(t: string)
    requires ReadMembers(t).Some?
    ensures AllWellFormed(ReadMembers(t).value.0)
    decreases |t|, 1
  {
    hide WellFormed, ReadValue, SkipBlanks, ReadChars;
    var c := SkipBlanks(ReadChars(t[1..]).value.1);
    var w := SkipBlanks(c[1..]);
    ReadWellFormed(w);
    var u := SkipBlanks(ReadValue(w).value.1);
    if u[0] != '}' {
      ReadMembersWellFormed(SkipBlanks(u[1..]));
    }
  }

  /** Whatever a config file holds, the value read from it is one Python can hold. */
  lemma ParsedWellFormed(t: string)
    requires ParseJsonc(t).Some?
    ensures WellFormed(ParseJsonc(t).value)
  {
    hide ReadValue, DropCommas, BlankComments;
    ReadWellFormed(SkipBlanks(DropCommas(BlankComments(t))));
  }

  // ---- line ends -------------------------------------------------------------------------------------------

  /** Path.read_text: every kind of line end is read as a line feed. */
  function ReadText(t: string): string
    decreases |t|
  {
    if t == "" then ""
    else if t[0] == '\r' then "\n" + ReadText(if |t| > 1 && t[1] == '\n' then t[2..] else t[1..])
    else [t[0]] + ReadText(t[1..])
  }

  lemma {:induction false} ReadTextHasNoReturns(t: string)
    ensures '\r' !in ReadText(t)
    decreases |t|
  {
    if t != "" {
      ReadTextHasNoReturns(if t[0] == '\r' && |t| > 1 && t[1] == '\n' then t[2..] else t[1..]);
    }
  }

  lemma {:induction false} NoReturnsCopied(t: string)
    requires '\r' !in t
    ensures ReadText(t) == t
  {
    if t != "" {
      NoReturnsCopied(t[1..]);
      assert t == [t[0]] + t[1..];
    }
  }

  /** A text is read as it stands exactly when it has no carriage return. */
  lemma ReadTextSame(t: string)
    ensures ReadText(t) == t <==> '\r' !in t
  {
    hide ReadText;
    ReadTextHasNoReturns(t);
    if '\r' !in t { NoReturnsCopied(t); }
  }

  predicate LineEnd(e: string) { e == "\n" || e == "\r" || e == "\r\n" }

  predicate OneLiner(t: string) { forall i | 0 <= i < |t| :: t[i] != '\r' && t[i] != '\n' }

  /** The lines with their line ends between them. */
  function Lined(lines: seq<string>, ends: seq<string>): string
    requires |lines| == |ends| + 1
  {
    if ends == [] then lines[0] else lines[0] + (ends[0] + Lined(lines[1..], ends[1..]))
  }

  function Feeds(n: nat): (r: seq<string>)
    ensures |r| == n
  {
    seq(n, _ => "\n")
  }

  /** A line feed belongs to the carriage return in front of it. */
  predicate EndsApart(lines: seq<string>, ends: seq<string>)
    requires |lines| == |ends| + 1
  {
    if ends == [] then true
    else
      var next := Lined(lines[1..], ends[1..]);
      (ends[0] == "\r" && next != "" ==> next[0] != '\n') && EndsApart(lines[1..], ends[1..])
  }

  lemma LinedCons(l: string, e: string, lines: seq<string>, ends: seq<string>)
    requires |lines| == |ends| + 1
    ensures Lined([l] + lines, [e] + ends) == l + (e + Lined(lines, ends))
  {
    assert ([l] + lines)[1..] == lines && ([e] + ends)[1..] == ends;
  }

  lemma FeedsCons(n: nat)
    ensures Feeds(n + 1) == ["\n"] + Feeds(n)
  {
  }

  lemma ApartCons(l: string, e: string, lines: seq<string>, ends: seq<string>)
    requires |lines| == |ends| + 1 && EndsApart(lines, ends)
    requires e == "\r" && Lined(lines, ends) != "" ==> Lined(lines, ends)[0] != '\n'
    ensures EndsApart([l] + lines, [e] + ends)
  {
    hide Lined;
    assert ([l] + lines)[1..] == lines && ([e] + ends)[1..] == ends;
  }

  /** Any text is lines with line ends of three kinds between them, and is read with a line feed for each. */
  lemma {:induction false} ReadTextIs(t: string) returns (lines: seq<string>, ends: seq<string>)
    ensures |lines| == |ends| + 1 && Lined(lines, ends) == t && ReadText(t) == Lined(lines, Feeds(|ends|))
    ensures (forall i | 0 <= i < |lines| :: OneLiner(lines[i])) && (forall i | 0 <= i < |ends| :: LineEnd(ends[i]))
    ensures EndsApart(lines, ends)
    decreases |t|
  {
    hide Lined, EndsApart, Feeds;
    if t == "" {
      lines, ends := [""], [];
      NothingRead();
    } else if t[0] == '\r' || t[0] == '\n' {
      var n := if t[0] == '\r' && |t| > 1 && t[1] == '\n' then 2 else 1;
      var e := t[..n];
      var ls, es := ReadTextIs(t[n..]);
      lines, ends := [""] + ls, [e] + es;
      assert t == e + t[n..];
      assert n == 1 ==> e == [t[0]];
      LinedCons("", e, ls, es);
      LinedCons("", "\n", ls, Feeds(|es|));
      FeedsCons(|es|);
      ApartCons("", e, ls, es);
    } else {
      var ls, es := ReadTextIs(t[1..]);
      lines, ends := [[t[0]] + ls[0]] + ls[1..], es;
      assert t == [t[0]] + t[1..];
      Longer(t[0], ls, es);
      Longer(t[0], ls, Feeds(|es|));
    }
  }

  lemma NothingRead()
    ensures Lined([""], []) == "" && Feeds(0) == [] && EndsApart([""], [])
  {
  }

  /** One more character at the front of the first line. */
  lemma Longer(c: char, lines: seq<string>, ends: seq<string>)
    requires |lines| == |ends| + 1
    ensures Lined([[c] + lines[0]] + lines[1..], ends) == [c] + Lined(lines, ends)
    ensures EndsApart(lines, ends) ==> EndsApart([[c] + lines[0]] + lines[1..], ends)
  {
    var longer := [[c] + lines[0]] + lines[1..];
    assert longer[1..] == lines[1..];
  }

  // ---- printed text has no stray line ends --------------------------------------------------------------------

  /** No printed value has control characters but the line feeds of its layout, nor json.dumps any beyond ASCII. */
  predicate Unprinted(c: char, st: Style) { (c < ' ' && !(c == '\n' && st.Pretty?)) || (c > '~' && !st.Compact?) }

  lemma HexLacks(n: int)
    requires 0 <= n < 0x10000
    ensures forall i | 0 <= i < 4 :: ' ' < Hex4(n)[i] <= '~'
  {
  }

  lemma EscapeLacks(x: char, st: Style)
    ensures var e := EscapeChar(x, st); forall i | 0 <= i < |e| :: ' ' <= e[i] && (st.Compact? || e[i] <= '~')
  {
    hide Hex4;
    var n := x as int;
    if !Plain(x, st) && |EscapeChar(x, st)| > 2 {
      if n < 0x10000 {
        HexLacks(n);
      } else {
        HexLacks(0xD800 + (n - 0x10000) / 1024);
        HexLacks(0xDC00 + (n - 0x10000) % 1024);
      }
    }
  }

  lemma {:induction false} EscapedLacks(c: char, s: string, st: Style, k: string)
    requires Unprinted(c, st) && c !in k
    ensures c !in EscapeTo(s, st, k)
  {
    hide EscapeChar;
    if s != "" {
      EscapedLacks(c, s[1..], st, k);
      EscapeLacks(s[0], st);
    }
  }

  lemma QuoteLacks(c: char, s: string, st: Style, k: string)
    requires Unprinted(c, st) && c !in k
    ensures c !in QuoteTo(s, st, k)
  {
    hide EscapeTo;
    EscapedLacks(c, s, st, "\"" + k);
  }

  lemma {:induction false} PadLacks(c: char, n: nat, k: string)
    requires c != ' ' && c !in k
    ensures c !in PadTo(n, k)
  {
    if n > 0 { PadLacks(c, n - 1, k); }
  }

  lemma LayoutLacks(c: char, st: Style, d: nat, k: string)
    requires Unprinted(c, st) && c !in k
    ensures c !in BreakTo(st, d, k) && c !in CommaTo(st, d, k) && c !in ColonTo(st, k)
  {
    hide PadTo;
    PadLacks(c, 2 * d, k);
  }

  lemma {:induction false} PrintLacks(c: char, v: JSON, st: Style, d: nat, k: string)
    requires NumbersValid(v) && Unprinted(c, st) && c !in k
    ensures c !in PrintTo(v, st, d, k)
    decreases v, 1
  {
    hide QuoteTo, BreakTo, ItemsTo, MembersTo, ValidNumber;
    match v
    case JNull =>
    case JBool(b) =>
    case JNumber(x) => NumberInert(x);
    case JString(s) => QuoteLacks(c, s, st, k);
    case JArray(items) =>
      if items != [] {
        LayoutLacks(c, st, d, "]" + k);
        ItemsLack(c, items, st, d + 1, BreakTo(st, d, "]" + k));
        LayoutLacks(c, st, d + 1, ItemsTo(items, st, d + 1, BreakTo(st, d, "]" + k)));
      }
    case JObject(ms) =>
      if ms != [] {
        LayoutLacks(c, st, d, "}" + k);
        MembersLack(c, ms, st, d + 1, BreakTo(st, d, "}" + k));
        LayoutLacks(c, st, d + 1, MembersTo(ms, st, d + 1, BreakTo(st, d, "}" + k)));
      }
  }

  lemma {:induction false} ItemsLack(c: char, items: seq<JSON>, st: Style, d: nat, k: string)
    requires items != [] && forall i | 0 <= i < |items| :: NumbersValid(items[i])
    requires Unprinted(c, st) && c !in k
    ensures c !in ItemsTo(items, st, d, k)
    decreases items, 0
  {
    hide PrintTo, CommaTo, NumbersValid;
    if |items| == 1 {
      PrintLacks(c, items[0], st, d, k);
    } else {
      ItemsLack(c, items[1..], st, d, k);
      LayoutLacks(c, st, d, ItemsTo(items[1..], st, d, k));
      PrintLacks(c, items[0], st, d, CommaTo(st, d, ItemsTo(items[1..], st, d, k)));
    }
  }

  lemma {:induction false} MembersLack(c: char, ms: seq<Member>, st: Style, d: nat, k: string)
    requires ms != [] && forall i | 0 <= i < |ms| :: NumbersValid(ms[i].value)
    requires Unprinted(c, st) && c !in k
    ensures c !in MembersTo(ms, st, d, k)
    decreases ms, 0
  {
    hide PrintTo, CommaTo, ColonTo, QuoteTo, NumbersValid;
    var next := if |ms| == 1 then k else CommaTo(st, d, MembersTo(ms[1..], st, d, k));
    if |ms| > 1 {
      MembersLack(c, ms[1..], st, d, k);
      LayoutLacks(c, st, d, MembersTo(ms[1..], st, d, k));
    }
    PrintLacks(c, ms[0].value, st, d, next);
    var value := PrintTo(ms[0].value, st, d, next);
    LayoutLacks(c, st, d, value);
    QuoteLacks(c, ms[0].key, st, ColonTo(st, value));
  }

  /** A config the installer printed is read back as the text it wrote. */
  lemma PrintedReadText(v: JSON)
    requires WellFormed(v)
    ensures ReadText(Print(v, Pretty)) == Print(v, Pretty)
  {
    hide Print;
    WellFormedNumbers(v);
    PrintedLacks('\r', v, Pretty);
    ReadTextSame(Print(v, Pretty));
  }

  lemma PrintedLacks(c: char, v: JSON, st: Style)
    requires NumbersValid(v) && Unprinted(c, st)
    ensures c !in Print(v, st)
  {
    PrintLacks(c, v, st, 0, "");
  }
}
