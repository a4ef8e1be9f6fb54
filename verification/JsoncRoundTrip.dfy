/** Reading back with the comment-tolerant reader what json.dumps(v, indent=2) wrote. */
module JsoncRoundTrip {
  import opened Text
  import opened Json
  import opened JsonText
  import opened Jsonc

  // ---- printed JSON contains nothing the first substitution takes for a comment -----------------------

  /** No quote and no slash, so no token can begin here. */
  predicate Inert(s: string) { forall i | 0 <= i < |s| :: s[i] != '"' && s[i] != '/' }

  lemma InertStep(c: char, w: string, k: string)
    requires c != '"' && c != '/'
    requires BlankComments(w + k) == w + BlankComments(k)
    ensures BlankComments([c] + w + k) == [c] + w + BlankComments(k)
  {
    hide BlankComments;
    assert [c] + w + k == [c] + (w + k);
    NotSpecial(c, w + k);
  }

  lemma {:induction false} InertCopied(s: string, k: string)
    requires Inert(s)
    ensures BlankComments(s + k) == s + BlankComments(k)
  {
    if s == "" {
      assert s + k == k && s + BlankComments(k) == BlankComments(k);
    } else {
      InertCopied(s[1..], k);
      InertStep(s[0], s[1..], k);
      assert s == [s[0]] + s[1..];
    }
  }

  lemma HexPlain(n: int)
    requires 0 <= n < 16
    ensures HexDigit(n) != '"' && HexDigit(n) != '\\' && HexDigit(n) != ','
  {
  }

  lemma {:induction false} InsideString(s: string, k: string)
    requires forall i | 0 <= i < |s| :: s[i] != '"' && s[i] != '\\'
    ensures StringRest(s + k) == StringRest(k)
  {
    if s == "" {
      assert s + k == k;
    } else {
      assert (s + k)[1..] == s[1..] + k;
      InsideString(s[1..], k);
    }
  }

  lemma UnicodeEscapeInside(n: int, k: string)
    requires 0 <= n < 0x10000
    ensures StringRest("\\u" + Hex4(n) + k) == StringRest(k)
  {
    var t := "\\u" + Hex4(n) + k;
    assert t[2..] == Hex4(n) + k;
    HexPlain(n / 4096);
    HexPlain(n / 256 % 16);
    HexPlain(n / 16 % 16);
    HexPlain(n % 16);
    InsideString(Hex4(n), k);
  }

  lemma SurrogateEscapeInside(hi: int, lo: int, k: string)
    requires 0 <= hi < 0x10000 && 0 <= lo < 0x10000
    ensures StringRest("\\u" + Hex4(hi) + "\\u" + Hex4(lo) + k) == StringRest(k)
  {
    var low := "\\u" + Hex4(lo) + k;
    assert "\\u" + Hex4(hi) + "\\u" + Hex4(lo) + k == "\\u" + Hex4(hi) + low;
    UnicodeEscapeInside(hi, low);
    UnicodeEscapeInside(lo, k);
  }

  lemma ShortEscapeInside(c: char, k: string)
    ensures StringRest(['\\', c] + k) == StringRest(k)
  {
    assert (['\\', c] + k)[2..] == k;
  }

  lemma EscapeInside(c: char, st: Style, k: string)
    ensures StringRest(EscapeChar(c, st) + k) == StringRest(k)
  {
    var e := EscapeChar(c, st);
    var n := c as int;
    if Plain(c, st) {
      InsideString([c], k);
    } else if |e| == 2 {
      assert e == ['\\', e[1]];
      ShortEscapeInside(e[1], k);
    } else if n < 0x10000 {
      UnicodeEscapeInside(n, k);
    } else {
      SurrogateEscapeInside(0xD800 + (n - 0x10000) / 1024, 0xDC00 + (n - 0x10000) % 1024, k);
    }
  }

  /** The scanner finds the closing quote of a printed string exactly where the printer put it. */
  lemma {:induction false} EscapedClosesAtQuote(s: string, st: Style, k: string)
    ensures StringRest(EscapeTo(s, st, "\"" + k)) == Some(k)
  {
    if s == "" {
      assert ("\"" + k)[1..] == k;
    } else {
      EscapeInside(s[0], st, EscapeTo(s[1..], st, "\"" + k));
      EscapedClosesAtQuote(s[1..], st, k);
    }
  }

  lemma {:induction false} EscapeThen(s: string, st: Style, k: string)
    ensures EscapeTo(s, st, k) == EscapeTo(s, st, "") + k
  {
    if s == "" {
      assert "" + k == k;
    } else {
      EscapeThen(s[1..], st, k);
    }
  }

  lemma QuoteThen(s: string, st: Style, k: string)
    ensures QuoteTo(s, st, k) == QuoteTo(s, st, "") + k
  {
    EscapeThen(s, st, "\"" + k);
    EscapeThen(s, st, "\"" + "");
  }

  lemma QuoteCopied(s: string, st: Style, k: string)
    ensures BlankComments(QuoteTo(s, st, k)) == QuoteTo(s, st, BlankComments(k))
  {
    var t := QuoteTo(s, st, k);
    EscapedClosesAtQuote(s, st, k);
    assert t[1..] == EscapeTo(s, st, "\"" + k);
    assert TokenAt(t) == Literal(k);
    LiteralCopied(t, k);
    QuoteThen(s, st, k);
    assert t[..|t| - |k|] == QuoteTo(s, st, "");
    QuoteThen(s, st, BlankComments(k));
  }

  lemma {:induction false} PadCopied(n: nat, k: string)
    ensures BlankComments(PadTo(n, k)) == PadTo(n, BlankComments(k))
  {
    if n > 0 {
      NotSpecial(' ', PadTo(n - 1, k));
      PadCopied(n - 1, k);
    }
  }

  lemma BreakCopied(st: Style, d: nat, k: string)
    ensures BlankComments(BreakTo(st, d, k)) == BreakTo(st, d, BlankComments(k))
  {
    if st.Pretty? {
      NotSpecial('\n', PadTo(2 * d, k));
      PadCopied(2 * d, k);
    }
  }

  lemma CommaCopied(st: Style, d: nat, k: string)
    ensures BlankComments(CommaTo(st, d, k)) == CommaTo(st, d, BlankComments(k))
  {
    match st
    case Pretty => NotSpecial(',', BreakTo(st, d, k)); BreakCopied(st, d, k);
    case Spaced => NotSpecial(',', " " + k); NotSpecial(' ', k);
    case Compact => NotSpecial(',', k);
  }

  lemma ColonCopied(st: Style, k: string)
    ensures BlankComments(ColonTo(st, k)) == ColonTo(st, BlankComments(k))
  {
    NotSpecial(':', if st.Compact? then k else " " + k);
    NotSpecial(' ', k);
  }

  /** Printable ASCII text without spaces, quotes, slashes and commas. */
  predicate NumberText(s: string) {
    forall i | 0 <= i < |s| :: ' ' < s[i] <= '~' && s[i] != '"' && s[i] != '/' && s[i] != ','
  }

  lemma {:induction false} DigitsText(t: string)
    requires NumberText(SkipDigits(t))
    ensures NumberText(t)
  {
    if t != "" && IsDigit(t[0]) {
      DigitsText(t[1..]);
      assert t == [t[0]] + t[1..];
    }
  }

  lemma TextCons(s: string)
    requires s != "" && NumberText(s[1..]) && (IsDigit(s[0]) || s[0] == '-' || s[0] == '.')
    ensures NumberText(s)
  {
    assert s == [s[0]] + s[1..];
  }

  lemma TextInert(s: string)
    requires NumberText(s)
    ensures Inert(s)
  {
  }

  /** A number is printable ASCII without quotes, slashes and commas. */
  lemma NumberInert(x: string)
    requires ValidNumber(x)
    ensures NumberText(x) && Inert(x)
  {
    hide NumberText, Inert, SkipDigits, SkipFraction, SkipExponent;
    var a := if x[0] == '-' then x[1..] else x;
    var i := if a[0] == '0' then a[1..] else SkipDigits(a[1..]);
    ExponentText(SkipFraction(i));
    FractionText(i);
    if a[0] != '0' { DigitsText(a[1..]); }
    TextCons(a);
    if x[0] == '-' { TextCons(x); }
    TextInert(x);
  }

  lemma ExponentText(t: string)
    requires SkipExponent(t) == ""
    ensures NumberText(t)
  {
    if t != "" {
      var x := if |t| > 1 && (t[1] == '+' || t[1] == '-') then t[2..] else t[1..];
      DigitsText(x);
      assert t == t[..|t| - |x|] + x;
    }
  }

  lemma FractionText(t: string)
    requires NumberText(SkipFraction(t))
    ensures NumberText(t)
  {
    if |t| > 1 && t[0] == '.' && IsDigit(t[1]) {
      DigitsText(t[1..]);
      assert t == [t[0]] + t[1..];
    }
  }

  /** Comment blanking is the identity on printed JSON, in any style and whatever its strings contain. */
  lemma {:induction false} PrintCopied(v: JSON, st: Style, d: nat, k: string)
    requires NumbersValid(v)
    ensures BlankComments(PrintTo(v, st, d, k)) == PrintTo(v, st, d, BlankComments(k))
    decreases v, 2
  {
    match v
    case JNull => InertCopied("null", k);
    case JBool(b) => InertCopied(if b then "true" else "false", k);
    case JNumber(x) => NumberInert(x); InertCopied(x, k);
    case JString(s) => QuoteCopied(s, st, k);
    case JArray(items) => ArrayCopied(items, st, d, k);
    case JObject(ms) => ObjectCopied(ms, st, d, k);
  }

  lemma {:induction false} ArrayCopied(items: seq<JSON>, st: Style, d: nat, k: string)
    requires forall i | 0 <= i < |items| :: NumbersValid(items[i])
    ensures BlankComments(PrintTo(JArray(items), st, d, k)) == PrintTo(JArray(items), st, d, BlankComments(k))
    decreases items, 1
  {
    hide BlankComments;
    if items == [] {
      InertCopied("[", "]" + k);
      InertCopied("]", k);
    } else {
      var tail := BreakTo(st, d, "]" + k);
      InertCopied("[", BreakTo(st, d + 1, ItemsTo(items, st, d + 1, tail)));
      BreakCopied(st, d + 1, ItemsTo(items, st, d + 1, tail));
      ItemsCopied(items, st, d + 1, tail);
      BreakCopied(st, d, "]" + k);
      InertCopied("]", k);
    }
  }

  lemma {:induction false} ObjectCopied(ms: seq<Member>, st: Style, d: nat, k: string)
    requires forall i | 0 <= i < |ms| :: NumbersValid(ms[i].value)
    ensures BlankComments(PrintTo(JObject(ms), st, d, k)) == PrintTo(JObject(ms), st, d, BlankComments(k))
    decreases ms, 1
  {
    hide BlankComments;
    if ms == [] {
      InertCopied("{", "}" + k);
      InertCopied("}", k);
    } else {
      var tail := BreakTo(st, d, "}" + k);
      InertCopied("{", BreakTo(st, d + 1, MembersTo(ms, st, d + 1, tail)));
      BreakCopied(st, d + 1, MembersTo(ms, st, d + 1, tail));
      MembersCopied(ms, st, d + 1, tail);
      BreakCopied(st, d, "}" + k);
      InertCopied("}", k);
    }
  }

  lemma {:induction false} ItemsCopied(items: seq<JSON>, st: Style, d: nat, k: string)
    requires items != [] && forall i | 0 <= i < |items| :: NumbersValid(items[i])
    ensures BlankComments(ItemsTo(items, st, d, k)) == ItemsTo(items, st, d, BlankComments(k))
    decreases items, 0
  {
    if |items| == 1 {
      PrintCopied(items[0], st, d, k);
    } else {
      var more := ItemsTo(items[1..], st, d, k);
      PrintCopied(items[0], st, d, CommaTo(st, d, more));
      CommaCopied(st, d, more);
      ItemsCopied(items[1..], st, d, k);
    }
  }

  lemma {:induction false} MembersCopied(ms: seq<Member>, st: Style, d: nat, k: string)
    requires ms != [] && forall i | 0 <= i < |ms| :: NumbersValid(ms[i].value)
    ensures BlankComments(MembersTo(ms, st, d, k)) == MembersTo(ms, st, d, BlankComments(k))
    decreases ms, 0
  {
    var next := if |ms| == 1 then k else CommaTo(st, d, MembersTo(ms[1..], st, d, k));
    var value := PrintTo(ms[0].value, st, d, next);
    QuoteCopied(ms[0].key, st, ColonTo(st, value));
    ColonCopied(st, value);
    PrintCopied(ms[0].value, st, d, next);
    if |ms| > 1 {
      CommaCopied(st, d, MembersTo(ms[1..], st, d, k));
      MembersCopied(ms[1..], st, d, k);
    }
  }

  // ---- what the second substitution does to printed JSON ----------------------------------------------

  /** Spaces, then a closing bracket: the only shape in which white space can stand in a printed string. */
  predicate SpacesThenCloser(s: string) {
    s != "" && (IsCloser(s[0]) || (s[0] == ' ' && SpacesThenCloser(s[1..])))
  }

  /** s without the commas that stand before spaces and a closing bracket. */
  function Trimmed(s: string): (r: string)
    ensures |r| <= |s|
  {
    if s == "" then ""
    else if s[0] == ',' && SpacesThenCloser(s[1..]) then Trimmed(s[1..])
    else [s[0]] + Trimmed(s[1..])
  }

  function TrimmedValue(v: JSON): JSON
    decreases v, 1
  {
    match v
    case JString(s) => JString(Trimmed(s))
    case JArray(items) => JArray(TrimmedItems(items))
    case JObject(ms) => JObject(TrimmedMembers(ms))
    case _ => v
  }

  function TrimmedItems(items: seq<JSON>): (r: seq<JSON>)
    ensures |r| == |items| && forall i | 0 <= i < |items| :: r[i] == TrimmedValue(items[i])
    decreases items, 0
  {
    if items == [] then [] else [TrimmedValue(items[0])] + TrimmedItems(items[1..])
  }

  function TrimmedMembers(ms: seq<Member>): (r: seq<Member>)
    ensures |r| == |ms| && forall i | 0 <= i < |ms| :: r[i] == Member(Trimmed(ms[i].key), TrimmedValue(ms[i].value))
    decreases ms, 0
  {
    if ms == [] then [] else [Member(Trimmed(ms[0].key), TrimmedValue(ms[0].value))] + TrimmedMembers(ms[1..])
  }

  lemma NoComma(c: char, k: string)
    requires c != ','
    ensures DropCommas([c] + k) == [c] + DropCommas(k)
  {
    assert ([c] + k)[1..] == k;
  }

  lemma {:induction false} NoCommas(s: string, k: string)
    requires forall i | 0 <= i < |s| :: s[i] != ','
    ensures DropCommas(s + k) == s + DropCommas(k)
  {
    hide DropCommas;
    if s == "" {
      assert s + k == k;
    } else {
      assert s + k == [s[0]] + (s[1..] + k);
      NoComma(s[0], s[1..] + k);
      NoCommas(s[1..], k);
    }
  }

  lemma CommaKept(k: string)
    requires !CloserAfter(k)
    ensures DropCommas("," + k) == "," + DropCommas(k)
  {
    assert ("," + k)[1..] == k;
  }

  lemma SpaceNoComma(w: string)
    requires AllSpace(w)
    ensures forall i | 0 <= i < |w| :: w[i] != ','
  {
  }

  lemma SliceIsHead(t: string, head: string, rest: string)
    requires t != "" && t[1..] == head + rest
    ensures t[1..|t| - |rest|] == head
  {
    assert t[1..|t| - |rest|] == t[1..][..|head|];
    assert (head + rest)[..|head|] == head;
  }

  lemma DropStep(t: string, head: string, rest: string)
    requires t != "" && t[0] == ',' && CloserAfter(t[1..])
    requires rest == LStrip(t[1..])[1..] && head + rest == t[1..]
    ensures DropCommas(t) == head + DropCommas(rest)
  {
    hide LStrip;
    SliceIsHead(t, head, rest);
  }

  /** Dropping a trailing comma leaves the rest to be treated as if the comma had not been there. */
  lemma CommaDropped(k: string)
    requires CloserAfter(k)
    ensures DropCommas("," + k) == DropCommas(k)
  {
    assert ("," + k)[1..] == k;
    var u := LStrip(k);
    LStripParts(k);
    var w := k[..|k| - |u|];
    SpaceNoComma(w);
    var head := w + [u[0]];
    assert k == head + u[1..];
    NoCommas(head, u[1..]);
    DropStep("," + k, head, u[1..]);
  }

  lemma StartsPlain(t: string)
    requires t != "" && !IsSpace(t[0])
    ensures CloserAfter(t) == IsCloser(t[0])
  {
  }

  lemma SpaceSkipped(k: string)
    ensures CloserAfter(" " + k) == CloserAfter(k)
  {
    assert (" " + k)[1..] == k;
  }

  /** What stands after a comma inside a printed string decides as it does in the string itself. */
  lemma {:induction false} CloserInside(s: string, st: Style, k: string)
    requires !st.Compact?
    ensures CloserAfter(EscapeTo(s, st, "\"" + k)) == SpacesThenCloser(s)
  {
    var t := EscapeTo(s, st, "\"" + k);
    if s == "" {
      assert t[0] == '"';
      StartsPlain(t);
    } else {
      var rest := EscapeTo(s[1..], st, "\"" + k);
      if s[0] == ' ' {
        CloserInside(s[1..], st, k);
        SpaceSkipped(rest);
      } else if Plain(s[0], st) {
        StartsPlain(t);
      } else {
        EscapeReadBack(s[0], st, rest);
        StartsPlain(t);
      }
    }
  }

  lemma EscapeNoComma(c: char, st: Style)
    requires c != ','
    ensures forall i | 0 <= i < |EscapeChar(c, st)| :: EscapeChar(c, st)[i] != ','
  {
    var n := c as int;
    if !Plain(c, st) && |EscapeChar(c, st)| > 2 {
      if n < 0x10000 {
        Hex4NoComma(n);
      } else {
        Hex4NoComma(0xD800 + (n - 0x10000) / 1024);
        Hex4NoComma(0xDC00 + (n - 0x10000) % 1024);
      }
    }
  }

  lemma Hex4NoComma(n: int)
    requires 0 <= n < 0x10000
    ensures forall i | 0 <= i < 4 :: Hex4(n)[i] != ','
  {
    HexPlain(n / 4096);
    HexPlain(n / 256 % 16);
    HexPlain(n / 16 % 16);
    HexPlain(n % 16);
  }

  lemma {:induction false} EscapedTrimmed(s: string, st: Style, k: string)
    requires !st.Compact?
    ensures DropCommas(EscapeTo(s, st, "\"" + k)) == EscapeTo(Trimmed(s), st, "\"" + DropCommas(k))
  {
    if s == "" {
      NoComma('"', k);
    } else {
      var rest := EscapeTo(s[1..], st, "\"" + k);
      EscapedTrimmed(s[1..], st, k);
      CloserInside(s[1..], st, k);
      if s[0] == ',' {
        if SpacesThenCloser(s[1..]) { CommaDropped(rest); } else { CommaKept(rest); }
      } else {
        EscapeNoComma(s[0], st);
        NoCommas(EscapeChar(s[0], st), rest);
      }
      assert !(s[0] == ',' && SpacesThenCloser(s[1..])) ==> Trimmed(s)[1..] == Trimmed(s[1..]);
    }
  }

  lemma QuoteTrimmed(s: string, st: Style, k: string)
    requires !st.Compact?
    ensures DropCommas(QuoteTo(s, st, k)) == QuoteTo(Trimmed(s), st, DropCommas(k))
  {
    NoComma('"', EscapeTo(s, st, "\"" + k));
    EscapedTrimmed(s, st, k);
  }

  lemma {:induction false} PadTrimmed(n: nat, k: string)
    ensures DropCommas(PadTo(n, k)) == PadTo(n, DropCommas(k))
    ensures LStrip(PadTo(n, k)) == LStrip(k)
  {
    hide DropCommas;
    if n > 0 {
      NoComma(' ', PadTo(n - 1, k));
      PadTrimmed(n - 1, k);
      assert PadTo(n, k)[1..] == PadTo(n - 1, k);
    }
  }

  lemma BreakTrimmed(st: Style, d: nat, k: string)
    ensures DropCommas(BreakTo(st, d, k)) == BreakTo(st, d, DropCommas(k))
    ensures LStrip(BreakTo(st, d, k)) == LStrip(k)
  {
    if st.Pretty? {
      NoComma('\n', PadTo(2 * d, k));
      PadTrimmed(2 * d, k);
      assert BreakTo(st, d, k)[1..] == PadTo(2 * d, k);
    }
  }

  /** The comma between two items stands before a value, never before a closing bracket. */
  lemma SeparatorKept(st: Style, d: nat, k: string)
    requires ValueStart(k) && !st.Compact?
    ensures DropCommas(CommaTo(st, d, k)) == CommaTo(st, d, DropCommas(k))
  {
    match st
    case Pretty => BreakTrimmed(st, d, k); CommaKept(BreakTo(st, d, k));
    case Spaced =>
      assert (" " + k)[1..] == k && LStrip(" " + k) == LStrip(k);
      CommaKept(" " + k);
      NoComma(' ', k);
    case Compact =>
  }

  lemma ColonTrimmed(st: Style, k: string)
    ensures DropCommas(ColonTo(st, k)) == ColonTo(st, DropCommas(k))
  {
    NoComma(':', if st.Compact? then k else " " + k);
    NoComma(' ', k);
  }

  /** Dropping trailing commas from printed JSON is printing the value with its strings trimmed. */
  lemma {:induction false} PrintTrimmed(v: JSON, st: Style, d: nat, k: string)
    requires NumbersValid(v) && !st.Compact?
    ensures DropCommas(PrintTo(v, st, d, k)) == PrintTo(TrimmedValue(v), st, d, DropCommas(k))
    decreases v, 2
  {
    match v
    case JNull => NoCommas("null", k);
    case JBool(b) => NoCommas(if b then "true" else "false", k);
    case JNumber(x) => NumberInert(x); NoCommas(x, k);
    case JString(s) => QuoteTrimmed(s, st, k);
    case JArray(items) => ArrayTrimmed(items, st, d, k);
    case JObject(ms) => ObjectTrimmed(ms, st, d, k);
  }

  lemma {:induction false} ArrayTrimmed(items: seq<JSON>, st: Style, d: nat, k: string)
    requires !st.Compact? && forall i | 0 <= i < |items| :: NumbersValid(items[i])
    ensures DropCommas(PrintTo(JArray(items), st, d, k)) == PrintTo(JArray(TrimmedItems(items)), st, d, DropCommas(k))
    decreases items, 1
  {
    NoComma(']', k);
    if items == [] {
      NoComma('[', "]" + k);
    } else {
      var tail := BreakTo(st, d, "]" + k);
      NoComma('[', BreakTo(st, d + 1, ItemsTo(items, st, d + 1, tail)));
      BreakTrimmed(st, d + 1, ItemsTo(items, st, d + 1, tail));
      ItemsTrimmed(items, st, d + 1, tail);
      BreakTrimmed(st, d, "]" + k);
    }
  }

  lemma {:induction false} ObjectTrimmed(ms: seq<Member>, st: Style, d: nat, k: string)
    requires !st.Compact? && forall i | 0 <= i < |ms| :: NumbersValid(ms[i].value)
    ensures DropCommas(PrintTo(JObject(ms), st, d, k)) == PrintTo(JObject(TrimmedMembers(ms)), st, d, DropCommas(k))
    decreases ms, 1
  {
    NoComma('}', k);
    if ms == [] {
      NoComma('{', "}" + k);
    } else {
      var tail := BreakTo(st, d, "}" + k);
      NoComma('{', BreakTo(st, d + 1, MembersTo(ms, st, d + 1, tail)));
      BreakTrimmed(st, d + 1, MembersTo(ms, st, d + 1, tail));
      MembersTrimmed(ms, st, d + 1, tail);
      BreakTrimmed(st, d, "}" + k);
    }
  }

  lemma {:induction false} ItemsTrimmed(items: seq<JSON>, st: Style, d: nat, k: string)
    requires !st.Compact? && items != [] && forall i | 0 <= i < |items| :: NumbersValid(items[i])
    ensures DropCommas(ItemsTo(items, st, d, k)) == ItemsTo(TrimmedItems(items), st, d, DropCommas(k))
    decreases items, 0
  {
    if |items| == 1 {
      PrintTrimmed(items[0], st, d, k);
    } else {
      var more := ItemsTo(items[1..], st, d, k);
      PrintTrimmed(items[0], st, d, CommaTo(st, d, more));
      ItemsStart(items[1..], st, d, k);
      SeparatorKept(st, d, more);
      ItemsTrimmed(items[1..], st, d, k);
      assert TrimmedItems(items)[1..] == TrimmedItems(items[1..]);
    }
  }

  lemma {:induction false} MembersTrimmed(ms: seq<Member>, st: Style, d: nat, k: string)
    requires !st.Compact? && ms != [] && forall i | 0 <= i < |ms| :: NumbersValid(ms[i].value)
    ensures DropCommas(MembersTo(ms, st, d, k)) == MembersTo(TrimmedMembers(ms), st, d, DropCommas(k))
    decreases ms, 0
  {
    var next := if |ms| == 1 then k else CommaTo(st, d, MembersTo(ms[1..], st, d, k));
    var value := PrintTo(ms[0].value, st, d, next);
    QuoteTrimmed(ms[0].key, st, ColonTo(st, value));
    ColonTrimmed(st, value);
    PrintTrimmed(ms[0].value, st, d, next);
    if |ms| > 1 {
      MembersStart(ms[1..], st, d, k);
      SeparatorKept(st, d, MembersTo(ms[1..], st, d, k));
      MembersTrimmed(ms[1..], st, d, k);
      assert TrimmedMembers(ms)[1..] == TrimmedMembers(ms[1..]);
    }
  }

  // ---- the round trip -----------------------------------------------------------------------------------

  lemma {:induction false} TrimmedNumbers(v: JSON)
    requires NumbersValid(v)
    ensures NumbersValid(TrimmedValue(v))
  {
    match v
    case JArray(items) =>
      forall i | 0 <= i < |items| ensures NumbersValid(TrimmedItems(items)[i]) { TrimmedNumbers(items[i]); }
    case JObject(ms) =>
      forall i | 0 <= i < |ms| ensures NumbersValid(TrimmedMembers(ms)[i].value) { TrimmedNumbers(ms[i].value); }
    case _ =>
  }

  /**
   What reading back a printed config gives, for every value: no comment is ever seen in it, but its
   strings lose the commas that stand before a closing bracket, and keys that thereby become equal merge.
   */
  lemma ConfigReadBack(v: JSON)
    requires NumbersValid(v)
    ensures ParseJsonc(Print(v, Pretty)) == Some(Resolved(TrimmedValue(v)))
  {
    PrintCopied(v, Pretty, 0, "");
    PrintTrimmed(v, Pretty, 0, "");
    TrimmedNumbers(v);
    PrintReadBack(TrimmedValue(v), Pretty);
  }

  /** A comma at i, spaces, and a closing bracket at j. */
  predicate CommaRun(s: string, i: nat, j: nat): (r: bool)
    ensures r ==> i < j
  {
    i < j < |s| && s[i] == ',' && IsCloser(s[j]) && forall m | i < m < j :: s[m] == ' '
  }

  /** A comma, then spaces, then a closing bracket somewhere in s. */
  ghost predicate HasTrailingComma(s: string) { exists i: nat, j: nat :: CommaRun(s, i, j) }

  /** No string and no key in v contains a comma, spaces and a closing bracket in a row. */
  ghost predicate Clean(v: JSON) {
    match v
    case JString(s) => !HasTrailingComma(s)
    case JArray(items) => forall i | 0 <= i < |items| :: Clean(items[i])
    case JObject(ms) => forall i | 0 <= i < |ms| :: !HasTrailingComma(ms[i].key) && Clean(ms[i].value)
    case _ => true
  }

  lemma {:induction false} SpacesThenCloserIs(s: string)
    ensures SpacesThenCloser(s) <==> exists j :: 0 <= j < |s| && IsCloser(s[j]) && forall m | 0 <= m < j :: s[m] == ' '
  {
    if s != "" && !IsCloser(s[0]) && s[0] == ' ' {
      SpacesThenCloserIs(s[1..]);
      if SpacesThenCloser(s[1..]) {
        var j :| 0 <= j < |s[1..]| && IsCloser(s[1..][j]) && forall m | 0 <= m < j :: s[1..][m] == ' ';
        assert IsCloser(s[j + 1]) && forall m | 0 <= m < j + 1 :: s[m] == if m == 0 then ' ' else s[1..][m - 1];
      }
      if j :| 0 <= j < |s| && IsCloser(s[j]) && forall m | 0 <= m < j :: s[m] == ' ' {
        assert IsCloser(s[1..][j - 1]) && forall m | 0 <= m < j - 1 :: s[1..][m] == s[m + 1];
      }
    }
  }

  lemma RunInTail(s: string, i: nat, j: nat)
    requires s != ""
    ensures CommaRun(s[1..], i, j) == CommaRun(s, i + 1, j + 1)
  {
    var w := s[1..];
    if j + 1 < |s| && i < j {
      assert w[i] == s[i + 1] && w[j] == s[j + 1];
      assert forall m: int :: i < m < j ==> w[m] == s[m + 1];
      assert forall m: int :: i + 1 < m < j + 1 ==> s[m] == w[m - 1];
    }
  }

  lemma RunAtStart(s: string)
    requires s != "" && s[0] == ','
    ensures SpacesThenCloser(s[1..]) <==> exists j: nat :: CommaRun(s, 0, j)
  {
    var w := s[1..];
    SpacesThenCloserIs(w);
    if SpacesThenCloser(w) {
      var j :| 0 <= j < |w| && IsCloser(w[j]) && forall m | 0 <= m < j :: w[m] == ' ';
      assert forall m: int :: 0 < m < j + 1 ==> s[m] == w[m - 1];
      assert CommaRun(s, 0, j + 1);
    }
    if j: nat :| CommaRun(s, 0, j) {
      assert IsCloser(w[j - 1]) && forall m | 0 <= m < j - 1 :: w[m] == s[m + 1];
    }
  }

  lemma TrailingCommaStep(s: string)
    requires s != ""
    ensures HasTrailingComma(s) <==> (s[0] == ',' && SpacesThenCloser(s[1..])) || HasTrailingComma(s[1..])
  {
    hide CommaRun, SpacesThenCloser;
    if i: nat, j: nat :| CommaRun(s, i, j) {
      if i == 0 { CommaAtStart(s, j); RunAtStart(s); } else { RunInTail(s, i - 1, j - 1); }
    }
    if i: nat, j: nat :| CommaRun(s[1..], i, j) { RunInTail(s, i, j); }
    if s[0] == ',' { RunAtStart(s); }
  }

  lemma CommaAtStart(s: string, j: nat)
    requires CommaRun(s, 0, j)
    ensures s[0] == ',' && j > 0
  {
  }

  lemma {:induction false} TrimmedIff(s: string)
    ensures if HasTrailingComma(s) then |Trimmed(s)| < |s| else Trimmed(s) == s
  {
    if s != "" {
      TrailingCommaStep(s);
      TrimmedIff(s[1..]);
      assert s == [s[0]] + s[1..];
    }
  }

  /** How many characters the strings and keys of v hold. */
  function Chars(v: JSON): nat
    decreases v, 1
  {
    match v
    case JString(s) => |s|
    case JArray(items) => ItemChars(items)
    case JObject(ms) => MemberChars(ms)
    case _ => 0
  }

  function ItemChars(items: seq<JSON>): nat
    decreases items, 0
  {
    if items == [] then 0 else Chars(items[0]) + ItemChars(items[1..])
  }

  function MemberChars(ms: seq<Member>): nat
    decreases ms, 0
  {
    if ms == [] then 0 else |ms[0].key| + Chars(ms[0].value) + MemberChars(ms[1..])
  }

  lemma {:induction false} TrimmedChars(v: JSON)
    ensures if Clean(v) then TrimmedValue(v) == v else Chars(TrimmedValue(v)) < Chars(v)
    decreases v, 1
  {
    match v
    case JString(s) => TrimmedIff(s);
    case JArray(items) => TrimmedItemChars(items);
    case JObject(ms) => TrimmedMemberChars(ms);
    case _ =>
  }

  lemma {:induction false} TrimmedItemChars(items: seq<JSON>)
    ensures if forall i | 0 <= i < |items| :: Clean(items[i]) then TrimmedItems(items) == items
            else ItemChars(TrimmedItems(items)) < ItemChars(items)
    decreases items, 0
  {
    if items != [] {
      TrimmedChars(items[0]);
      TrimmedItemChars(items[1..]);
      assert items == [items[0]] + items[1..];
      assert TrimmedItems(items)[1..] == TrimmedItems(items[1..]);
    }
  }

  lemma {:induction false} TrimmedMemberChars(ms: seq<Member>)
    ensures if forall i | 0 <= i < |ms| :: !HasTrailingComma(ms[i].key) && Clean(ms[i].value)
            then TrimmedMembers(ms) == ms
            else MemberChars(TrimmedMembers(ms)) < MemberChars(ms)
    decreases ms, 0
  {
    if ms != [] {
      TrimmedIff(ms[0].key);
      TrimmedChars(ms[0].value);
      TrimmedMemberChars(ms[1..]);
      assert ms == [ms[0]] + ms[1..];
      assert TrimmedMembers(ms)[1..] == TrimmedMembers(ms[1..]);
    }
  }

  lemma {:induction false} AppendChars(a: seq<Member>, b: seq<Member>)
    ensures MemberChars(a + b) == MemberChars(a) + MemberChars(b)
  {
    if a == [] {
      assert a + b == b;
    } else {
      AppendChars(a[1..], b);
      assert (a + b)[1..] == a[1..] + b;
    }
  }

  lemma ThreePartChars(a: seq<Member>, m: Member, b: seq<Member>)
    ensures MemberChars(a + [m] + b) == MemberChars(a) + |m.key| + Chars(m.value) + MemberChars(b)
  {
    AppendChars(a + [m], b);
    AppendChars(a, [m]);
    assert MemberChars([m]) == |m.key| + Chars(m.value) + MemberChars([m][1..]);
  }

  lemma PutChars(ms: seq<Member>, k: string, v: JSON)
    ensures MemberChars(Put(ms, k, v)) <= MemberChars(ms) + |k| + Chars(v)
  {
    hide MemberChars, Chars;
    var i := IndexOf(ms, k);
    if i < |ms| {
      assert ms == ms[..i] + [ms[i]] + ms[i + 1..];
      assert Put(ms, k, v) == ms[..i] + [Member(k, v)] + ms[i + 1..];
      ThreePartChars(ms[..i], ms[i], ms[i + 1..]);
      ThreePartChars(ms[..i], Member(k, v), ms[i + 1..]);
    } else {
      ThreePartChars(ms, Member(k, v), []);
      assert ms + [Member(k, v)] + [] == Put(ms, k, v);
      assert MemberChars([]) == 0 by { NoMembers(); }
    }
  }

  lemma NoMembers()
    ensures MemberChars([]) == 0
  {
  }

  lemma {:induction false} DictChars(pairs: seq<Member>)
    ensures MemberChars(Dict(pairs)) <= MemberChars(pairs)
  {
    if pairs != [] {
      var init, last := pairs[..|pairs| - 1], pairs[|pairs| - 1];
      DictChars(init);
      PutChars(Dict(init), last.key, last.value);
      assert pairs == init + [last];
      AppendChars(init, [last]);
    }
  }

  lemma {:induction false} ResolvedChars(v: JSON)
    ensures Chars(Resolved(v)) <= Chars(v)
    decreases v, 1
  {
    match v
    case JArray(items) => ResolvedItemChars(items);
    case JObject(ms) => ResolvedMemberChars(ms); DictChars(ResolvedMembers(ms));
    case _ =>
  }

  lemma {:induction false} ResolvedItemChars(items: seq<JSON>)
    ensures ItemChars(ResolvedItems(items)) <= ItemChars(items)
    decreases items, 0
  {
    if items != [] {
      ResolvedChars(items[0]);
      ResolvedItemChars(items[1..]);
      assert ResolvedItems(items)[1..] == ResolvedItems(items[1..]);
    }
  }

  lemma {:induction false} ResolvedMemberChars(ms: seq<Member>)
    ensures MemberChars(ResolvedMembers(ms)) <= MemberChars(ms)
    decreases ms, 0
  {
    if ms != [] {
      ResolvedChars(ms[0].value);
      ResolvedMemberChars(ms[1..]);
      assert ResolvedMembers(ms)[1..] == ResolvedMembers(ms[1..]);
    }
  }

  /**
   A printed config reads back as the value that was printed exactly when none of its strings has a comma
   before spaces and a closing bracket. Comment marks, quotes and backslashes in strings never matter.
   */
  lemma ConfigRoundTrip(v: JSON)
    requires WellFormed(v)
    ensures ParseJsonc(Print(v, Pretty)) == Some(v) <==> Clean(v)
  {
    WellFormedNumbers(v);
    ConfigReadBack(v);
    TrimmedChars(v);
    ResolvedChars(TrimmedValue(v));
    ResolvedWellFormed(v);
  }

  /** A one-string config that does not survive: "a,]" comes back as "a]". */
  lemma ConfigLosesComma()
    ensures ParseJsonc(Print(JString("a,]"), Pretty)) == Some(JString("a]"))
  {
    hide ParseJsonc, Print;
    ConfigReadBack(JString("a,]"));
    LosesComma();
  }

  lemma LosesComma()
    ensures Trimmed("a,]") == "a]"
  {
    var s, t, u := "a,]", ",]", "]";
    assert s[1..] == t && t[1..] == u && u[1..] == "";
    assert Trimmed(u) == u && Trimmed(t) == u;
  }
}
