/**
 Printing and reading JSON text: json.dumps and orjson.dumps on one side, json.loads and JSON.parse on the
 other (RFC 8259). A printer takes the text k that is to follow, so that `PrintTo(v, st, d, k)` is the text
 of v with k behind it.
 */
module JsonText {
  import opened Text
  import opened Json

  /**
   Pretty is json.dumps(v, indent=2), Spaced is json.dumps(v), and Compact is orjson.dumps(v). The first two
   write every character outside printable ASCII as an escape.
   */
  datatype Style = Pretty | Spaced | Compact

  // ---- printing ------------------------------------------------------------------------------------

  function HexDigit(n: int): char
    requires 0 <= n < 16
  {
    if n < 10 then '0' + n as char else 'a' + (n - 10) as char
  }

  function Hex4(n: int): (r: string)
    requires 0 <= n < 0x10000
    ensures |r| == 4
  {
    [HexDigit(n / 4096), HexDigit(n / 256 % 16), HexDigit(n / 16 % 16), HexDigit(n % 16)]
  }

  /** Whether a character is written as itself inside a string literal. */
  predicate Plain(c: char, st: Style) {
    c != '"' && c != '\\' && ' ' <= c && (st.Compact? || c <= '~')
  }

  function EscapeChar(c: char, st: Style): string {
    var n := c as int;
    if Plain(c, st) then [c]
    else if c == '"' then "\\\""
    else if c == '\\' then "\\\\"
    else if n == 10 then "\\n"
    else if n == 13 then "\\r"
    else if n == 9 then "\\t"
    else if n == 8 then "\\b"
    else if n == 12 then "\\f"
    else if n < 0x10000 then "\\u" + Hex4(n)
    else "\\u" + Hex4(0xD800 + (n - 0x10000) / 1024) + "\\u" + Hex4(0xDC00 + (n - 0x10000) % 1024)
  }

  function EscapeTo(s: string, st: Style, k: string): string {
    if s == "" then k else EscapeChar(s[0], st) + EscapeTo(s[1..], st, k)
  }

  function QuoteTo(s: string, st: Style, k: string): string { "\"" + EscapeTo(s, st, "\"" + k) }

  function PadTo(n: nat, k: string): string { if n == 0 then k else " " + PadTo(n - 1, k) }

  /** The line break and indentation inside a container at nesting depth d. */
  function BreakTo(st: Style, d: nat, k: string): string {
    if st.Pretty? then "\n" + PadTo(2 * d, k) else k
  }

  /** What separates two items of a container whose items stand at depth d. */
  function CommaTo(st: Style, d: nat, k: string): string {
    "," + match st
          case Pretty => BreakTo(st, d, k)
          case Spaced => " " + k
          case Compact => k
  }

  function ColonTo(st: Style, k: string): string { ":" + if st.Compact? then k else " " + k }

  function PrintTo(v: JSON, st: Style, d: nat, k: string): string
    decreases v, 1
  {
    match v
    case JNull => "null" + k
    case JBool(b) => (if b then "true" else "false") + k
    case JNumber(x) => x + k
    case JString(s) => QuoteTo(s, st, k)
    case JArray(items) =>
      if items == [] then "[" + ("]" + k)
      else "[" + BreakTo(st, d + 1, ItemsTo(items, st, d + 1, BreakTo(st, d, "]" + k)))
    case JObject(ms) =>
      if ms == [] then "{" + ("}" + k)
      else "{" + BreakTo(st, d + 1, MembersTo(ms, st, d + 1, BreakTo(st, d, "}" + k)))
  }

  function ItemsTo(items: seq<JSON>, st: Style, d: nat, k: string): string
    requires items != []
    decreases items, 0
  {
    PrintTo(items[0], st, d, if |items| == 1 then k else CommaTo(st, d, ItemsTo(items[1..], st, d, k)))
  }

  function MembersTo(ms: seq<Member>, st: Style, d: nat, k: string): string
    requires ms != []
    decreases ms, 0
  {
    QuoteTo(ms[0].key, st, ColonTo(st, PrintTo(ms[0].value, st, d,
      if |ms| == 1 then k else CommaTo(st, d, MembersTo(ms[1..], st, d, k)))))
  }

  function Print(v: JSON, st: Style): string { PrintTo(v, st, 0, "") }

  // ---- reading -------------------------------------------------------------------------------------

  predicate IsBlank(c: char) { c == ' ' || c == '\t' || c == '\n' || c == '\r' }

  function SkipBlanks(t: string): (r: string)
    ensures |r| <= |t|
  {
    if t != "" && IsBlank(t[0]) then SkipBlanks(t[1..]) else t
  }

  function HexValue(c: char): Option<nat> {
    if IsDigit(c) then Some(c as int - '0' as int)
    else if 'a' <= c <= 'f' then Some(c as int - 'a' as int + 10)
    else if 'A' <= c <= 'F' then Some(c as int - 'A' as int + 10)
    else None
  }

  function ReadHex4(t: string): (r: Option<nat>)
    ensures r.Some? ==> |t| >= 4 && r.value < 0x10000
  {
    if |t| < 4 then None
    else match (HexValue(t[0]), HexValue(t[1]), HexValue(t[2]), HexValue(t[3]))
         case (Some(a), Some(b), Some(c), Some(d)) => Some(4096 * a + 256 * b + 16 * c + d)
         case _ => None
  }

  /** The character an escape stands for and what follows it; t begins after the backslash. */
  function Unescape(t: string): (r: Option<(char, string)>)
    ensures r.Some? ==> |r.value.1| < |t|
  {
    if t == "" then None
    else match t[0]
         case '"' => Some(('"', t[1..]))
         case '\\' => Some(('\\', t[1..]))
         case '/' => Some(('/', t[1..]))
         case 'b' => Some((8 as char, t[1..]))
         case 'f' => Some((12 as char, t[1..]))
         case 'n' => Some(('\n', t[1..]))
         case 'r' => Some(('\r', t[1..]))
         case 't' => Some(('\t', t[1..]))
         case 'u' => UnescapeUnicode(t[1..])
         case _ => None
  }

  function UnescapeUnicode(t: string): (r: Option<(char, string)>)
    ensures r.Some? ==> |r.value.1| < |t|
  {
    match ReadHex4(t)
    case None => None
    case Some(hi) =>
      if hi < 0xD800 || 0xE000 <= hi then Some((hi as char, t[4..]))
      else if hi < 0xDC00 && |t| > 6 && t[4] == '\\' && t[5] == 'u' then
        match ReadHex4(t[6..])
        case Some(lo) =>
          if 0xDC00 <= lo < 0xE000 then
            Some(((0x10000 + 1024 * (hi - 0xD800) + (lo - 0xDC00)) as char, t[10..]))
          else None
        case None => None
      else None
  }

  /** The rest of a string literal (t begins after its opening quote): its value and what follows it. */
  function ReadChars(t: string): (r: Option<(string, string)>)
    ensures r.Some? ==> |r.value.1| < |t|
    decreases |t|
  {
    if t == "" then None
    else if t[0] == '"' then Some(("", t[1..]))
    else if t[0] == '\\' then
      match Unescape(t[1..])
      case None => None
      case Some((c, rest)) => Prepend(c, ReadChars(rest))
    else if t[0] < ' ' then None
    else Prepend(t[0], ReadChars(t[1..]))
  }

  function Prepend(c: char, r: Option<(string, string)>): Option<(string, string)> {
    match r
    case None => None
    case Some((s, rest)) => Some(([c] + s, rest))
  }

  function ReadValue(t: string): (r: Option<(JSON, string)>)
    ensures r.Some? ==> |r.value.1| < |t|
    decreases |t|, 0
  {
    if t == "" then None
    else if t[0] == '"' then
      match ReadChars(t[1..])
      case None => None
      case Some((s, rest)) => Some((JString(s), rest))
    else if t[0] == '[' then
      var u := SkipBlanks(t[1..]);
      if u != "" && u[0] == ']' then Some((JArray([]), u[1..]))
      else match ReadItems(u)
           case None => None
           case Some((items, rest)) => Some((JArray(items), rest))
    else if t[0] == '{' then
      var u := SkipBlanks(t[1..]);
      if u != "" && u[0] == '}' then Some((JObject([]), u[1..]))
      else match ReadMembers(u)
           case None => None
           case Some((ms, rest)) => Some((JObject(Dict(ms)), rest))
    else if StartsWith(t, "null") then Some((JNull, t[4..]))
    else if StartsWith(t, "true") then Some((JBool(true), t[4..]))
    else if StartsWith(t, "false") then Some((JBool(false), t[5..]))
    else match NumberRest(t)
         case None => None
         case Some(rest) => Some((JNumber(t[..|t| - |rest|]), rest))
  }

  /** One or more array items up to and including the closing bracket. */
  function ReadItems(t: string): (r: Option<(seq<JSON>, string)>)
    ensures r.Some? ==> |r.value.1| < |t|
    decreases |t|, 1
  {
    match ReadValue(t)
    case None => None
    case Some((v, rest)) =>
      var u := SkipBlanks(rest);
      if u == "" then None
      else if u[0] == ']' then Some(([v], u[1..]))
      else if u[0] == ',' then
        match ReadItems(SkipBlanks(u[1..]))
        case None => None
        case Some((vs, last)) => Some(([v] + vs, last))
      else None
  }

  /** One or more object members up to and including the closing brace. */
  function ReadMembers(t: string): (r: Option<(seq<Member>, string)>)
    ensures r.Some? ==> |r.value.1| < |t|
    decreases |t|, 1
  {
    if t == "" || t[0] != '"' then None
    else match ReadChars(t[1..])
         case None => None
         case Some((key, afterKey)) =>
           var c := SkipBlanks(afterKey);
           if c == "" || c[0] != ':' then None
           else match ReadValue(SkipBlanks(c[1..]))
                case None => None
                case Some((v, rest)) =>
                  var u := SkipBlanks(rest);
                  if u == "" then None
                  else if u[0] == '}' then Some(([Member(key, v)], u[1..]))
                  else if u[0] == ',' then
                    match ReadMembers(SkipBlanks(u[1..]))
                    case None => None
                    case Some((ms, last)) => Some(([Member(key, v)] + ms, last))
                  else None
  }

  /** json.loads, None standing for the exception it raises. */
  function Loads(t: string): Option<JSON> {
    match ReadValue(SkipBlanks(t))
    case None => None
    case Some((v, rest)) => if SkipBlanks(rest) == "" then Some(v) else None
  }

  // ---- reading back what was printed ---------------------------------------------------------------

  /** The value a reader builds: every dict resolved, so that repeated keys keep the last value. */
  function Resolved(v: JSON): JSON
    decreases v, 1
  {
    match v
    case JArray(items) => JArray(ResolvedItems(items))
    case JObject(ms) => JObject(Dict(ResolvedMembers(ms)))
    case _ => v
  }

  function ResolvedItems(items: seq<JSON>): (r: seq<JSON>)
    ensures |r| == |items| && forall i | 0 <= i < |items| :: r[i] == Resolved(items[i])
    decreases items, 0
  {
    if items == [] then [] else [Resolved(items[0])] + ResolvedItems(items[1..])
  }

  function ResolvedMembers(ms: seq<Member>): (r: seq<Member>)
    ensures |r| == |ms| && forall i | 0 <= i < |ms| :: r[i] == Member(ms[i].key, Resolved(ms[i].value))
    decreases ms, 0
  {
    if ms == [] then [] else [Member(ms[0].key, Resolved(ms[0].value))] + ResolvedMembers(ms[1..])
  }

  lemma {:induction false} ResolvedWellFormed(v: JSON)
    requires WellFormed(v)
    ensures Resolved(v) == v
  {
    match v
    case JArray(items) =>
      forall i | 0 <= i < |items| ensures Resolved(items[i]) == items[i] { ResolvedWellFormed(items[i]); }
      assert ResolvedItems(items) == items;
    case JObject(ms) =>
      forall i | 0 <= i < |ms| ensures Resolved(ms[i].value) == ms[i].value { ResolvedWellFormed(ms[i].value); }
      assert ResolvedMembers(ms) == ms;
      DictOfDistinct(ms);
    case _ =>
  }

  /** Every number in v has the text of a number. */
  ghost predicate NumbersValid(v: JSON) {
    match v
    case JNumber(x) => ValidNumber(x)
    case JArray(items) => forall i | 0 <= i < |items| :: NumbersValid(items[i])
    case JObject(ms) => forall i | 0 <= i < |ms| :: NumbersValid(ms[i].value)
    case _ => true
  }

  lemma HexDigitValue(d: int)
    requires 0 <= d < 16
    ensures HexValue(HexDigit(d)) == Some(d)
  {
  }

  lemma Hex4ReadBack(n: int, k: string)
    requires 0 <= n < 0x10000
    ensures ReadHex4(Hex4(n) + k) == Some(n)
  {
    var t := Hex4(n) + k;
    var h := n / 16;
    var g := h / 16;
    assert n / 256 == g && n / 4096 == g / 16;
    assert t[0] == HexDigit(g / 16) && t[1] == HexDigit(g % 16) && t[2] == HexDigit(h % 16) && t[3] == HexDigit(n % 16);
    HexDigitValue(g / 16);
    HexDigitValue(g % 16);
    HexDigitValue(h % 16);
    HexDigitValue(n % 16);
  }

  lemma UnicodeReadBack(c: char, k: string)
    requires c as int < 0x10000
    ensures UnescapeUnicode(Hex4(c as int) + k) == Some((c, k))
  {
    Hex4ReadBack(c as int, k);
    assert (Hex4(c as int) + k)[4..] == k;
  }

  lemma SurrogatesReadBack(c: char, hi: int, lo: int, k: string)
    requires c as int >= 0x10000
    requires hi == 0xD800 + (c as int - 0x10000) / 1024 && lo == 0xDC00 + (c as int - 0x10000) % 1024
    ensures UnescapeUnicode(Hex4(hi) + ("\\u" + (Hex4(lo) + k))) == Some((c, k))
  {
    var t := Hex4(hi) + ("\\u" + (Hex4(lo) + k));
    Hex4ReadBack(hi, "\\u" + (Hex4(lo) + k));
    assert t[4] == '\\' && t[5] == 'u' && t[6..] == Hex4(lo) + k && t[10..] == k;
    Hex4ReadBack(lo, k);
    assert 0x10000 + 1024 * (hi - 0xD800) + (lo - 0xDC00) == c as int;
  }

  lemma ShortReadBack(c: char, st: Style, k: string)
    requires !Plain(c, st) && |EscapeChar(c, st)| == 2
    ensures EscapeChar(c, st)[0] == '\\' && Unescape([EscapeChar(c, st)[1]] + k) == Some((c, k))
  {
    hide Hex4, UnescapeUnicode;
    assert ([EscapeChar(c, st)[1]] + k)[1..] == k;
  }

  lemma LongReadBack(c: char, st: Style, k: string)
    requires !Plain(c, st) && |EscapeChar(c, st)| != 2
    ensures EscapeChar(c, st)[0] == '\\' && Unescape(EscapeChar(c, st)[1..] + k) == Some((c, k))
  {
    hide Hex4, ReadHex4, UnescapeUnicode;
    var n := c as int;
    var t := EscapeChar(c, st)[1..] + k;
    if n < 0x10000 {
      UnicodeReadBack(c, k);
      assert t[1..] == Hex4(n) + k;
    } else {
      var hi, lo := 0xD800 + (n - 0x10000) / 1024, 0xDC00 + (n - 0x10000) % 1024;
      SurrogatesReadBack(c, hi, lo, k);
      assert t[1..] == Hex4(hi) + ("\\u" + (Hex4(lo) + k));
    }
  }

  /** An escaped character reads back as itself. */
  lemma EscapeReadBack(c: char, st: Style, k: string)
    requires !Plain(c, st)
    ensures EscapeChar(c, st) != "" && EscapeChar(c, st)[0] == '\\'
    ensures Unescape((EscapeChar(c, st) + k)[1..]) == Some((c, k))
  {
    var e := EscapeChar(c, st);
    assert (e + k)[1..] == e[1..] + k;
    hide Unescape, Hex4;
    if |e| == 2 {
      ShortReadBack(c, st, k);
      assert e[1..] == [e[1]];
    } else {
      LongReadBack(c, st, k);
    }
  }

  lemma {:induction false} CharsReadBack(s: string, st: Style, k: string)
    ensures ReadChars(EscapeTo(s, st, "\"" + k)) == Some((s, k))
  {
    if s == "" {
    } else {
      var rest := EscapeTo(s[1..], st, "\"" + k);
      var t := EscapeTo(s, st, "\"" + k);
      CharsReadBack(s[1..], st, k);
      if Plain(s[0], st) {
        assert t[0] == s[0] && t[1..] == rest;
      } else {
        EscapeReadBack(s[0], st, rest);
      }
      assert s == [s[0]] + s[1..];
    }
  }

  lemma {:induction false} PadSkipped(n: nat, k: string)
    ensures SkipBlanks(PadTo(n, k)) == SkipBlanks(k)
  {
    if n > 0 {
      PadSkipped(n - 1, k);
      assert PadTo(n, k)[1..] == PadTo(n - 1, k);
    }
  }

  lemma BreakSkipped(st: Style, d: nat, k: string)
    ensures SkipBlanks(BreakTo(st, d, k)) == SkipBlanks(k)
    ensures EndsNumber(k) ==> EndsNumber(BreakTo(st, d, k))
  {
    if st.Pretty? {
      PadSkipped(2 * d, k);
      assert BreakTo(st, d, k)[1..] == PadTo(2 * d, k);
    }
  }

  lemma CommaSkipped(st: Style, d: nat, k: string)
    ensures var t := CommaTo(st, d, k); t != "" && t[0] == ',' && SkipBlanks(t[1..]) == SkipBlanks(k)
  {
    var t := CommaTo(st, d, k);
    BreakSkipped(st, d, k);
    match st
    case Pretty => assert t[1..] == BreakTo(st, d, k);
    case Spaced => assert t[1..] == " " + k; assert (" " + k)[1..] == k;
    case Compact => assert t[1..] == k;
  }

  lemma ColonSkipped(st: Style, k: string)
    ensures var t := ColonTo(st, k); t != "" && t[0] == ':' && SkipBlanks(t[1..]) == SkipBlanks(k)
  {
    var t := ColonTo(st, k);
    if st.Compact? {
      assert t[1..] == k;
    } else {
      assert t[1..] == " " + k;
      assert (" " + k)[1..] == k;
    }
  }

  /** What a printed value can begin with: never white space, a comma or a closing bracket. */
  predicate ValueStart(t: string) {
    t != "" && !IsSpace(t[0]) && t[0] != ',' && t[0] != ']' && t[0] != '}'
  }

  lemma PrintStarts(v: JSON, st: Style, d: nat, k: string)
    requires NumbersValid(v)
    ensures ValueStart(PrintTo(v, st, d, k))
  {
  }

  lemma ValueStartStays(t: string)
    requires ValueStart(t)
    ensures SkipBlanks(t) == t
  {
  }

  lemma NumberReadBack(x: string, k: string)
    requires ValidNumber(x) && EndsNumber(k)
    ensures ReadValue(x + k) == Some((JNumber(x), k))
  {
    hide NumberRest, ReadChars, ReadItems, ReadMembers, SkipBlanks;
    NumberThen(x, k);
    var t := x + k;
    assert t[0] == x[0];
    assert t[..|t| - |k|] == x;
  }

  lemma WordReadBack(v: JSON, st: Style, d: nat, k: string)
    requires v.JNull? || v.JBool?
    ensures ReadValue(PrintTo(v, st, d, k)) == Some((v, k))
  {
    var t := PrintTo(v, st, d, k);
    var w := match v case JNull => "null" case JBool(b) => if b then "true" else "false";
    assert t == w + k && t[..|w|] == w && t[|w|..] == k;
    assert StartsWith(t, w);
  }

  // One step of each reader, for any input.

  lemma ReadArrayStep(t: string, u: string, items: seq<JSON>, k: string)
    requires t != "" && t[0] == '[' && SkipBlanks(t[1..]) == u && ValueStart(u)
    requires ReadItems(u) == Some((items, k))
    ensures ReadValue(t) == Some((JArray(items), k))
  {
  }

  lemma ReadObjectStep(t: string, u: string, ms: seq<Member>, k: string)
    requires t != "" && t[0] == '{' && SkipBlanks(t[1..]) == u && ValueStart(u)
    requires ReadMembers(u) == Some((ms, k))
    ensures ReadValue(t) == Some((JObject(Dict(ms)), k))
  {
  }

  lemma ReadItemsLast(t: string, v: JSON, next: string, k: string)
    requires ReadValue(t) == Some((v, next)) && SkipBlanks(next) == "]" + k
    ensures ReadItems(t) == Some(([v], k))
  {
    assert ("]" + k)[1..] == k;
  }

  lemma ReadItemsMore(t: string, v: JSON, next: string, more: string, vs: seq<JSON>, k: string)
    requires ReadValue(t) == Some((v, next))
    requires next != "" && next[0] == ',' && SkipBlanks(next[1..]) == more
    requires ReadItems(more) == Some((vs, k))
    ensures ReadItems(t) == Some(([v] + vs, k))
  {
  }

  lemma ReadMembersLast(t: string, key: string, c: string, value: string, v: JSON, next: string, k: string)
    requires t != "" && t[0] == '"' && ReadChars(t[1..]) == Some((key, c))
    requires c != "" && c[0] == ':' && SkipBlanks(c[1..]) == value
    requires ReadValue(value) == Some((v, next)) && SkipBlanks(next) == "}" + k
    ensures ReadMembers(t) == Some(([Member(key, v)], k))
  {
    assert ("}" + k)[1..] == k;
  }

  lemma ReadMembersMore(t: string, key: string, c: string, value: string, v: JSON, next: string,
                        more: string, ms: seq<Member>, k: string)
    requires t != "" && t[0] == '"' && ReadChars(t[1..]) == Some((key, c))
    requires c != "" && c[0] == ':' && SkipBlanks(c[1..]) == value
    requires ReadValue(value) == Some((v, next))
    requires next != "" && next[0] == ',' && SkipBlanks(next[1..]) == more
    requires ReadMembers(more) == Some((ms, k))
    ensures ReadMembers(t) == Some(([Member(key, v)] + ms, k))
  {
  }

  lemma {:induction false} ReadBack(v: JSON, st: Style, d: nat, k: string)
    requires NumbersValid(v) && EndsNumber(k)
    ensures ReadValue(PrintTo(v, st, d, k)) == Some((Resolved(v), k))
    decreases v, 2
  {
    match v
    case JNull => WordReadBack(v, st, d, k);
    case JBool(_) => WordReadBack(v, st, d, k);
    case JNumber(x) => NumberReadBack(x, k);
    case JString(s) =>
      assert PrintTo(v, st, d, k)[1..] == EscapeTo(s, st, "\"" + k);
      CharsReadBack(s, st, k);
    case JArray(items) => if items == [] { EmptyReadBack(v, st, d, k); } else { ArrayReadBack(items, st, d, k); }
    case JObject(ms) => if ms == [] { EmptyReadBack(v, st, d, k); } else { ObjectReadBack(ms, st, d, k); }
  }

  lemma EmptyReadBack(v: JSON, st: Style, d: nat, k: string)
    requires v == JArray([]) || v == JObject([])
    ensures ReadValue(PrintTo(v, st, d, k)) == Some((Resolved(v), k))
  {
    var t := PrintTo(v, st, d, k);
    var close := if v.JArray? then "]" else "}";
    assert t[1..] == close + k && (close + k)[1..] == k;
  }

  lemma ArrayOpens(items: seq<JSON>, st: Style, d: nat, k: string)
    requires items != []
    ensures var t := PrintTo(JArray(items), st, d, k);
            t[0] == '[' && SkipBlanks(t[1..]) == SkipBlanks(ItemsTo(items, st, d + 1, BreakTo(st, d, "]" + k)))
  {
    var body := ItemsTo(items, st, d + 1, BreakTo(st, d, "]" + k));
    assert PrintTo(JArray(items), st, d, k)[1..] == BreakTo(st, d + 1, body);
    BreakSkipped(st, d + 1, body);
  }

  lemma ObjectOpens(ms: seq<Member>, st: Style, d: nat, k: string)
    requires ms != []
    ensures var t := PrintTo(JObject(ms), st, d, k);
            t[0] == '{' && SkipBlanks(t[1..]) == SkipBlanks(MembersTo(ms, st, d + 1, BreakTo(st, d, "}" + k)))
  {
    var body := MembersTo(ms, st, d + 1, BreakTo(st, d, "}" + k));
    assert PrintTo(JObject(ms), st, d, k)[1..] == BreakTo(st, d + 1, body);
    BreakSkipped(st, d + 1, body);
  }

  lemma {:induction false} ArrayReadBack(items: seq<JSON>, st: Style, d: nat, k: string)
    requires items != [] && EndsNumber(k)
    requires forall i | 0 <= i < |items| :: NumbersValid(items[i])
    ensures ReadValue(PrintTo(JArray(items), st, d, k)) == Some((Resolved(JArray(items)), k))
    decreases items, 1
  {
    var tail := BreakTo(st, d, "]" + k);
    BreakSkipped(st, d, "]" + k);
    ItemsReadBack(items, st, d + 1, tail, k);
    ArrayOpens(items, st, d, k);
    ItemsStart(items, st, d + 1, tail);
    ReadArrayStep(PrintTo(JArray(items), st, d, k), ItemsTo(items, st, d + 1, tail), ResolvedItems(items), k);
  }

  lemma {:induction false} ObjectReadBack(ms: seq<Member>, st: Style, d: nat, k: string)
    requires ms != [] && EndsNumber(k)
    requires forall i | 0 <= i < |ms| :: NumbersValid(ms[i].value)
    ensures ReadValue(PrintTo(JObject(ms), st, d, k)) == Some((Resolved(JObject(ms)), k))
    decreases ms, 1
  {
    var tail := BreakTo(st, d, "}" + k);
    BreakSkipped(st, d, "}" + k);
    MembersReadBack(ms, st, d + 1, tail, k);
    ObjectOpens(ms, st, d, k);
    MembersStart(ms, st, d + 1, tail);
    ReadObjectStep(PrintTo(JObject(ms), st, d, k), MembersTo(ms, st, d + 1, tail), ResolvedMembers(ms), k);
  }

  lemma ItemsStart(items: seq<JSON>, st: Style, d: nat, k: string)
    requires items != [] && NumbersValid(items[0])
    ensures ValueStart(ItemsTo(items, st, d, k)) && SkipBlanks(ItemsTo(items, st, d, k)) == ItemsTo(items, st, d, k)
  {
    var next := if |items| == 1 then k else CommaTo(st, d, ItemsTo(items[1..], st, d, k));
    PrintStarts(items[0], st, d, next);
    ValueStartStays(PrintTo(items[0], st, d, next));
  }

  lemma MembersStart(ms: seq<Member>, st: Style, d: nat, k: string)
    requires ms != []
    ensures ValueStart(MembersTo(ms, st, d, k)) && SkipBlanks(MembersTo(ms, st, d, k)) == MembersTo(ms, st, d, k)
  {
    assert MembersTo(ms, st, d, k)[0] == '"';
    ValueStartStays(MembersTo(ms, st, d, k));
  }

  lemma {:induction false} ItemsReadBack(items: seq<JSON>, st: Style, d: nat, tail: string, k: string)
    requires items != [] && forall i | 0 <= i < |items| :: NumbersValid(items[i])
    requires EndsNumber(tail) && SkipBlanks(tail) == "]" + k
    ensures ReadItems(ItemsTo(items, st, d, tail)) == Some((ResolvedItems(items), k))
    decreases items, 0
  {
    var t := ItemsTo(items, st, d, tail);
    if |items| == 1 {
      ReadBack(items[0], st, d, tail);
      ReadItemsLast(t, Resolved(items[0]), tail, k);
      assert ResolvedItems(items) == [Resolved(items[0])];
    } else {
      var more := ItemsTo(items[1..], st, d, tail);
      var next := CommaTo(st, d, more);
      CommaSkipped(st, d, more);
      ReadBack(items[0], st, d, next);
      ItemsReadBack(items[1..], st, d, tail, k);
      ItemsStart(items[1..], st, d, tail);
      ReadItemsMore(t, Resolved(items[0]), next, more, ResolvedItems(items[1..]), k);
    }
  }

  lemma {:induction false} MembersReadBack(ms: seq<Member>, st: Style, d: nat, tail: string, k: string)
    requires ms != [] && forall i | 0 <= i < |ms| :: NumbersValid(ms[i].value)
    requires EndsNumber(tail) && SkipBlanks(tail) == "}" + k
    ensures ReadMembers(MembersTo(ms, st, d, tail)) == Some((ResolvedMembers(ms), k))
    decreases ms, 0
  {
    var t := MembersTo(ms, st, d, tail);
    var next := if |ms| == 1 then tail else CommaTo(st, d, MembersTo(ms[1..], st, d, tail));
    var value := PrintTo(ms[0].value, st, d, next);
    var key, v := ms[0].key, Resolved(ms[0].value);
    MemberHeadReadBack(key, st, value);
    PrintStarts(ms[0].value, st, d, next);
    ValueStartStays(value);
    if |ms| == 1 {
      ReadBack(ms[0].value, st, d, next);
      ReadMembersLast(t, key, ColonTo(st, value), value, v, tail, k);
      assert ResolvedMembers(ms) == [Member(key, v)];
    } else {
      var more := MembersTo(ms[1..], st, d, tail);
      CommaSkipped(st, d, more);
      ReadBack(ms[0].value, st, d, next);
      MembersReadBack(ms[1..], st, d, tail, k);
      MembersStart(ms[1..], st, d, tail);
      ReadMembersMore(t, key, ColonTo(st, value), value, v, next, more, ResolvedMembers(ms[1..]), k);
    }
  }

  lemma MemberHeadReadBack(key: string, st: Style, value: string)
    ensures var t := QuoteTo(key, st, ColonTo(st, value));
            && t != "" && t[0] == '"' && ReadChars(t[1..]) == Some((key, ColonTo(st, value)))
    ensures var c := ColonTo(st, value);
            c != "" && c[0] == ':' && SkipBlanks(c) == c && SkipBlanks(c[1..]) == SkipBlanks(value)
  {
    var t := QuoteTo(key, st, ColonTo(st, value));
    assert t[1..] == EscapeTo(key, st, "\"" + ColonTo(st, value));
    CharsReadBack(key, st, ColonTo(st, value));
    ColonSkipped(st, value);
  }

  /** Reading back what was printed gives the value, whatever the style. */
  lemma PrintReadBack(v: JSON, st: Style)
    requires NumbersValid(v)
    ensures Loads(Print(v, st)) == Some(Resolved(v))
  {
    ReadBack(v, st, 0, "");
    PrintStarts(v, st, 0, "");
    ValueStartStays(Print(v, st));
  }

  lemma {:induction false} WellFormedNumbers(v: JSON)
    requires WellFormed(v)
    ensures NumbersValid(v)
  {
    match v
    case JArray(items) => forall i | 0 <= i < |items| ensures NumbersValid(items[i]) { WellFormedNumbers(items[i]); }
    case JObject(ms) => forall i | 0 <= i < |ms| ensures NumbersValid(ms[i].value) { WellFormedNumbers(ms[i].value); }
    case _ =>
  }

  /** loads(dumps(v)) == v for every value Python can hold, in every style. */
  lemma DumpsLoads(v: JSON, st: Style)
    requires WellFormed(v)
    ensures Loads(Print(v, st)) == Some(v)
  {
    WellFormedNumbers(v);
    PrintReadBack(v, st);
    ResolvedWellFormed(v);
  }
}
