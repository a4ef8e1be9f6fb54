/**
 JSON values as Python's json module holds them: a dict is a sequence of members with distinct keys, in
 insertion order, and a number is the text it is printed as.
 */
module Json {
  import opened Text

  datatype Member = Member(key: string, value: JSON)

  datatype JSON =
    | JNull
    | JBool(b: bool)
    | JNumber(lexeme: string)
    | JString(s: string)
    | JArray(items: seq<JSON>)
    | JObject(members: seq<Member>)

  // ---- dict operations -------------------------------------------------------------------------

  /** The position of key k in the dict, or |ms| when it is absent. */
  function IndexOf(ms: seq<Member>, k: string): (i: nat)
    ensures i <= |ms|
    ensures i < |ms| ==> ms[i].key == k
    ensures forall j | 0 <= j < i :: ms[j].key != k
  {
    if ms == [] || ms[0].key == k then 0 else 1 + IndexOf(ms[1..], k)
  }

  predicate HasKey(ms: seq<Member>, k: string) { IndexOf(ms, k) < |ms| }

  /** dict.get(k) */
  function Get(ms: seq<Member>, k: string): Option<JSON> {
    var i := IndexOf(ms, k);
    if i < |ms| then Some(ms[i].value) else None
  }

  /** d[k] = v: an existing key keeps its place, a new one goes to the end. */
  function Put(ms: seq<Member>, k: string, v: JSON): seq<Member> {
    var i := IndexOf(ms, k);
    if i < |ms| then ms[i := Member(k, v)] else ms + [Member(k, v)]
  }

  /** d.pop(k, None) */
  function Pop(ms: seq<Member>, k: string): seq<Member> {
    var i := IndexOf(ms, k);
    if i < |ms| then ms[..i] + ms[i + 1..] else ms
  }

  ghost predicate DistinctKeys(ms: seq<Member>) {
    forall i, j | 0 <= i < j < |ms| :: ms[i].key != ms[j].key
  }

  /** The dict a parser builds from the pairs it reads, the last value of a repeated key winning. */
  function Dict(pairs: seq<Member>): seq<Member> {
    if pairs == [] then []
    else
      var last := pairs[|pairs| - 1];
      Put(Dict(pairs[..|pairs| - 1]), last.key, last.value)
  }

  lemma {:induction false} DictOfDistinct(pairs: seq<Member>)
    requires DistinctKeys(pairs)
    ensures Dict(pairs) == pairs
  {
    if pairs == [] {
    } else {
      DictOfDistinct(pairs[..|pairs| - 1]);
      assert pairs == pairs[..|pairs| - 1] + [pairs[|pairs| - 1]];
    }
  }

  lemma PutKeepsDistinct(ms: seq<Member>, k: string, v: JSON)
    requires DistinctKeys(ms)
    ensures DistinctKeys(Put(ms, k, v))
  {
  }

  lemma {:induction false} DictIsDistinct(pairs: seq<Member>)
    ensures DistinctKeys(Dict(pairs))
  {
    if pairs != [] {
      DictIsDistinct(pairs[..|pairs| - 1]);
      var last := pairs[|pairs| - 1];
      PutKeepsDistinct(Dict(pairs[..|pairs| - 1]), last.key, last.value);
    }
  }

  // ---- numbers -----------------------------------------------------------------------------------

  function SkipDigits(t: string): (r: string)
    ensures |r| <= |t|
  {
    if t != "" && IsDigit(t[0]) then SkipDigits(t[1..]) else t
  }

  /** What follows the longest number at the start of t (RFC 8259, section 6), or None if there is none. */
  function NumberRest(t: string): (r: Option<string>)
    ensures r.Some? ==> |r.value| < |t|
  {
    var a := if t != "" && t[0] == '-' then t[1..] else t;
    if a == "" || !IsDigit(a[0]) then None
    else
      var i := if a[0] == '0' then a[1..] else SkipDigits(a[1..]);
      Some(SkipExponent(SkipFraction(i)))
  }

  function SkipFraction(t: string): (r: string)
    ensures |r| <= |t|
  {
    if |t| > 1 && t[0] == '.' && IsDigit(t[1]) then SkipDigits(t[1..]) else t
  }

  function SkipExponent(t: string): (r: string)
    ensures |r| <= |t|
  {
    if t != "" && (t[0] == 'e' || t[0] == 'E') then
      var x := if |t| > 1 && (t[1] == '+' || t[1] == '-') then t[2..] else t[1..];
      if x != "" && IsDigit(x[0]) then SkipDigits(x) else t
    else t
  }

  predicate ValidNumber(s: string) { NumberRest(s) == Some("") }

  /** Characters that could prolong a number. */
  predicate NumberChar(c: char) {
    IsDigit(c) || c == '.' || c == 'e' || c == 'E' || c == '+' || c == '-'
  }

  predicate EndsNumber(k: string) { k == "" || !NumberChar(k[0]) }

  lemma {:induction false} SkipDigitsThen(s: string, k: string)
    requires EndsNumber(k)
    ensures SkipDigits(s + k) == SkipDigits(s) + k
  {
    if s == "" {
      assert s + k == k;
    } else if IsDigit(s[0]) {
      assert (s + k)[1..] == s[1..] + k;
      SkipDigitsThen(s[1..], k);
    }
  }

  lemma SkipFractionThen(s: string, k: string)
    requires EndsNumber(k)
    ensures SkipFraction(s + k) == SkipFraction(s) + k
  {
    if s == "" {
      assert s + k == k;
    } else {
      assert (s + k)[1..] == s[1..] + k;
      SkipDigitsThen(s[1..], k);
    }
  }

  lemma SkipExponentThen(s: string, k: string)
    requires EndsNumber(k)
    ensures SkipExponent(s + k) == SkipExponent(s) + k
  {
    hide SkipDigits;
    if s == "" {
      assert s + k == k;
    } else {
      assert (s + k)[1..] == s[1..] + k;
      SkipDigitsThen(s[1..], k);
      if |s| > 1 {
        assert (s + k)[2..] == s[2..] + k;
        SkipDigitsThen(s[2..], k);
      }
    }
  }

  /** A number followed by anything that cannot prolong it is read back whole. */
  lemma NumberThen(s: string, k: string)
    requires ValidNumber(s) && EndsNumber(k)
    ensures NumberRest(s + k) == Some(k)
    ensures s[0] == '-' || IsDigit(s[0])
  {
    hide SkipDigits, SkipFraction, SkipExponent;
    var a := if s[0] == '-' then s[1..] else s;
    assert (s + k)[1..] == s[1..] + k;
    assert (a + k)[1..] == a[1..] + k;
    SkipDigitsThen(a[1..], k);
    var i := if a[0] == '0' then a[1..] else SkipDigits(a[1..]);
    SkipFractionThen(i, k);
    SkipExponentThen(SkipFraction(i), k);
    assert "" + k == k;
  }

  // ---- well-formed values --------------------------------------------------------------------------

  /** A value Python can hold: numbers have a number's text, dict keys are distinct. */
  ghost predicate WellFormed(v: JSON) {
    match v
    case JNumber(x) => ValidNumber(x)
    case JArray(items) => forall i | 0 <= i < |items| :: WellFormed(items[i])
    case JObject(ms) => DistinctKeys(ms) && forall i | 0 <= i < |ms| :: WellFormed(ms[i].value)
    case _ => true
  }
}
