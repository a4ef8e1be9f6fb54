/** What the textual test for piLoci's hook entries means: it finds the directory in a string, never across strings. */
module HookLaws {
  import opened Text
  import opened Json
  import opened JsonText
  import opened JsoncRoundTrip
  import opened Hooks

  /** Some string or key inside v mentions the config directory. */
  ghost predicate Mentions(v: JSON) {
    match v
    case JString(s) => Contains(s, TAG)
    case JArray(items) => exists i | 0 <= i < |items| :: Mentions(items[i])
    case JObject(ms) => exists i | 0 <= i < |ms| :: Contains(ms[i].key, TAG) || Mentions(ms[i].value)
    case _ => false
  }

  // ---- occurrences of the directory in text --------------------------------------------------------------------

  lemma TagLetters()
    ensures |TAG| == 17 && TAG[0] == '~' && TAG[1] == '/'
    ensures forall j | 0 <= j < 17 :: TAG[j] != '"' && TAG[j] != '\\' && TAG[j] != ' ' && TAG[j] != ',' && !IsBracket(TAG[j])
    ensures forall j | 0 <= j < 17 :: ' ' <= TAG[j] <= '~'
    ensures forall j | 0 < j < 17 :: TAG[j] != '~'
  {
  }

  predicate IsBracket(c: char) { c == '}' || c == ']' }

  predicate StartsTag(t: string) { StartsWith(t, TAG) }

  lemma ContainsCons(c: char, t: string)
    ensures Contains([c] + t, TAG) <==> StartsTag([c] + t) || Contains(t, TAG)
  {
    hide TAG, OccursAt;
    var u := [c] + t;
    assert u[1..] == t;
    OccursTail(u, TAG);
    OccursFirst(u);
    if i: nat :| OccursAt(u, TAG, i) {
      if i > 0 { assert OccursAt(t, TAG, i - 1); }
    }
    if j: nat :| OccursAt(t, TAG, j) { assert OccursAt(u, TAG, j + 1); }
  }

  lemma OccursFirst(t: string)
    ensures OccursAt(t, TAG, 0) == StartsTag(t)
  {
    hide TAG;
  }

  lemma StartsWithTilde(t: string)
    ensures StartsTag(t) ==> |t| > 1 && t[0] == '~' && t[1] == '/'
  {
    hide TAG;
    TagLetters();
    if StartsTag(t) { assert t[..|TAG|][0] == t[0] && t[..|TAG|][1] == t[1]; }
  }

  lemma EmptyLacks()
    ensures !Contains("", TAG)
  {
    hide TAG;
    TagLetters();
  }

  /** Text without a tilde in front changes nothing. */
  lemma {:induction false} NoTilde(a: string, t: string)
    requires '~' !in a
    ensures Contains(a + t, TAG) <==> Contains(t, TAG)
  {
    hide TAG, StartsTag, Contains;
    if a == "" {
      assert a + t == t;
    } else {
      NoTilde(a[1..], t);
      ContainsCons(a[0], a[1..] + t);
      StartsWithTilde([a[0]] + (a[1..] + t));
      assert a + t == [a[0]] + (a[1..] + t);
    }
  }

  /** Text without a slash in front changes nothing unless a slash follows it. */
  lemma {:induction false} NoSlash(a: string, t: string)
    requires '/' !in a && (t == "" || t[0] != '/')
    ensures Contains(a + t, TAG) <==> Contains(t, TAG)
  {
    hide TAG, StartsTag, Contains;
    if a == "" {
      assert a + t == t;
    } else {
      NoSlash(a[1..], t);
      ContainsCons(a[0], a[1..] + t);
      StartsWithTilde([a[0]] + (a[1..] + t));
      assert a + t == [a[0]] + (a[1..] + t);
    }
  }

  // ---- strings ---------------------------------------------------------------------------------------------------

  lemma EscapeStep(c: char, s: string, k: string)
    ensures EscapeTo([c] + s, Spaced, k) == EscapeChar(c, Spaced) + EscapeTo(s, Spaced, k)
  {
    assert ([c] + s)[1..] == s;
  }

  lemma HexHasNoTilde(n: int)
    requires 0 <= n < 0x10000
    ensures '~' !in Hex4(n)
  {
  }

  lemma EscapedShape(c: char)
    ensures Plain(c, Spaced) ==> EscapeChar(c, Spaced) == [c]
    ensures !Plain(c, Spaced) ==> EscapeChar(c, Spaced) != "" && EscapeChar(c, Spaced)[0] == '\\' && '~' !in EscapeChar(c, Spaced)
  {
    hide Hex4;
    var n := c as int;
    if n < 0x10000 {
      HexHasNoTilde(n);
    } else {
      HexHasNoTilde(0xD800 + (n - 0x10000) / 1024);
      HexHasNoTilde(0xDC00 + (n - 0x10000) % 1024);
    }
  }

  /** A text that stands for itself in a literal begins the escaped string exactly when it begins the string. */
  lemma {:induction false} EscapedStarts(s: string, p: string, k: string)
    requires forall j | 0 <= j < |p| :: Plain(p[j], Spaced)
    ensures StartsWith(EscapeTo(s, Spaced, "\"" + k), p) <==> StartsWith(s, p)
    decreases |p|
  {
    hide EscapeTo, EscapeChar, Plain;
    if p == "" {
    } else if s == "" {
      EscapeNothing(k);
      QuoteNotPlain();
      StartsCons('"', k, p);
    } else {
      var c, rest, q := s[0], s[1..], p[1..];
      var t := EscapeTo(rest, Spaced, "\"" + k);
      assert s == [c] + rest && p == [p[0]] + q;
      EscapeStep(c, rest, "\"" + k);
      EscapedShape(c);
      StartsCons(c, rest, p);
      QuoteNotPlain();
      if Plain(c, Spaced) {
        EscapedStarts(rest, q, k);
        StartsCons(c, t, p);
      } else {
        StartsCons(EscapeChar(c, Spaced)[0], EscapeChar(c, Spaced)[1..] + t, p);
        assert EscapeChar(c, Spaced) + t == [EscapeChar(c, Spaced)[0]] + (EscapeChar(c, Spaced)[1..] + t);
      }
    }
  }

  lemma EscapeNothing(k: string)
    ensures EscapeTo("", Spaced, "\"" + k) == "\"" + k
  {
  }

  lemma QuoteNotPlain()
    ensures !Plain('"', Spaced) && !Plain('\\', Spaced)
  {
  }

  lemma StartsCons(c: char, t: string, p: string)
    requires p != ""
    ensures StartsWith([c] + t, p) <==> c == p[0] && StartsWith(t, p[1..])
  {
    var u := [c] + t;
    if |p| <= |u| {
      assert u[..|p|] == [c] + t[..|p| - 1] && p == [p[0]] + p[1..];
      if u[..|p|] == p { assert u[..|p|][0] == p[0] && u[..|p|][1..] == p[1..]; }
    }
  }

  lemma TagIsPlain()
    ensures forall j | 0 <= j < |TAG| :: Plain(TAG[j], Spaced)
  {
    hide TAG;
    TagLetters();
  }

  lemma {:induction false} EscapedMentions(s: string, k: string)
    ensures Contains(EscapeTo(s, Spaced, "\"" + k), TAG) <==> Contains(s, TAG) || Contains(k, TAG)
  {
    hide TAG, EscapeTo, EscapeChar, Plain, Contains, StartsWith;
    if s == "" {
      EscapeNothing(k);
      EmptyLacks();
      NoTilde("\"", k);
    } else {
      var c, rest := s[0], s[1..];
      var t := EscapeTo(rest, Spaced, "\"" + k);
      assert s == [c] + rest;
      EscapeStep(c, rest, "\"" + k);
      EscapedMentions(rest, k);
      EscapedShape(c);
      ContainsCons(c, rest);
      TagIsPlain();
      EscapedStarts(s, TAG, k);
      if Plain(c, Spaced) {
        ContainsCons(c, t);
      } else {
        NoTilde(EscapeChar(c, Spaced), t);
        StartsWithTilde(s);
        TildeIsPlain();
      }
    }
  }

  lemma TildeIsPlain()
    ensures Plain('~', Spaced)
  {
  }

  lemma QuoteMentions(s: string, k: string)
    ensures Contains(QuoteTo(s, Spaced, k), TAG) <==> Contains(s, TAG) || Contains(k, TAG)
  {
    hide TAG, EscapeTo, Contains;
    EscapedMentions(s, k);
    NoTilde("\"", EscapeTo(s, Spaced, "\"" + k));
  }

  // ---- values ----------------------------------------------------------------------------------------------------

  /** What can follow a printed value. */
  predicate NoSlashAhead(k: string) { k == "" || k[0] != '/' }

  lemma CommaMentions(d: nat, k: string)
    ensures Contains(CommaTo(Spaced, d, k), TAG) <==> Contains(k, TAG)
    ensures NoSlashAhead(CommaTo(Spaced, d, k))
  {
    hide TAG, Contains;
    NoTilde(", ", k);
    assert CommaTo(Spaced, d, k) == ", " + k;
  }

  lemma ColonMentions(k: string)
    ensures Contains(ColonTo(Spaced, k), TAG) <==> Contains(k, TAG)
  {
    hide TAG, Contains;
    NoTilde(": ", k);
    assert ColonTo(Spaced, k) == ": " + k;
  }

  lemma WordMentions(w: string, k: string)
    requires w == "null" || w == "true" || w == "false" || ValidNumber(w)
    requires NoSlashAhead(k)
    ensures Contains(w + k, TAG) <==> Contains(k, TAG)
  {
    hide TAG, Contains, ValidNumber;
    if ValidNumber(w) { NumberInert(w); }
    NoSlash(w, k);
  }

  /** The printed text of a value mentions the directory exactly when a string inside the value does. */
  lemma {:induction false} PrintMentions(v: JSON, d: nat, k: string)
    requires NumbersValid(v) && NoSlashAhead(k)
    ensures Contains(PrintTo(v, Spaced, d, k), TAG) <==> Mentions(v) || Contains(k, TAG)
    decreases v, 1
  {
    hide TAG, Contains, ValidNumber, QuoteTo, ItemsTo, MembersTo;
    match v
    case JNull => WordMentions("null", k);
    case JBool(b) => WordMentions(if b then "true" else "false", k);
    case JNumber(x) => WordMentions(x, k);
    case JString(s) => QuoteMentions(s, k);
    case JArray(items) =>
      NoTilde("]", k);
      if items != [] { ItemsMention(items, d + 1, "]" + k); }
      NoTilde("[", if items == [] then "]" + k else ItemsTo(items, Spaced, d + 1, "]" + k));
    case JObject(ms) =>
      NoTilde("}", k);
      if ms != [] { MembersMention(ms, d + 1, "}" + k); }
      NoTilde("{", if ms == [] then "}" + k else MembersTo(ms, Spaced, d + 1, "}" + k));
  }

  lemma {:induction false} ItemsMention(items: seq<JSON>, d: nat, k: string)
    requires items != [] && (forall i | 0 <= i < |items| :: NumbersValid(items[i])) && NoSlashAhead(k)
    ensures Contains(ItemsTo(items, Spaced, d, k), TAG) <==>
            (exists i | 0 <= i < |items| :: Mentions(items[i])) || Contains(k, TAG)
    decreases items, 0
  {
    hide TAG, Contains, PrintTo, CommaTo, Mentions, NumbersValid;
    var more := items[1..];
    assert items == [items[0]] + more;
    if more == [] {
      PrintMentions(items[0], d, k);
    } else {
      ItemsMention(more, d, k);
      CommaMentions(d, ItemsTo(more, Spaced, d, k));
      PrintMentions(items[0], d, CommaTo(Spaced, d, ItemsTo(more, Spaced, d, k)));
      assert forall i | 0 < i < |items| :: items[i] == more[i - 1];
      if i :| 0 <= i < |more| && Mentions(more[i]) { assert Mentions(items[i + 1]); }
    }
  }

  ghost predicate MemberMentions(m: Member) { Contains(m.key, TAG) || Mentions(m.value) }

  lemma {:induction false} MembersMention(ms: seq<Member>, d: nat, k: string)
    requires ms != [] && (forall i | 0 <= i < |ms| :: NumbersValid(ms[i].value)) && NoSlashAhead(k)
    ensures Contains(MembersTo(ms, Spaced, d, k), TAG) <==>
            (exists i | 0 <= i < |ms| :: MemberMentions(ms[i])) || Contains(k, TAG)
    ensures Mentions(JObject(ms)) <==> exists i | 0 <= i < |ms| :: MemberMentions(ms[i])
    decreases ms, 0
  {
    ObjectMentions(ms);
    hide TAG, Contains, PrintTo, CommaTo, ColonTo, QuoteTo, Mentions, NumbersValid;
    var more := ms[1..];
    var next := if more == [] then k else CommaTo(Spaced, d, MembersTo(more, Spaced, d, k));
    assert ms == [ms[0]] + more;
    if more != [] {
      MembersMention(more, d, k);
      CommaMentions(d, MembersTo(more, Spaced, d, k));
      assert forall i | 0 < i < |ms| :: ms[i] == more[i - 1];
      if i :| 0 <= i < |more| && MemberMentions(more[i]) { assert MemberMentions(ms[i + 1]); }
    }
    PrintMentions(ms[0].value, d, next);
    ColonMentions(PrintTo(ms[0].value, Spaced, d, next));
    QuoteMentions(ms[0].key, ColonTo(Spaced, PrintTo(ms[0].value, Spaced, d, next)));
  }

  lemma ObjectMentions(ms: seq<Member>)
    ensures Mentions(JObject(ms)) <==> exists i | 0 <= i < |ms| :: MemberMentions(ms[i])
  {
    if i :| 0 <= i < |ms| && MemberMentions(ms[i]) { assert Contains(ms[i].key, TAG) || Mentions(ms[i].value); }
  }

  /** The test finds exactly the entries in which some string or key mentions the directory. */
  lemma TaggedIffMentions(h: JSON)
    requires NumbersValid(h)
    ensures Tagged(h) <==> Mentions(h)
  {
    hide TAG, Contains, Mentions;
    PrintMentions(h, 0, "");
    EmptyLacks();
  }

  // ---- piLoci recognises its own entries --------------------------------------------------------------------------

  /** Every entry the installer writes is recognised as piLoci's. */
  lemma OwnEntryTagged(python: string, script: string)
    ensures Tagged(Entry(HookCommand(python, script)))
  {
    var c := HookCommand(python, script);
    CommandMentions(python, script);
    hide HookCommand, TAG, Contains;
    var inner := JObject([Member("type", JString("command")), Member("command", JString(c))]);
    assert Mentions(JString(c));
    assert inner.members[1].value == JString(c);
    assert Mentions(inner);
    assert JArray([inner]).items[0] == inner && Mentions(JArray([inner]));
    assert Entry(c).members[1].value == JArray([inner]);
    assert NumbersValid(Entry(c)) by { assert NumbersValid(inner); assert NumbersValid(JArray([inner])); }
    TaggedIffMentions(Entry(c));
  }

  lemma CommandMentions(python: string, script: string)
    ensures Contains(HookCommand(python, script), TAG)
  {
    hide SCRIPT_END, TAG;
    var a, r := python + " ", script + SCRIPT_END;
    assert HookCommand(python, script) == a + (TAG + r);
    assert OccursAt(TAG + r, TAG, 0);
    OccursShift(a, TAG + r, TAG, 0);
  }

  // ---- rewriting strings never makes an entry piLoci's -------------------------------------------------------------

  /** A text without commas, spaces and brackets begins the trimmed string only if it begins the string. */
  lemma {:induction false} TrimmedStarts(s: string, p: string)
    requires forall j | 0 <= j < |p| :: p[j] != ',' && p[j] != ' ' && !IsBracket(p[j])
    requires s == "" || !(s[0] == ',' && SpacesThenCloser(s[1..]))
    ensures StartsWith(Trimmed(s), p) ==> StartsWith(s, p)
    decreases |p|
  {
    hide SpacesThenCloser;
    if p != "" && s != "" {
      var c, rest := s[0], s[1..];
      assert s == [c] + rest;
      StartsCons(c, Trimmed(rest), p);
      StartsCons(c, rest, p);
      if rest != "" && rest[0] == ',' && SpacesThenCloser(rest[1..]) {
        AfterDropped(rest);
        if StartsWith(Trimmed(rest), p[1..]) && p[1..] != "" { assert Trimmed(rest)[..|p[1..]|][0] == p[1]; }
      } else {
        TrimmedStarts(rest, p[1..]);
      }
    }
  }

  /** Behind a dropped comma the trimmed string goes on with a space or a bracket. */
  lemma AfterDropped(s: string)
    requires s != "" && s[0] == ',' && SpacesThenCloser(s[1..])
    ensures Trimmed(s) != "" && (Trimmed(s)[0] == ' ' || IsBracket(Trimmed(s)[0]))
  {
    assert s[1..] != "";
  }

  lemma {:induction false} TrimmedContains(s: string)
    ensures Contains(Trimmed(s), TAG) ==> Contains(s, TAG)
  {
    hide TAG, Contains, StartsTag, SpacesThenCloser;
    if s != "" {
      var c, rest := s[0], s[1..];
      assert s == [c] + rest;
      TrimmedContains(rest);
      ContainsCons(c, rest);
      if !(c == ',' && SpacesThenCloser(rest)) {
        ContainsCons(c, Trimmed(rest));
        TrimmedStartsTag(s);
      }
    }
  }

  lemma TrimmedStartsTag(s: string)
    requires s == "" || !(s[0] == ',' && SpacesThenCloser(s[1..]))
    ensures StartsTag(Trimmed(s)) ==> StartsTag(s)
  {
    hide TAG, Trimmed, SpacesThenCloser;
    TagLetters();
    TrimmedStarts(s, TAG);
  }

  lemma {:induction false} TrimmedMentions(v: JSON)
    ensures Mentions(TrimmedValue(v)) ==> Mentions(v)
  {
    hide TAG, Contains, Trimmed;
    match v
    case JString(s) => TrimmedContains(s);
    case JArray(items) =>
      forall i | 0 <= i < |items| ensures Mentions(TrimmedItems(items)[i]) ==> Mentions(items[i]) { TrimmedMentions(items[i]); }
    case JObject(ms) =>
      forall i | 0 <= i < |ms|
        ensures Contains(TrimmedMembers(ms)[i].key, TAG) ==> Contains(ms[i].key, TAG)
        ensures Mentions(TrimmedMembers(ms)[i].value) ==> Mentions(ms[i].value)
      {
        TrimmedContains(ms[i].key);
        TrimmedMentions(ms[i].value);
      }
    case _ =>
  }

  lemma {:induction false} DictAmong(pairs: seq<Member>)
    ensures forall m | m in Dict(pairs) :: m in pairs
  {
    hide IndexOf;
    if pairs != [] {
      var init, last := pairs[..|pairs| - 1], pairs[|pairs| - 1];
      DictAmong(init);
      assert pairs == init + [last];
      assert last == Member(last.key, last.value);
    }
  }

  lemma {:induction false} ResolvedMentions(v: JSON)
    ensures Mentions(Resolved(v)) ==> Mentions(v)
  {
    hide TAG, Contains, Dict;
    match v
    case JArray(items) =>
      forall i | 0 <= i < |items| ensures Mentions(ResolvedItems(items)[i]) ==> Mentions(items[i]) { ResolvedMentions(items[i]); }
    case JObject(ms) =>
      var rs := ResolvedMembers(ms);
      DictAmong(rs);
      forall i | 0 <= i < |ms| ensures Mentions(rs[i].value) ==> Mentions(ms[i].value) { ResolvedMentions(ms[i].value); }
      if i :| 0 <= i < |Dict(rs)| && (Contains(Dict(rs)[i].key, TAG) || Mentions(Dict(rs)[i].value)) {
        assert Dict(rs)[i] in rs;
        var j :| 0 <= j < |rs| && rs[j] == Dict(rs)[i];
        assert Contains(ms[j].key, TAG) || Mentions(ms[j].value);
      }
    case _ =>
  }
}
