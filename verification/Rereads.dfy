/** Reading an object back from the config it was printed to, as an operation on objects. */
module Rereads {
  import opened Text
  import opened Json
  import opened JsonText
  import opened Jsonc
  import opened JsoncRoundTrip
  import opened ParseFacts
  import opened Configs
  import opened Hooks
  import opened HookLaws
  import opened HookRuns
  import opened ConfigFiles
  import opened SoundObjects

  function RereadValue(v: JSON): JSON { Resolved(TrimmedValue(v)) }

  /** Every key and value with the commas gone that a rewrite drops, before keys that became equal merge. */
  function RereadPairs(ms: seq<Member>): (r: seq<Member>)
    ensures |r| == |ms| && forall i | 0 <= i < |ms| :: r[i] == Member(Trimmed(ms[i].key), RereadValue(ms[i].value))
  {
    ResolvedMembers(TrimmedMembers(ms))
  }

  function Reread(ms: seq<Member>): seq<Member> { Dict(RereadPairs(ms)) }

  lemma ValueOfObject(ms: seq<Member>)
    ensures RereadValue(JObject(ms)) == JObject(Reread(ms))
  {
  }

  /** What a step or a removal reads of an object that was written. */
  lemma WrittenParses(ms: seq<Member>)
    requires WellFormed(JObject(ms))
    ensures ReadText(Print(JObject(ms), Pretty)) == Print(JObject(ms), Pretty)
    ensures ParseJsonc(Print(JObject(ms), Pretty)) == Some(JObject(Reread(ms))) && WellFormed(JObject(Reread(ms)))
  {
    hide ReadText, ParseJsonc, Print, WellFormed, NumbersValid, Resolved, TrimmedValue, Reread;
    PrintedReadText(JObject(ms));
    WellFormedNumbers(JObject(ms));
    ConfigReadBack(JObject(ms));
    ValueOfObject(ms);
    ParsedWellFormed(Print(JObject(ms), Pretty));
  }

  lemma RereadSound(ms: seq<Member>)
    requires SoundObject(ms, true)
    ensures Reread(ms) == ms
  {
    hide WellFormed, Clean, Resolved, TrimmedValue, Reread;
    TrimmedChars(JObject(ms));
    ResolvedWellFormed(JObject(ms));
    ValueOfObject(ms);
  }

  /** Reading back loses characters exactly when some string has a comma before a closing bracket. */
  lemma RereadShrinks(ms: seq<Member>)
    requires WellFormed(JObject(ms))
    ensures Clean(JObject(ms)) ==> Reread(ms) == ms
    ensures !Clean(JObject(ms)) ==> Chars(JObject(Reread(ms))) < Chars(JObject(ms))
  {
    hide WellFormed, Clean, Resolved, TrimmedValue, Reread, Chars;
    TrimmedChars(JObject(ms));
    ResolvedChars(TrimmedValue(JObject(ms)));
    ValueOfObject(ms);
    ResolvedWellFormed(JObject(ms));
  }

  // ---- keys without brackets stay what they are --------------------------------------------------------------------

  predicate Firm(k: string) { forall i | 0 <= i < |k| :: !IsCloser(k[i]) }

  lemma FirmCons(c: char, t: string)
    ensures Firm([c] + t) <==> !IsCloser(c) && Firm(t)
  {
    var u := [c] + t;
    assert u[0] == c && forall i | 0 <= i < |t| :: u[i + 1] == t[i];
  }

  lemma {:induction false} CloserAhead(s: string)
    requires SpacesThenCloser(s)
    ensures !Firm(s)
  {
    if !IsCloser(s[0]) {
      CloserAhead(s[1..]);
      FirmCons(s[0], s[1..]);
      assert s == [s[0]] + s[1..];
    }
  }

  lemma {:induction false} FirmTrimmed(s: string)
    ensures Firm(Trimmed(s)) <==> Firm(s)
    ensures Firm(s) ==> Trimmed(s) == s
  {
    hide Firm, SpacesThenCloser;
    if s != "" {
      var c, t := s[0], s[1..];
      assert s == [c] + t;
      FirmTrimmed(t);
      FirmCons(c, t);
      if c == ',' && SpacesThenCloser(t) { CloserAhead(t); } else { FirmCons(c, Trimmed(t)); }
    }
  }

  lemma FirmKey(s: string, k: string)
    requires Firm(k)
    ensures Trimmed(s) == k <==> s == k
  {
    hide Firm, Trimmed;
    FirmTrimmed(s);
    FirmTrimmed(k);
  }

  lemma OwnKeysFirm()
    ensures Firm("mcpServers") && Firm("context_servers") && Firm("mcp") && Firm("hooks")
    ensures Firm(SERVER) && Firm(START) && Firm(STOP)
  {
  }

  lemma SchemaFirm()
    ensures Firm(SCHEMA_KEY)
  {
  }

  // ---- rereading commutes with the dict operations -------------------------------------------------------------------

  lemma IndexOfPairs(ms: seq<Member>, k: string)
    requires Firm(k)
    ensures IndexOf(RereadPairs(ms), k) == IndexOf(ms, k)
  {
    hide Firm, RereadPairs, Trimmed, RereadValue;
    var r := RereadPairs(ms);
    forall i | 0 <= i < |ms| ensures r[i].key == k <==> ms[i].key == k { FirmKey(ms[i].key, k); }
    var x, y := IndexOf(r, k), IndexOf(ms, k);
    assert x < |r| ==> ms[x].key == k;
    assert y < |ms| ==> r[y].key == k;
  }

  lemma PutPairs(ms: seq<Member>, k: string, v: JSON)
    requires Firm(k)
    ensures RereadPairs(Put(ms, k, v)) == Put(RereadPairs(ms), k, RereadValue(v))
  {
    hide Firm, IndexOf, Trimmed, RereadValue, RereadPairs;
    IndexOfPairs(ms, k);
    FirmKey(k, k);
    var a, b := RereadPairs(Put(ms, k, v)), Put(RereadPairs(ms), k, RereadValue(v));
    assert |a| == |b| && forall i | 0 <= i < |a| :: a[i] == b[i];
  }

  ghost predicate Once(pairs: seq<Member>, k: string) {
    forall i, j | 0 <= i < j < |pairs| :: pairs[i].key != k || pairs[j].key != k
  }

  lemma OncePairs(ms: seq<Member>, k: string)
    requires Firm(k) && DistinctKeys(ms)
    ensures Once(RereadPairs(ms), k)
  {
    hide Firm, RereadPairs, Trimmed, RereadValue;
    forall i | 0 <= i < |ms| ensures RereadPairs(ms)[i].key == k <==> ms[i].key == k { FirmKey(ms[i].key, k); }
  }

  lemma DictSnoc(pairs: seq<Member>, m: Member)
    ensures Dict(pairs + [m]) == Put(Dict(pairs), m.key, m.value)
  {
    hide Put;
    assert (pairs + [m])[..|pairs|] == pairs;
  }

  lemma {:induction false} DictHas(pairs: seq<Member>, k: string)
    ensures HasKey(Dict(pairs), k) <==> HasKey(pairs, k)
  {
    hide Put, Dict, IndexOf, HasKey;
    if pairs == [] {
      DictNone();
    } else {
      var init, last := pairs[..|pairs| - 1], pairs[|pairs| - 1];
      assert pairs == init + [last];
      DictHas(init, k);
      DictSnoc(init, last);
      GetAfterPut(Dict(init), last.key, last.value, k);
      HasKeyIsGet(Dict(init), k);
      HasKeyIsGet(Dict(pairs), k);
      HasSnoc(init, last, k);
    }
  }

  lemma DictNone()
    ensures Dict([]) == []
  {
  }

  lemma HasSnoc(init: seq<Member>, last: Member, k: string)
    ensures HasKey(init + [last], k) <==> HasKey(init, k) || last.key == k
    ensures IndexOf(init + [last], k) == if HasKey(init, k) then IndexOf(init, k) else if last.key == k then |init| else |init| + 1
  {
    var p := init + [last];
    var x, y := IndexOf(p, k), IndexOf(init, k);
    assert forall i | 0 <= i < |init| :: p[i] == init[i];
    assert p[|init|] == last;
    assert y < |init| ==> p[y].key == k;
    assert x < |init| ==> init[x].key == k;
  }

  lemma PutSnoc(init: seq<Member>, last: Member, k: string, v: JSON)
    ensures Put(init + [last], k, v) == if HasKey(init, k) then Put(init, k, v) + [last]
                                        else if last.key == k then init + [Member(k, v)] else init + [last] + [Member(k, v)]
  {
    hide IndexOf;
    HasSnoc(init, last, k);
  }

  /** Building a dict and storing under a key that occurs at most once: either order. */
  lemma {:induction false} DictPut(pairs: seq<Member>, k: string, v: JSON)
    requires Once(pairs, k)
    ensures Dict(Put(pairs, k, v)) == Put(Dict(pairs), k, v)
  {
    hide Put, Dict, IndexOf, HasKey;
    if pairs == [] {
      DictNone();
      DictSnoc([], Member(k, v));
      PutNone(k, v);
      assert [] + [Member(k, v)] == [Member(k, v)];
    } else {
      var init, last := pairs[..|pairs| - 1], pairs[|pairs| - 1];
      assert pairs == init + [last];
      DictPut(init, k, v);
      PutSnoc(init, last, k, v);
      DictSnoc(init, last);
      if HasKey(init, k) {
        OnceEarlier(init, last, k);
        DictHas(init, k);
        DictSnoc(Put(init, k, v), last);
        PutCommute(Dict(init), k, v, last.key, last.value);
      } else if last.key == k {
        DictSnoc(init, Member(k, v));
        PutTwice(Dict(init), k, last.value, v);
      } else {
        DictSnoc(init + [last], Member(k, v));
      }
    }
  }

  lemma OnceEarlier(init: seq<Member>, last: Member, k: string)
    requires Once(init + [last], k) && HasKey(init, k)
    ensures last.key != k
  {
    var p, i := init + [last], IndexOf(init, k);
    assert p[i] == init[i] && p[|init|] == last;
  }

  lemma PutNone(k: string, v: JSON)
    ensures Put([], k, v) == [Member(k, v)] && Once([], k)
  {
  }

  lemma {:induction false} DictGet(pairs: seq<Member>, k: string)
    requires Once(pairs, k)
    ensures Get(Dict(pairs), k) == Get(pairs, k)
  {
    hide Put, Dict, IndexOf, HasKey;
    if pairs == [] {
      DictNone();
    } else {
      var init, last := pairs[..|pairs| - 1], pairs[|pairs| - 1];
      assert pairs == init + [last];
      DictGet(init, k);
      DictSnoc(init, last);
      GetAfterPut(Dict(init), last.key, last.value, k);
      HasSnoc(init, last, k);
      HasIs(init, k);
      if HasKey(init, k) { OnceEarlier(init, last, k); }
    }
  }

  lemma HasIs(ms: seq<Member>, k: string)
    ensures HasKey(ms, k) <==> IndexOf(ms, k) < |ms|
  {
  }

  function RereadOption(v: Option<JSON>): Option<JSON> { match v case Some(x) => Some(RereadValue(x)) case None => None }

  lemma RereadGet(ms: seq<Member>, k: string)
    requires Firm(k) && DistinctKeys(ms)
    ensures Get(Reread(ms), k) == RereadOption(Get(ms, k))
    ensures HasKey(Reread(ms), k) <==> HasKey(ms, k)
  {
    hide Firm, IndexOf, RereadPairs, RereadValue, Dict, Trimmed, DistinctKeys;
    OncePairs(ms, k);
    DictGet(RereadPairs(ms), k);
    IndexOfPairs(ms, k);
    HasKeyIsGet(Reread(ms), k);
    HasKeyIsGet(ms, k);
  }

  lemma RereadPut(ms: seq<Member>, k: string, v: JSON)
    requires Firm(k) && DistinctKeys(ms)
    ensures Reread(Put(ms, k, v)) == Put(Reread(ms), k, RereadValue(v))
  {
    hide Firm, Put, RereadPairs, RereadValue, Dict, DistinctKeys;
    PutPairs(ms, k, v);
    OncePairs(ms, k);
    DictPut(RereadPairs(ms), k, RereadValue(v));
  }

  lemma RereadBucket(ms: seq<Member>, parent: string)
    requires Firm(parent) && DistinctKeys(ms)
    ensures Bucket(Reread(ms), parent) == Reread(Bucket(ms, parent))
  {
    hide Firm, Get, Reread, RereadValue, Dict, DistinctKeys;
    RereadGet(ms, parent);
    NothingReread();
    match Get(ms, parent)
    case Some(JObject(b)) => ValueOfObject(b);
    case Some(v) => ScalarReread(v);
    case None =>
  }

  lemma NothingReread()
    ensures Reread([]) == []
  {
  }

  lemma ScalarReread(v: JSON)
    ensures RereadValue(v).JObject? == v.JObject? && RereadValue(v).JArray? == v.JArray?
  {
  }

  // ---- and with piLoci's edits ---------------------------------------------------------------------------------------

  lemma CleanReread(v: JSON)
    requires WellFormed(v) && Clean(v)
    ensures RereadValue(v) == v
  {
    hide WellFormed, Clean;
    TrimmedChars(v);
    ResolvedWellFormed(v);
  }

  lemma RereadMerge(ms: seq<Member>, parent: string, entry: JSON)
    requires WellFormed(JObject(ms)) && WellFormed(entry) && Clean(entry) && Firm(parent)
    ensures Reread(MergeServer(ms, parent, SERVER, entry)) == MergeServer(Reread(ms), parent, SERVER, entry)
  {
    hide Firm, Put, Get, Bucket, RereadValue, Reread, DistinctKeys, WellFormed, Clean;
    OwnKeysFirm();
    var b := Bucket(ms, parent);
    BothDistinctKeys(ms, parent);
    CleanReread(entry);
    RereadPut(ms, parent, JObject(Put(b, SERVER, entry)));
    ValueOfObject(Put(b, SERVER, entry));
    RereadPut(b, SERVER, entry);
    RereadBucket(ms, parent);
  }

  lemma BothDistinctKeys(ms: seq<Member>, parent: string)
    requires WellFormed(JObject(ms))
    ensures DistinctKeys(ms) && DistinctKeys(Bucket(ms, parent))
  {
    hide WellFormed, DistinctKeys, Bucket;
    BucketsDistinct(ms, parent, false);
  }

  /** No entry of the array is piLoci's. */
  predicate AllForeign(arr: seq<JSON>) { forall i | 0 <= i < |arr| :: !Tagged(arr[i]) }

  lemma {:induction false} ForeignAll(arr: seq<JSON>)
    ensures AllForeign(arr) <==> Foreign(arr) == arr
    ensures AllForeign(Foreign(arr))
  {
    hide Tagged;
    if arr != [] {
      ForeignAll(arr[1..]);
      assert arr == [arr[0]] + arr[1..];
      ForeignLonger(arr[1..]);
    }
  }

  lemma ForeignLonger(arr: seq<JSON>)
    ensures |Foreign(arr)| <= |arr|
  {
  }

  /** A rewrite makes no entry piLoci's: the text test looks inside strings only, and dropping a comma joins nothing. */
  lemma RereadUntagged(h: JSON)
    requires WellFormed(h)
    ensures Tagged(RereadValue(h)) ==> Tagged(h)
  {
    hide Tagged, Mentions, WellFormed, NumbersValid;
    WellFormedNumbers(h);
    TrimmedNumbers(h);
    ResolvedNumbers(TrimmedValue(h));
    TaggedIffMentions(h);
    TaggedIffMentions(RereadValue(h));
    TrimmedMentions(h);
    ResolvedMentions(TrimmedValue(h));
  }

  lemma {:induction false} ResolvedNumbers(v: JSON)
    requires NumbersValid(v)
    ensures NumbersValid(Resolved(v))
  {
    hide Dict, ValidNumber;
    match v
    case JArray(items) =>
      forall i | 0 <= i < |items| ensures NumbersValid(ResolvedItems(items)[i]) { ResolvedNumbers(items[i]); }
    case JObject(ms) =>
      var rs := ResolvedMembers(ms);
      forall i | 0 <= i < |ms| ensures NumbersValid(rs[i].value) { ResolvedNumbers(ms[i].value); }
      DictAmong(rs);
      forall i | 0 <= i < |Dict(rs)| ensures NumbersValid(Dict(rs)[i].value) {
        assert Dict(rs)[i] in rs;
      }
    case _ =>
  }

  lemma ItemsReread(arr: seq<JSON>)
    ensures RereadValue(JArray(arr)).JArray? && |RereadValue(JArray(arr)).items| == |arr|
    ensures forall i | 0 <= i < |arr| :: RereadValue(JArray(arr)).items[i] == RereadValue(arr[i])
  {
  }

  lemma ForeignReread(arr: seq<JSON>)
    requires AllForeign(arr) && forall i | 0 <= i < |arr| :: WellFormed(arr[i])
    ensures AllForeign(RereadValue(JArray(arr)).items)
  {
    hide Tagged, WellFormed, RereadValue;
    ItemsReread(arr);
    forall i | 0 <= i < |arr| ensures !Tagged(RereadValue(arr[i])) { RereadUntagged(arr[i]); }
  }
}
