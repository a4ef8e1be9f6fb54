/** Merging piLoci's entries into a client's JSON config and taking them out again, on parsed objects. */
module Configs {
  import opened Text
  import opened Json

  // ---- dict laws ---------------------------------------------------------------------------------------

  lemma IndexAfterPut(ms: seq<Member>, k: string, v: JSON, j: string)
    ensures IndexOf(Put(ms, k, v), j) == if j == k || HasKey(ms, j) then IndexOf(ms, j) else |Put(ms, k, v)|
  {
    var i, p := IndexOf(ms, k), Put(ms, k, v);
    assert forall m | 0 <= m < |ms| :: p[m].key == ms[m].key;
    assert i == |ms| ==> p[|ms|].key == k;
  }

  lemma GetAfterPut(ms: seq<Member>, k: string, v: JSON, j: string)
    ensures Get(Put(ms, k, v), j) == if j == k then Some(v) else Get(ms, j)
  {
    hide IndexOf;
    IndexAfterPut(ms, k, v, j);
    IndexAfterPut(ms, k, v, k);
  }

  lemma PutTwice(ms: seq<Member>, k: string, v: JSON, w: JSON)
    ensures Put(Put(ms, k, v), k, w) == Put(ms, k, w)
  {
    hide IndexOf;
    IndexAfterPut(ms, k, v, k);
  }

  /** Storing a value under its own key again changes nothing. */
  lemma PutSame(ms: seq<Member>, k: string, v: JSON)
    requires Get(ms, k) == Some(v)
    ensures Put(ms, k, v) == ms
  {
    hide IndexOf;
    var i := IndexOf(ms, k);
    assert ms[i] == Member(k, v);
  }

  lemma PopAfterPut(ms: seq<Member>, k: string, v: JSON)
    requires !HasKey(ms, k)
    ensures Pop(Put(ms, k, v), k) == ms
  {
    hide IndexOf;
    IndexAfterPut(ms, k, v, k);
  }

  lemma GetAfterPop(ms: seq<Member>, k: string, j: string)
    requires DistinctKeys(ms)
    ensures Get(Pop(ms, k), j) == if j == k then None else Get(ms, j)
    ensures DistinctKeys(Pop(ms, k))
  {
    hide IndexOf;
    var i, p := IndexOf(ms, k), Pop(ms, k);
    if i < |ms| {
      assert forall m | 0 <= m < |p| :: p[m] == if m < i then ms[m] else ms[m + 1];
      var x := IndexOf(ms, j);
      if j != k && x < |ms| {
        assert p[if x < i then x else x - 1] == ms[x];
      }
    }
  }

  // ---- dicts built from pairs ----------------------------------------------------------------------------

  ghost predicate LastOf(pairs: seq<Member>, k: string, i: nat) {
    i < |pairs| && pairs[i].key == k && forall j | i < j < |pairs| :: pairs[j].key != k
  }

  /** Of the pairs with one key the last gives the value. */
  lemma {:induction false} DictKeepsLast(pairs: seq<Member>, k: string, i: nat)
    requires LastOf(pairs, k, i)
    ensures Get(Dict(pairs), k) == Some(pairs[i].value)
  {
    hide Put, Get;
    var init, last := pairs[..|pairs| - 1], pairs[|pairs| - 1];
    GetAfterPut(Dict(init), last.key, last.value, k);
    if i < |init| {
      assert last.key != k;
      assert forall j | i < j < |init| :: init[j] == pairs[j];
      DictKeepsLast(init, k, i);
    }
  }

  lemma IndexOfSnoc(init: seq<Member>, last: Member, k: string)
    ensures IndexOf(init + [last], k) == if HasKey(init, k) || last.key == k then IndexOf(init, k) else |init| + 1
  {
    var p, i := init + [last], IndexOf(init, k);
    assert forall j | 0 <= j < |init| :: p[j] == init[j];
    assert i < |init| ==> p[i].key == k;
    assert p[|init|] == last;
  }

  /** A dict has the keys of the pairs, in the order in which they first occur. */
  lemma {:induction false} DictOrder(pairs: seq<Member>, j: string, k: string)
    ensures HasKey(Dict(pairs), k) <==> HasKey(pairs, k)
    ensures IndexOf(Dict(pairs), j) < IndexOf(Dict(pairs), k) <==> IndexOf(pairs, j) < IndexOf(pairs, k)
  {
    hide IndexOf;
    if pairs == [] {
    } else {
      var init, last := pairs[..|pairs| - 1], pairs[|pairs| - 1];
      assert pairs == init + [last];
      DictOrder(init, j, k);
      DictOrder(init, k, j);
      IndexOfSnoc(init, last, j);
      IndexOfSnoc(init, last, k);
      IndexAfterPut(Dict(init), last.key, last.value, j);
      IndexAfterPut(Dict(init), last.key, last.value, k);
    }
  }

  // ---- one MCP server entry ------------------------------------------------------------------------------

  /** The dict of servers to merge into: a missing or non-dict value is replaced by an empty one. */
  function Bucket(obj: seq<Member>, parent: string): seq<Member> {
    match Get(obj, parent)
    case Some(JObject(ms)) => ms
    case _ => []
  }

  function MergeServer(obj: seq<Member>, parent: string, server: string, entry: JSON): seq<Member> {
    Put(obj, parent, JObject(Put(Bucket(obj, parent), server, entry)))
  }

  /** The object without the entry, or None when there is nothing to remove. */
  function RemoveServer(obj: seq<Member>, parent: string, server: string): Option<seq<Member>> {
    match Get(obj, parent)
    case Some(JObject(ms)) =>
      if !HasKey(ms, server) then None
      else if Pop(ms, server) == [] then Some(Pop(obj, parent))
      else Some(Put(obj, parent, JObject(Pop(ms, server))))
    case _ => None
  }

  /** A merge sets the entry and leaves every other server and every other key as it was. */
  lemma MergeKeepsOthers(obj: seq<Member>, parent: string, server: string, entry: JSON, key: string)
    ensures var m := MergeServer(obj, parent, server, entry);
            && (key != parent ==> Get(m, key) == Get(obj, key))
            && Get(m, parent).Some? && Get(m, parent).value.JObject?
            && Get(Bucket(m, parent), key) == if key == server then Some(entry) else Get(Bucket(obj, parent), key)
  {
    hide Put, Get;
    GetAfterPut(obj, parent, JObject(Put(Bucket(obj, parent), server, entry)), parent);
    GetAfterPut(obj, parent, JObject(Put(Bucket(obj, parent), server, entry)), key);
    GetAfterPut(Bucket(obj, parent), server, entry, key);
  }

  /** Merging again replaces the entry: only the last merge counts. */
  lemma MergeTwice(obj: seq<Member>, parent: string, server: string, first: JSON, second: JSON)
    ensures MergeServer(MergeServer(obj, parent, server, first), parent, server, second)
         == MergeServer(obj, parent, server, second)
  {
    hide Put, Get;
    var b := Bucket(obj, parent);
    GetAfterPut(obj, parent, JObject(Put(b, server, first)), parent);
    PutTwice(b, server, first, second);
    PutTwice(obj, parent, JObject(Put(b, server, first)), JObject(Put(b, server, second)));
  }

  /** The object after the given merges, in order. */
  function AfterMerges(obj: seq<Member>, parent: string, server: string, entries: seq<JSON>): seq<Member>
    decreases |entries|
  {
    if entries == [] then obj
    else MergeServer(AfterMerges(obj, parent, server, entries[..|entries| - 1]), parent, server, entries[|entries| - 1])
  }

  lemma {:induction false} AfterMergesIsLast(obj: seq<Member>, parent: string, server: string, entries: seq<JSON>)
    requires entries != []
    ensures AfterMerges(obj, parent, server, entries) == MergeServer(obj, parent, server, entries[|entries| - 1])
    decreases |entries|
  {
    hide MergeServer;
    var init := entries[..|entries| - 1];
    if init != [] {
      AfterMergesIsLast(obj, parent, server, init);
      MergeTwice(obj, parent, server, init[|init| - 1], entries[|entries| - 1]);
    }
  }

  /** Where a merge can be undone: no such key, or a dict that holds servers but not this one. */
  predicate Restorable(obj: seq<Member>, parent: string, server: string) {
    match Get(obj, parent)
    case None => true
    case Some(JObject(ms)) => ms != [] && !HasKey(ms, server)
    case _ => false
  }

  lemma RemoveAfterMerge(obj: seq<Member>, parent: string, server: string, entry: JSON)
    requires DistinctKeys(obj) && DistinctKeys(Bucket(obj, parent))
    ensures RemoveServer(MergeServer(obj, parent, server, entry), parent, server) == Some(obj)
       <==> Restorable(obj, parent, server)
  {
    hide Put, Pop, Get, IndexOf;
    var b := Bucket(obj, parent);
    var full := Put(b, server, entry);
    var m := MergeServer(obj, parent, server, entry);
    GetAfterPut(obj, parent, JObject(full), parent);
    GetAfterPut(b, server, entry, server);
    HasKeyIsGet(full, server);
    PutKeepsDistinct(obj, parent, JObject(full));
    PutKeepsDistinct(b, server, entry);
    GetAfterPop(m, parent, parent);
    GetAfterPut(m, parent, JObject(Pop(full, server)), parent);
    GetAfterPop(full, server, server);
    HasKeyIsGet(b, server);
    HasKeyIsGet(obj, parent);
    if !HasKey(b, server) {
      PopAfterPut(b, server, entry);
      PutTwice(obj, parent, JObject(full), JObject(b));
      if Get(obj, parent) == Some(JObject(b)) { PutSame(obj, parent, JObject(b)); }
      if Get(obj, parent).None? { PopAfterPut(obj, parent, JObject(full)); }
    }
  }

  lemma HasKeyIsGet(ms: seq<Member>, k: string)
    ensures HasKey(ms, k) <==> Get(ms, k).Some?
  {
  }

  /** Any number of merges, then one removal: the original object comes back exactly when it was restorable. */
  lemma MergesUndone(obj: seq<Member>, parent: string, server: string, entries: seq<JSON>)
    requires entries != [] && DistinctKeys(obj) && DistinctKeys(Bucket(obj, parent))
    ensures RemoveServer(AfterMerges(obj, parent, server, entries), parent, server) == Some(obj)
       <==> Restorable(obj, parent, server)
  {
    hide RemoveServer, MergeServer, Restorable;
    AfterMergesIsLast(obj, parent, server, entries);
    RemoveAfterMerge(obj, parent, server, entries[|entries| - 1]);
  }
}
