/** Queueing session transcripts, each once: the loop that skips what is already stored. */
module Ingest {
  import opened Text

  const BATCH := 50
  const ID_LIMIT := 200

  /** An entry of the request; a missing field is "". */
  datatype Item = Item(sessionId: string, transcript: string)

  datatype Raw = Raw(user: string, project: string, session: string)

  datatype Reply = BadRequest | Counted(queued: nat, skipped: nat)

  /** accept: the transcript parses, has five messages or more and passes the prefilter. */
  datatype Request = Request(user: string, project: string, items: seq<Item>, accept: string -> bool)

  /** s[:n] */
  function Head(s: string, n: nat): string { if |s| <= n then s else s[..n] }

  /** Worth queueing, were it not stored already. */
  predicate Good(q: Request, item: Item) {
    Strip(item.sessionId) != "" && item.transcript != "" && q.accept(item.transcript)
  }

  /** The lookup: by the whole session id. */
  predicate Known(rows: seq<Raw>, q: Request, item: Item) { Raw(q.user, q.project, Strip(item.sessionId)) in rows }

  /** What is stored: at most 200 characters of it. */
  function Row(q: Request, item: Item): Raw { Raw(q.user, q.project, Head(Strip(item.sessionId), ID_LIMIT)) }

  function After(rows: seq<Raw>, q: Request, items: seq<Item>): seq<Raw>
    decreases |items|
  {
    if items == [] then rows
    else
      var before := After(rows, q, items[..|items| - 1]);
      var last := items[|items| - 1];
      if Good(q, last) && !Known(before, q, last) then before + [Row(q, last)] else before
  }

  function Batch(q: Request): seq<Item> { if |q.items| > BATCH then q.items[..BATCH] else q.items }

  class Sessions {
    var rows: seq<Raw>

    method IngestSessions(q: Request) returns (r: Reply)
      modifies this
      ensures q.items == [] ==> r == BadRequest && rows == old(rows)
      ensures q.items != [] ==>
                && rows == After(old(rows), q, Batch(q))
                && r.Counted? && r.queued + |old(rows)| == |rows| && r.queued + r.skipped == |Batch(q)|
    {
      hide Strip;
      if q.items == [] {
        return BadRequest;
      }
      var queued, skipped: nat := 0, 0;
      var batch := Batch(q);
      for i := 0 to |batch|
        invariant rows == After(old(rows), q, batch[..i])
        invariant queued == |rows| - |old(rows)| && queued + skipped == i
      {
        var item := batch[i];
        assert batch[..i + 1][..i] == batch[..i];
        var sessionId := Strip(item.sessionId);
        if sessionId == "" || item.transcript == "" {
          skipped := skipped + 1;
          continue;
        }
        if Raw(q.user, q.project, sessionId) in rows {
          skipped := skipped + 1;
          continue;
        }
        if !q.accept(item.transcript) {
          skipped := skipped + 1;
          continue;
        }
        rows := rows + [Raw(q.user, q.project, Head(sessionId, ID_LIMIT))];
        queued := queued + 1;
      }
      assert batch[..|batch|] == batch;
      return Counted(queued, skipped);
    }
  }

  // ---- what is stored ----------------------------------------------------------------------------------------------

  /** The first fifty entries, or all of them. */
  lemma BatchIs(q: Request)
    ensures Batch(q) <= q.items && |Batch(q)| == if |q.items| < 50 then |q.items| else 50
  {
  }

  /** An entry with an id, a transcript, and a transcript worth keeping, stored under the first 200 characters of the id. */
  ghost predicate Stores(q: Request, item: Item, r: Raw) {
    exists id :: StrippedFrom(item.sessionId, id) && id != "" && item.transcript != "" && q.accept(item.transcript)
      && r.user == q.user && r.project == q.project
      && (if |id| <= 200 then r.session == id else |r.session| == 200 && r.session <= id)
  }

  lemma StoresIs(q: Request, item: Item, r: Raw)
    ensures Stores(q, item, r) <==> Good(q, item) && r == Row(q, item)
  {
    hide Strip, StrippedFrom;
    StripMeaning(item.sessionId);
    forall id | StrippedFrom(item.sessionId, id) ensures id == Strip(item.sessionId) { StrippedOnce(item.sessionId, id); }
  }

  /** After a request the table holds what it held and exactly the rows its entries store. */
  lemma {:induction false} StoredIff(rows: seq<Raw>, q: Request, items: seq<Item>, r: Raw)
    requires forall x | x in rows :: |x.session| <= 200
    ensures r in After(rows, q, items) <==> r in rows || exists i :: 0 <= i < |items| && Stores(q, items[i], r)
    ensures forall x | x in After(rows, q, items) :: |x.session| <= 200
    decreases |items|
  {
    hide Stores, Good, Strip;
    if items != [] {
      var init, last := items[..|items| - 1], items[|items| - 1];
      StoredIff(rows, q, init, r);
      StoresIs(q, last, r);
      assert forall i | 0 <= i < |init| :: items[i] == init[i];
      if i :| 0 <= i < |items| && Stores(q, items[i], r) && i < |init| { assert Stores(q, init[i], r); }
      if i :| 0 <= i < |init| && Stores(q, init[i], r) { assert Stores(q, items[i], r); }
      if Good(q, last) && r == Row(q, last) { KnownIsStored(After(rows, q, init), q, last); }
      assert items[|items| - 1] == last;
    }
  }

  lemma KnownIsStored(rows: seq<Raw>, q: Request, item: Item)
    requires Known(rows, q, item) ==> forall x | x in rows :: |x.session| <= 200
    ensures Known(rows, q, item) ==> Row(q, item) in rows
  {
    hide Strip;
  }

  // ---- replaying a request -----------------------------------------------------------------------------------------

  /** Every stored id has been through the limit. */
  ghost predicate Stored(rows: seq<Raw>) { forall r | r in rows :: |r.session| <= ID_LIMIT }

  predicate TooLong(item: Item) { |Strip(item.sessionId)| > ID_LIMIT }

  /** The entries a replay queues again. */
  function Repeats(q: Request, items: seq<Item>): nat
    decreases |items|
  {
    if items == [] then 0
    else Repeats(q, items[..|items| - 1]) + if Good(q, items[|items| - 1]) && TooLong(items[|items| - 1]) then 1 else 0
  }

  lemma {:induction false} RowsStay(rows: seq<Raw>, q: Request, items: seq<Item>)
    requires Stored(rows)
    ensures rows <= After(rows, q, items) && Stored(After(rows, q, items))
    decreases |items|
  {
    hide Good, Known, Strip;
    if items != [] { RowsStay(rows, q, items[..|items| - 1]); }
  }

  /** Every good entry with an id within the limit is stored once the batch has been through. */
  lemma {:induction false} ShortStored(rows: seq<Raw>, q: Request, items: seq<Item>, i: nat)
    requires i < |items| && Good(q, items[i]) && !TooLong(items[i])
    ensures Known(After(rows, q, items), q, items[i])
    decreases |items|
  {
    hide Good, Strip;
    if i < |items| - 1 {
      ShortStored(rows, q, items[..|items| - 1], i);
    }
  }

  lemma LongUnknown(rows: seq<Raw>, q: Request, item: Item)
    requires Stored(rows) && TooLong(item)
    ensures !Known(rows, q, item)
  {
    hide Strip;
  }

  lemma KnownStays(rows: seq<Raw>, more: seq<Raw>, q: Request, item: Item)
    requires rows <= more && Known(rows, q, item)
    ensures Known(more, q, item)
  {
    hide Strip;
    var r := Raw(q.user, q.project, Strip(item.sessionId));
    var i :| 0 <= i < |rows| && rows[i] == r;
    assert more[i] == r;
  }

  lemma {:induction false} ReplayCounts(rows: seq<Raw>, q: Request, items: seq<Item>)
    requires Stored(rows)
    requires forall i | 0 <= i < |items| && Good(q, items[i]) && !TooLong(items[i]) :: Known(rows, q, items[i])
    ensures |After(rows, q, items)| == |rows| + Repeats(q, items)
    decreases |items|
  {
    hide Good, Known, TooLong, Stored;
    if items != [] {
      var init, last := items[..|items| - 1], items[|items| - 1];
      ReplayCounts(rows, q, init);
      RowsStay(rows, q, init);
      if TooLong(last) {
        LongUnknown(After(rows, q, init), q, last);
      } else if Good(q, last) {
        KnownStays(rows, After(rows, q, init), q, last);
      }
    }
  }

  /** Sending a batch again queues exactly its good entries whose ids are over the limit. */
  lemma Replay(rows: seq<Raw>, q: Request, items: seq<Item>)
    requires Stored(rows)
    ensures var once := After(rows, q, items); |After(once, q, items)| == |once| + Repeats(q, items)
  {
    hide Good, Known, TooLong, After, Stored;
    var once := After(rows, q, items);
    RowsStay(rows, q, items);
    forall i | 0 <= i < |items| && Good(q, items[i]) && !TooLong(items[i]) ensures Known(once, q, items[i]) {
      ShortStored(rows, q, items, i);
    }
    ReplayCounts(once, q, items);
  }

  lemma {:induction false} NoRepeats(q: Request, items: seq<Item>)
    ensures Repeats(q, items) == 0 <==> forall i | 0 <= i < |items| :: !(Good(q, items[i]) && TooLong(items[i]))
    decreases |items|
  {
    hide Good, TooLong;
    if items != [] {
      var init, last := items[..|items| - 1], items[|items| - 1];
      NoRepeats(q, init);
      assert forall i | 0 <= i < |items| :: items[i] == if i < |init| then init[i] else last;
    }
  }

  /** Sending a batch again changes nothing exactly when no good entry's id is over the limit. */
  lemma ReplayIsIdentity(rows: seq<Raw>, q: Request, items: seq<Item>)
    requires Stored(rows)
    ensures var once := After(rows, q, items);
            After(once, q, items) == once <==> forall i | 0 <= i < |items| :: !(Good(q, items[i]) && TooLong(items[i]))
  {
    hide Good, TooLong, After, Stored;
    Replay(rows, q, items);
    RowsStay(rows, q, items);
    RowsStay(After(rows, q, items), q, items);
    NoRepeats(q, items);
  }

  ghost predicate Unique(rows: seq<Raw>) { forall i, j | 0 <= i < j < |rows| :: rows[i] != rows[j] }

  /** Without over-long ids no session is stored twice. */
  lemma {:induction false} StaysUnique(rows: seq<Raw>, q: Request, items: seq<Item>)
    requires Unique(rows) && forall i | 0 <= i < |items| :: !(Good(q, items[i]) && TooLong(items[i]))
    ensures Unique(After(rows, q, items))
    decreases |items|
  {
    hide Good, Strip;
    if items != [] {
      var init, last := items[..|items| - 1], items[|items| - 1];
      assert forall i | 0 <= i < |init| :: init[i] == items[i];
      StaysUnique(rows, q, init);
    }
  }

  // ---- the smallest such request -----------------------------------------------------------------------------------

  /** An id of 201 characters. */
  function LongId(): (s: string)
    ensures |s| == 201 && forall i | 0 <= i < |s| :: s[i] == 'x'
  {
    seq(201, i => 'x')
  }

  lemma LongIdStripped()
    ensures Strip(LongId()) == LongId()
  {
    StripSame(LongId());
  }

  lemma StripSame(t: string)
    requires t != "" && !IsSpace(t[0]) && !IsSpace(t[|t| - 1])
    ensures Strip(t) == t
  {
  }

  /** One session with that id, sent twice to an empty table, is stored twice under the same key. */
  lemma StoredTwice(user: string, project: string)
    ensures var q := Request(user, project, [Item(LongId(), "t")], _ => true);
            var row := Raw(user, project, LongId()[..200]);
            After(After([], q, q.items), q, q.items) == [row, row]
  {
    hide Strip, LongId;
    LongIdStripped();
    var item := Item(LongId(), "t");
    var q := Request(user, project, [item], _ => true);
    LongIdSize();
    SingleAfter([], q, item);
    SingleAfter([Row(q, item)], q, item);
  }

  lemma LongIdSize()
    ensures |LongId()| == 201 && LongId()[..200] != LongId()
  {
  }

  lemma SingleAfter(rows: seq<Raw>, q: Request, item: Item)
    ensures After(rows, q, [item]) == if Good(q, item) && !Known(rows, q, item) then rows + [Row(q, item)] else rows
  {
    hide Good, Known, Row;
    assert [item][..0] == [];
    assert After(rows, q, []) == rows;
  }
}
