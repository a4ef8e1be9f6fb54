/**
 One-time install codes. Redis executes each command atomically; the consumers' coroutines interleave between
 commands, a GETDEL may fail before or after the server acted on it, and time passes.
 */
module Pairing {
  import opened Text

  const TTL := 600

  /** A stored key: its payload and the time at which Redis drops it. */
  datatype Stored = Stored(payload: string, expires: nat)

  /** Where a consume call stands. */
  datatype Consumer =
    | Started(code: string)               // about to try GETDEL, if the client has it
    | FallingBack(code: string)           // about to run the GET + DEL transaction
    | Finished(code: string, result: Option<string>)

  /** What has happened to a code since it was created: a history kept only to state properties. */
  datatype Issue = Issue(payload: string, created: nat)

  datatype State = State(
    now: nat,
    redis: map<string, Stored>,
    consumers: seq<Consumer>,
    issued: map<string, Issue>,
    yielded: seq<Yield>)

  /** A payload handed to a consumer. */
  datatype Yield = Yield(consumer: nat, code: string, payload: string, at: nat)

  datatype Event =
    | Create(code: string, payload: string)
    | Consume(code: string)
    | GetDel(i: nat)                      // the call succeeds
    | GetDelFailsBefore(i: nat)           // it raises and the server never saw it, or the client lacks it
    | GetDelFailsAfter(i: nat)            // the server deleted the key but the reply was lost
    | Transaction(i: nat)                 // the fallback's MULTI/EXEC
    | TransactionFails(i: nat, applied: bool)
    | Tick(seconds: nat)

  // ---- Redis ---------------------------------------------------------------------------------------------------

  function Lookup(s: State, key: string): Option<string> {
    if key in s.redis && s.now < s.redis[key].expires then Some(s.redis[key].payload) else None
  }

  function Without(redis: map<string, Stored>, key: string): map<string, Stored> { redis - {key} }

  // ---- steps ---------------------------------------------------------------------------------------------------

  /** Consumer i ends with what Redis returned. */
  ghost function Yielding(s: State, i: nat, code: string): State
    requires i < |s.consumers|
  {
    var r := Lookup(s, code);
    s.(redis := Without(s.redis, code),
       consumers := s.consumers[i := Finished(code, r)],
       yielded := match r case Some(p) => s.yielded + [Yield(i, code, p, s.now)] case None => s.yielded)
  }

  /** Whether an event can happen: codes are fresh (128 random bits), and a consumer is where the event says. */
  ghost predicate Enabled(s: State, e: Event) {
    match e
    case Create(code, _) => code !in s.issued
    case Consume(code) => code != ""
    case GetDel(i) => i < |s.consumers| && s.consumers[i].Started?
    case GetDelFailsBefore(i) => i < |s.consumers| && s.consumers[i].Started?
    case GetDelFailsAfter(i) => i < |s.consumers| && s.consumers[i].Started?
    case Transaction(i) => i < |s.consumers| && s.consumers[i].FallingBack?
    case TransactionFails(i, _) => i < |s.consumers| && s.consumers[i].FallingBack?
    case Tick(_) => true
  }

  ghost function Next(s: State, e: Event): State
    requires Enabled(s, e)
  {
    match e
    case Create(code, payload) =>
      s.(redis := s.redis[code := Stored(payload, s.now + TTL)], issued := s.issued[code := Issue(payload, s.now)])
    case Consume(code) => s.(consumers := s.consumers + [Started(code)])
    case GetDel(i) => Yielding(s, i, s.consumers[i].code)
    case GetDelFailsBefore(i) => s.(consumers := s.consumers[i := FallingBack(s.consumers[i].code)])
    case GetDelFailsAfter(i) =>
      s.(redis := Without(s.redis, s.consumers[i].code), consumers := s.consumers[i := FallingBack(s.consumers[i].code)])
    case Transaction(i) => Yielding(s, i, s.consumers[i].code)
    case TransactionFails(i, applied) =>
      s.(redis := if applied then Without(s.redis, s.consumers[i].code) else s.redis,
         consumers := s.consumers[i := Finished(s.consumers[i].code, None)])
    case Tick(d) => s.(now := s.now + d)
  }

  ghost const INITIAL := State(0, map[], [], map[], [])

  /** The states of a run, the first one being the initial state. */
  ghost predicate IsRun(states: seq<State>, events: seq<Event>) {
    && |states| == |events| + 1
    && states[0] == INITIAL
    && forall k | 0 <= k < |events| :: Enabled(states[k], events[k]) && states[k + 1] == Next(states[k], events[k])
  }

  // ---- the invariant ---------------------------------------------------------------------------------------------

  ghost predicate Invariant(s: State) {
    // what Redis holds was issued, unchanged, and expires on time
    && (forall c | c in s.redis ::
          c in s.issued && s.redis[c] == Stored(s.issued[c].payload, s.issued[c].created + TTL))
    // what was handed out was issued for that code, in time, and is no longer in Redis
    && (forall k | 0 <= k < |s.yielded| ::
          var y := s.yielded[k];
          && y.code in s.issued && y.payload == s.issued[y.code].payload
          && s.issued[y.code].created <= y.at < s.issued[y.code].created + TTL
          && y.code !in s.redis
          && y.consumer < |s.consumers| && s.consumers[y.consumer] == Finished(y.code, Some(y.payload)))
    // no code was handed out twice
    && (forall j, k | 0 <= j < k < |s.yielded| :: s.yielded[j].code != s.yielded[k].code)
    // and every consumer that ended with a payload is on record
    && (forall i | 0 <= i < |s.consumers| ::
          s.consumers[i].Finished? && s.consumers[i].result.Some? ==>
            exists k :: 0 <= k < |s.yielded| && s.yielded[k].consumer == i)
    && (forall c | c in s.issued :: s.issued[c].created <= s.now)
  }

  lemma YieldingKeeps(s: State, i: nat, code: string)
    requires Invariant(s) && i < |s.consumers| && !s.consumers[i].Finished? && s.consumers[i].code == code
    ensures Invariant(Yielding(s, i, code))
  {
    var t := Yielding(s, i, code);
    match Lookup(s, code)
    case None =>
      assert t.yielded == s.yielded;
    case Some(p) =>
      var n := |s.yielded|;
      assert t.yielded[n] == Yield(i, code, p, s.now);
      assert forall k | 0 <= k < n :: t.yielded[k] == s.yielded[k] && s.yielded[k].code != code;
      forall x | 0 <= x < |t.consumers| && t.consumers[x].Finished? && t.consumers[x].result.Some?
        ensures exists k :: 0 <= k < |t.yielded| && t.yielded[k].consumer == x
      {
        if x == i {
          assert t.yielded[n].consumer == i;
        } else {
          var k :| 0 <= k < n && s.yielded[k].consumer == x;
          assert t.yielded[k].consumer == x;
        }
      }
  }

  lemma CreateKeeps(s: State, code: string, payload: string)
    requires Invariant(s) && code !in s.issued
    ensures Invariant(Next(s, Create(code, payload)))
  {
    var t := Next(s, Create(code, payload));
    assert forall k | 0 <= k < |s.yielded| :: s.yielded[k].code != code;
  }

  lemma QuietKeeps(s: State, e: Event)
    requires Invariant(s) && Enabled(s, e)
    requires e.Consume? || e.GetDelFailsBefore? || e.GetDelFailsAfter? || e.TransactionFails? || e.Tick?
    ensures Invariant(Next(s, e))
  {
    var t := Next(s, e);
    assert t.yielded == s.yielded && t.issued == s.issued;
    assert forall i | 0 <= i < |t.consumers| :: t.consumers[i].Finished? && t.consumers[i].result.Some? ==>
      i < |s.consumers| && t.consumers[i] == s.consumers[i];
  }

  lemma StepKeeps(s: State, e: Event)
    requires Invariant(s) && Enabled(s, e)
    ensures Invariant(Next(s, e))
  {
    hide Invariant;
    match e
    case Create(c, p) => CreateKeeps(s, c, p);
    case GetDel(i) => YieldingKeeps(s, i, s.consumers[i].code);
    case Transaction(i) => YieldingKeeps(s, i, s.consumers[i].code);
    case _ => QuietKeeps(s, e);
  }

  lemma {:induction false} RunKeeps(states: seq<State>, events: seq<Event>, k: nat)
    requires IsRun(states, events) && k <= |events|
    ensures Invariant(states[k])
  {
    if k > 0 {
      RunKeeps(states, events, k - 1);
      StepKeeps(states[k - 1], events[k - 1]);
    }
  }

  // ---- single use --------------------------------------------------------------------------------------------------

  ghost predicate EndedWith(s: State, i: nat, code: string, payload: string) {
    i < |s.consumers| && s.consumers[i] == Finished(code, Some(payload))
  }

  /**
   In every reachable state: a consumer that got a payload for a code got the one stored for it, and no other
   consumer of that code got anything.
   */
  lemma SingleUse(states: seq<State>, events: seq<Event>, k: nat, i: nat, j: nat, code: string, p: string, q: string)
    requires IsRun(states, events) && k <= |events|
    requires EndedWith(states[k], i, code, p) && EndedWith(states[k], j, code, q)
    ensures i == j && code in states[k].issued && p == states[k].issued[code].payload
  {
    RunKeeps(states, events, k);
    var s := states[k];
    var x :| 0 <= x < |s.yielded| && s.yielded[x].consumer == i;
    var y :| 0 <= y < |s.yielded| && s.yielded[y].consumer == j;
    assert s.yielded[x].code == code && s.yielded[y].code == code;
  }

  lemma HandedOverFrom(s: State, e: Event, i: nat, code: string, p: string)
    requires Enabled(s, e) && Invariant(s)
    requires EndedWith(Next(s, e), i, code, p) && !EndedWith(s, i, code, p)
    ensures Lookup(s, code) == Some(p)
  {
  }

  /** A payload is handed over only by a step taken less than 600 seconds after its code was created. */
  lemma NeverExpired(states: seq<State>, events: seq<Event>, k: nat, i: nat, code: string, p: string)
    requires IsRun(states, events) && k < |events|
    requires EndedWith(states[k + 1], i, code, p) && !EndedWith(states[k], i, code, p)
    ensures code in states[k].issued && p == states[k].issued[code].payload
    ensures states[k].issued[code].created <= states[k].now < states[k].issued[code].created + TTL
  {
    RunKeeps(states, events, k);
    HandedOverFrom(states[k], events[k], i, code, p);
  }

  lemma IssuedStays(s: State, e: Event, code: string)
    requires Enabled(s, e) && code in s.issued
    ensures code in Next(s, e).issued && Next(s, e).issued[code] == s.issued[code]
  {
  }

  /** Once Redis no longer has an issued code, no later state has it, so a lost reply costs the code. */
  lemma {:induction false} GoneForGood(states: seq<State>, events: seq<Event>, k: nat, n: nat, code: string)
    requires IsRun(states, events) && k <= n <= |events|
    requires code in states[k].issued && code !in states[k].redis
    ensures code in states[n].issued && code !in states[n].redis
    decreases n
  {
    if k < n {
      GoneForGood(states, events, k, n - 1, code);
      IssuedStays(states[n - 1], events[n - 1], code);
      StaysGone(states[n - 1], events[n - 1], code);
    }
  }

  lemma StaysGone(s: State, e: Event, code: string)
    requires Enabled(s, e) && code in s.issued && code !in s.redis
    ensures code !in Next(s, e).redis
  {
  }

  // ---- and use at all ----------------------------------------------------------------------------------------------

  /** The event takes code's key out of Redis, whether or not its reply arrives. */
  ghost predicate Takes(s: State, e: Event, code: string) {
    match e
    case GetDel(i) => i < |s.consumers| && s.consumers[i].code == code
    case GetDelFailsAfter(i) => i < |s.consumers| && s.consumers[i].code == code
    case Transaction(i) => i < |s.consumers| && s.consumers[i].code == code
    case TransactionFails(i, applied) => applied && i < |s.consumers| && s.consumers[i].code == code
    case _ => false
  }

  lemma StaysStored(s: State, e: Event, code: string)
    requires Enabled(s, e) && code in s.redis && code in s.issued && !Takes(s, e, code)
    ensures code in Next(s, e).redis && Next(s, e).redis[code] == s.redis[code] && code in Next(s, e).issued
  {
  }

  /** The key stays as it was created until an event takes it. */
  lemma {:induction false} StoredSince(states: seq<State>, events: seq<Event>, k: nat, n: nat, code: string, p: string)
    requires IsRun(states, events) && k < n <= |events| && events[k] == Create(code, p)
    requires forall m | k < m < n :: !Takes(states[m], events[m], code)
    ensures code in states[n].issued && code in states[n].redis && states[n].redis[code] == Stored(p, states[k].now + 600)
    decreases n
  {
    hide Takes;
    if n > k + 1 {
      StoredSince(states, events, k, n - 1, code, p);
      StaysStored(states[n - 1], events[n - 1], code);
    }
  }

  /**
   The first consumer whose call takes the key and is answered gets the payload, if less than 600 seconds have passed
   since the code was created, and otherwise nothing.
   */
  lemma FirstConsumerGets(states: seq<State>, events: seq<Event>, k: nat, n: nat, i: nat, code: string, p: string)
    requires IsRun(states, events) && k < n < |events| && events[k] == Create(code, p)
    requires forall m | k < m < n :: !Takes(states[m], events[m], code)
    requires events[n] == GetDel(i) || events[n] == Transaction(i)
    requires i < |states[n].consumers| && states[n].consumers[i].code == code
    ensures states[n + 1].consumers[i] == Finished(code, if states[n].now < states[k].now + 600 then Some(p) else None)
  {
    hide Takes;
    StoredSince(states, events, k, n, code, p);
  }
}
