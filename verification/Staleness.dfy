/** How old a project list can be: projects_fn as a state machine with awaits between its parts. */
module Staleness {
  import opened ProjectsCache

  type Rows = seq<Fields>

  /** A database read: what it saw and when. */
  datatype Fetch = Fetch(user: string, rows: Rows, at: real)

  /** A call that missed the cache or asked for a refresh: before its read, or after it. */
  datatype Call = Waiting(user: string, since: real) | HasRows(user: string, since: real, fetch: nat) | Ended

  /** A cached list: the fetch it came from and the time it was stamped with. */
  datatype Kept = Kept(fetch: nat, rows: Rows, stamp: real)

  /** A list returned to a caller whose call began at since. */
  datatype Answer = Answer(user: string, rows: Rows, fetch: nat, stamp: real, since: real, at: real, hit: bool)

  datatype State = State(
    now: real,
    db: map<string, Rows>,
    cache: map<string, Kept>,
    calls: seq<Call>,
    fetches: seq<Fetch>,
    answers: seq<Answer>)

  datatype Event =
    | Change(user: string, rows: Rows)     // the database changes
    | Elapse(seconds: real)
    | Invalidate(user: string)
    | Ask(user: string)                    // projects_fn without refresh: answers from the cache or starts a fetch
    | Refresh(user: string)                // projects_fn with refresh
    | Read(i: nat)                         // a started call reads the database
    | Store(i: nat)                        // and then stores, stamps and returns what it read

  function InDb(s: State, user: string): Rows { if user in s.db then s.db[user] else [] }

  predicate Enabled(s: State, e: Event) {
    match e
    case Elapse(d) => d >= 0.0
    case Read(i) => i < |s.calls| && s.calls[i].Waiting?
    case Store(i) => i < |s.calls| && s.calls[i].HasRows? && s.calls[i].fetch < |s.fetches|
    case _ => true
  }

  function Next(s: State, ttl: real, e: Event): State
    requires Enabled(s, e)
  {
    match e
    case Change(u, rows) => s.(db := s.db[u := rows])
    case Elapse(d) => s.(now := s.now + d)
    case Invalidate(u) => s.(cache := s.cache - {u})
    case Ask(u) =>
      if u in s.cache && s.now - s.cache[u].stamp < ttl then
        s.(answers := s.answers + [Answer(u, s.cache[u].rows, s.cache[u].fetch, s.cache[u].stamp, s.now, s.now, true)])
      else s.(cache := s.cache - {u}, calls := s.calls + [Waiting(u, s.now)])
    case Refresh(u) => s.(calls := s.calls + [Waiting(u, s.now)])
    case Read(i) =>
      s.(fetches := s.fetches + [Fetch(s.calls[i].user, InDb(s, s.calls[i].user), s.now)],
         calls := s.calls[i := HasRows(s.calls[i].user, s.calls[i].since, |s.fetches|)])
    case Store(i) =>
      var c := s.calls[i];
      var rows := s.fetches[c.fetch].rows;
      s.(cache := s.cache[c.user := Kept(c.fetch, rows, s.now)],
         calls := s.calls[i := Ended],
         answers := s.answers + [Answer(c.user, rows, c.fetch, s.now, c.since, s.now, false)])
  }

  const INITIAL := State(0.0, map[], map[], [], [], [])

  ghost predicate IsRun(ttl: real, states: seq<State>, events: seq<Event>) {
    && |states| == |events| + 1 && states[0] == INITIAL
    && forall k | 0 <= k < |events| :: Enabled(states[k], events[k]) && states[k + 1] == Next(states[k], ttl, events[k])
  }

  // ---- invariants --------------------------------------------------------------------------------------------------

  predicate FetchedFor(s: State, fetch: nat, user: string, rows: Rows, stamp: real) {
    && fetch < |s.fetches| && s.fetches[fetch].user == user && s.fetches[fetch].rows == rows
    && s.fetches[fetch].at <= stamp <= s.now
  }

  predicate AnswerFine(s: State, ttl: real, a: Answer) {
    && FetchedFor(s, a.fetch, a.user, a.rows, a.stamp)
    && a.since <= a.at <= s.now && a.stamp <= a.at
    && (a.hit ==> a.at - a.stamp < ttl)
    && (!a.hit ==> a.stamp == a.at && a.since <= s.fetches[a.fetch].at)
  }

  predicate CallFine(s: State, c: Call) {
    match c
    case Waiting(_, since) => since <= s.now
    case HasRows(u, since, f) =>
      f < |s.fetches| && s.fetches[f].user == u && since <= s.fetches[f].at <= s.now
    case Ended => true
  }

  ghost predicate Invariant(s: State, ttl: real) {
    && (forall u | u in s.cache :: FetchedFor(s, s.cache[u].fetch, u, s.cache[u].rows, s.cache[u].stamp))
    && (forall i | 0 <= i < |s.calls| :: CallFine(s, s.calls[i]))
    && (forall i | 0 <= i < |s.answers| :: AnswerFine(s, ttl, s.answers[i]))
  }

  /** The clock only moves on and fetches are only added. */
  predicate Later(s: State, t: State) {
    s.now <= t.now && |s.fetches| <= |t.fetches| && forall i | 0 <= i < |s.fetches| :: t.fetches[i] == s.fetches[i]
  }

  lemma LaterKeeps(s: State, t: State, ttl: real)
    requires Later(s, t)
    ensures forall f: nat, u, r, x | FetchedFor(s, f, u, r, x) :: FetchedFor(t, f, u, r, x)
    ensures forall a | AnswerFine(s, ttl, a) :: AnswerFine(t, ttl, a)
    ensures forall c | CallFine(s, c) :: CallFine(t, c)
  {
  }

  lemma StepKeeps(s: State, ttl: real, e: Event)
    requires Invariant(s, ttl) && Enabled(s, e)
    ensures Invariant(Next(s, ttl, e), ttl)
  {
    var t := Next(s, ttl, e);
    LaterKeeps(s, t, ttl);
    match e
    case Ask(u) =>
      if u in s.cache && s.now - s.cache[u].stamp < ttl {
        AddAnswer(s, t, ttl);
      }
    case Store(i) =>
      assert CallFine(s, s.calls[i]);
      AddAnswer(s, t, ttl);
    case Read(i) => assert CallFine(s, s.calls[i]);
    case _ =>
  }

  lemma AddAnswer(s: State, t: State, ttl: real)
    requires Invariant(s, ttl) && Later(s, t) && |t.answers| == |s.answers| + 1
    requires t.answers[..|s.answers|] == s.answers && AnswerFine(t, ttl, t.answers[|s.answers|])
    ensures forall i | 0 <= i < |t.answers| :: AnswerFine(t, ttl, t.answers[i])
  {
    LaterKeeps(s, t, ttl);
    hide AnswerFine;
    forall i | 0 <= i < |t.answers| ensures AnswerFine(t, ttl, t.answers[i]) {
      if i < |s.answers| { assert t.answers[i] == t.answers[..|s.answers|][i] == s.answers[i]; }
    }
  }

  lemma {:induction false} RunKeeps(ttl: real, states: seq<State>, events: seq<Event>, k: nat)
    requires IsRun(ttl, states, events) && k <= |events|
    ensures Invariant(states[k], ttl)
  {
    hide Next, Invariant;
    if k == 0 {
      StartFine(ttl);
    } else {
      RunKeeps(ttl, states, events, k - 1);
      StepKeeps(states[k - 1], ttl, events[k - 1]);
    }
  }

  lemma StartFine(ttl: real)
    ensures Invariant(INITIAL, ttl)
  {
  }

  // ---- bounded staleness -------------------------------------------------------------------------------------------

  lemma FetchIsNew(s: State, ttl: real, e: Event, f: nat)
    requires Enabled(s, e) && f < |Next(s, ttl, e).fetches|
    ensures f < |s.fetches| ==> Next(s, ttl, e).fetches[f] == s.fetches[f]
    ensures f >= |s.fetches| ==>
              Next(s, ttl, e).fetches[f].rows == InDb(s, Next(s, ttl, e).fetches[f].user) && Next(s, ttl, e).fetches[f].at == s.now
  {
  }

  /** Every fetch on record saw the database as it was in some earlier state of the run. */
  lemma {:induction false} FetchSawDatabase(ttl: real, states: seq<State>, events: seq<Event>, k: nat, f: nat)
    returns (j: nat)
    requires IsRun(ttl, states, events) && k <= |events| && f < |states[k].fetches|
    ensures j < |states| && j <= k && states[j].now == states[k].fetches[f].at
    ensures InDb(states[j], states[k].fetches[f].user) == states[k].fetches[f].rows
  {
    FetchIsNew(states[k - 1], ttl, events[k - 1], f);
    if f < |states[k - 1].fetches| {
      j := FetchSawDatabase(ttl, states, events, k - 1, f);
    } else {
      j := k - 1;
    }
  }

  /**
   Every list returned in a run is what the database held for that user in an earlier state, read by a fetch that
   was stamped less than the TTL before the list was returned; a call that was not answered from the cache
   returns what was read after it began.
   */
  lemma BoundedStaleness(ttl: real, states: seq<State>, events: seq<Event>, k: nat, i: nat) returns (j: nat)
    requires IsRun(ttl, states, events) && k <= |events| && i < |states[k].answers|
    ensures j <= k && j < |states|
    ensures var a := states[k].answers[i];
            && a.rows == InDb(states[j], a.user)
            && states[j].now <= a.stamp <= a.at
            && (a.hit ==> a.at - a.stamp < ttl)
            && (!a.hit ==> a.stamp == a.at && a.since <= states[j].now)
  {
    hide Next, InDb;
    RunKeeps(ttl, states, events, k);
    var a := states[k].answers[i];
    assert AnswerFine(states[k], ttl, a);
    j := FetchSawDatabase(ttl, states, events, k, a.fetch);
  }
}
