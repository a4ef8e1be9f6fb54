/** The hook entries in Claude Code's settings.json. */
module Hooks {
  import opened Text
  import opened Json
  import opened JsonText
  import opened Configs

  const TAG := "~/.config/piloci/"
  const SCRIPT_END := ".py 2>/dev/null || true"

  /** Whether an array entry is one of piLoci's: its json.dumps text mentions the config directory. */
  ghost predicate IsPiloci(h: JSON) { Contains(Print(h, Spaced), TAG) }

  /** The same test, as the code runs it. */
  predicate Tagged(h: JSON): (r: bool)
    ensures r <==> IsPiloci(h)
  {
    match Find(Print(h, Spaced), TAG)
    case Some(i) => assert OccursAt(Print(h, Spaced), TAG, i); true
    case None => false
  }

  function Entry(command: string): JSON {
    JObject([Member("matcher", JString("*")),
             Member("hooks", JArray([JObject([Member("type", JString("command")), Member("command", JString(command))])]))])
  }

  /** f"{_python_cmd()} ~/.config/piloci/<script>.py 2>/dev/null || true" */
  function HookCommand(python: string, script: string): string { python + (" " + (TAG + (script + SCRIPT_END))) }

  /** The entries that are not piLoci's, in order. */
  function Foreign(arr: seq<JSON>): (r: seq<JSON>)
    ensures |r| <= |arr|
  {
    if arr == [] then [] else (if Tagged(arr[0]) then [] else [arr[0]]) + Foreign(arr[1..])
  }

  function List(v: Option<JSON>): seq<JSON> {
    match v
    case Some(JArray(items)) => items
    case _ => []
  }

  function InstallHook(hooks: seq<Member>, event: string, command: string): seq<Member> {
    Put(hooks, event, JArray(Foreign(List(Get(hooks, event))) + [Entry(command)]))
  }

  const START := "SessionStart"
  const STOP := "Stop"

  function InstallBoth(hooks: seq<Member>, python: string): seq<Member> {
    InstallHook(InstallHook(hooks, START, HookCommand(python, "hook")), STOP, HookCommand(python, "stop-hook"))
  }

  /** The settings object _merge_claude_settings writes. */
  function InstallHooks(obj: seq<Member>, python: string): seq<Member> {
    Put(obj, "hooks", JObject(InstallBoth(Bucket(obj, "hooks"), python)))
  }

  // ---- removal -----------------------------------------------------------------------------------------------

  /** What the clean-up loop makes of one event: unchanged, filtered, or dropped when nothing is left. */
  function CleanEvent(m: Member): seq<Member> {
    match m.value
    case JArray(arr) =>
      if |Foreign(arr)| == |arr| then [m] else if Foreign(arr) == [] then [] else [Member(m.key, JArray(Foreign(arr)))]
    case _ => [m]
  }

  function CleanEvents(hooks: seq<Member>): seq<Member> {
    if hooks == [] then [] else CleanEvent(hooks[0]) + CleanEvents(hooks[1..])
  }

  predicate EventChanges(m: Member) { m.value.JArray? && |Foreign(m.value.items)| != |m.value.items| }

  predicate AnyChanges(hooks: seq<Member>) { exists i | 0 <= i < |hooks| :: EventChanges(hooks[i]) }

  /** The cleaned settings object, or None when the file is not written. */
  function RemoveHooks(obj: seq<Member>): Option<seq<Member>> {
    match Get(obj, "hooks")
    case Some(JObject(hooks)) =>
      if !AnyChanges(hooks) then None
      else if CleanEvents(hooks) == [] then Some(Pop(obj, "hooks"))
      else Some(Put(obj, "hooks", JObject(CleanEvents(hooks))))
    case _ => None
  }

  lemma ForeignCons(h: JSON, rest: seq<JSON>)
    ensures Foreign([h] + rest) == (if Tagged(h) then [] else [h]) + Foreign(rest)
  {
    hide Tagged;
    assert ([h] + rest)[1..] == rest;
  }

  lemma ForeignStep(arr: seq<JSON>, i: nat, kept: seq<JSON>)
    requires i < |arr|
    ensures kept + Foreign(arr[i..]) == (if Tagged(arr[i]) then kept else kept + [arr[i]]) + Foreign(arr[i + 1..])
  {
    hide Tagged, Foreign;
    assert arr[i..] == [arr[i]] + arr[i + 1..];
    ForeignCons(arr[i], arr[i + 1..]);
  }

  lemma ForeignNone()
    ensures Foreign([]) == []
  {
  }

  method FilterForeign(arr: seq<JSON>) returns (kept: seq<JSON>)
    ensures kept == Foreign(arr)
  {
    hide Tagged, Foreign;
    kept := [];
    assert arr[0..] == arr;
    for i := 0 to |arr|
      invariant kept + Foreign(arr[i..]) == Foreign(arr)
    {
      ForeignStep(arr, i, kept);
      if !Tagged(arr[i]) {
        kept := kept + [arr[i]];
      }
    }
    ForeignNone();
    assert arr[|arr|..] == [] && kept + [] == kept;
  }

  /** The loop of cleanup_legacy_install over the events, which edits the dict it took the items from. */
  method CleanHookEvents(items: seq<Member>) returns (hooks: seq<Member>, changed: bool)
    requires DistinctKeys(items)
    ensures hooks == CleanEvents(items) && changed == AnyChanges(items)
  {
    hide Foreign, IndexOf, Put, Pop, KeysApart, CleanEvents, CleanEvent, AnyChanges, EventChanges, DistinctKeys;
    hooks := items;
    changed := false;
    ghost var done := [];
    CleanStart(items);
    for i := 0 to |items|
      invariant hooks == done + items[i..] && done + CleanEvents(items[i..]) == CleanEvents(items)
      invariant KeysApart(done, items[i..])
      invariant changed == AnyChanges(items[..i])
    {
      var m := items[i];
      ChangesStep(items, i);
      LoopStep(items, i, done);
      EventCases(m);
      if m.value.JArray? {
        var kept := FilterForeign(m.value.items);
        if |kept| != |m.value.items| {
          changed := true;
          if kept != [] {
            hooks := Put(hooks, m.key, JArray(kept));
          } else {
            hooks := Pop(hooks, m.key);
          }
        }
      }
      done := done + CleanEvent(m);
    }
    CleanFinish(items);
    assert done + [] == done;
  }

  /** No key of done occurs in rest, nor any key of rest twice. */
  ghost predicate KeysApart(done: seq<Member>, rest: seq<Member>) {
    DistinctKeys(rest) && forall i, j | 0 <= i < |done| && 0 <= j < |rest| :: done[i].key != rest[j].key
  }

  lemma CleanStart(items: seq<Member>)
    requires DistinctKeys(items)
    ensures items[0..] == items && [] + items == items && items[..0] == []
    ensures KeysApart([], items) && [] + CleanEvents(items) == CleanEvents(items) && !AnyChanges([])
  {
  }

  lemma CleanFinish(items: seq<Member>)
    ensures items[|items|..] == [] && items[..|items|] == items && CleanEvents([]) == []
  {
  }

  lemma EventCases(m: Member)
    ensures EventChanges(m) <==> m.value.JArray? && |Foreign(m.value.items)| != |m.value.items|
    ensures CleanEvent(m) == if !EventChanges(m) then [m]
                             else if Foreign(m.value.items) == [] then []
                             else [Member(m.key, JArray(Foreign(m.value.items)))]
  {
  }

  lemma LoopStep(items: seq<Member>, i: nat, done: seq<Member>)
    requires i < |items| && KeysApart(done, items[i..])
    requires done + CleanEvents(items[i..]) == CleanEvents(items)
    ensures var m, rest, hooks := items[i], items[i + 1..], done + items[i..];
            && hooks == done + [m] + rest
            && (forall v :: Put(hooks, m.key, v) == done + [Member(m.key, v)] + rest)
            && Pop(hooks, m.key) == done + [] + rest
            && done + CleanEvent(m) + CleanEvents(rest) == CleanEvents(items)
            && KeysApart(done + CleanEvent(m), rest)
  {
    hide Foreign, IndexOf, Put, Pop, CleanEvents, CleanEvent, KeysApart;
    var m, rest := items[i], items[i + 1..];
    assert items[i..] == [m] + rest;
    CleanStep(m, rest);
    ApartFirst(done, m, rest);
    forall v ensures Put(done + items[i..], m.key, v) == done + [Member(m.key, v)] + rest {
      PutInMiddle(done, m, rest, v);
    }
    PutInMiddle(done, m, rest, JNull);
    ApartStep(done, m, rest);
  }

  lemma ApartFirst(done: seq<Member>, m: Member, rest: seq<Member>)
    requires KeysApart(done, [m] + rest)
    ensures forall j | 0 <= j < |done| :: done[j].key != m.key
  {
    assert ([m] + rest)[0] == m;
  }

  lemma ApartStep(done: seq<Member>, m: Member, rest: seq<Member>)
    requires KeysApart(done, [m] + rest)
    ensures KeysApart(done + CleanEvent(m), rest)
  {
    hide Foreign;
    var all := [m] + rest;
    assert all[0] == m && forall j | 0 <= j < |rest| :: all[j + 1] == rest[j];
    assert forall e | e in CleanEvent(m) :: e.key == m.key;
    forall x, j | 0 <= x < |done + CleanEvent(m)| && 0 <= j < |rest| ensures (done + CleanEvent(m))[x].key != rest[j].key {
      assert rest[j] == all[j + 1];
      if x >= |done| { assert (done + CleanEvent(m))[x] in CleanEvent(m); }
    }
  }

  lemma CleanStep(m: Member, rest: seq<Member>)
    ensures CleanEvents([m] + rest) == CleanEvent(m) + CleanEvents(rest)
  {
    assert ([m] + rest)[1..] == rest;
  }

  lemma ChangesStep(items: seq<Member>, i: nat)
    requires i < |items|
    ensures AnyChanges(items[..i + 1]) == (AnyChanges(items[..i]) || EventChanges(items[i]))
  {
    hide EventChanges;
    assert items[..i + 1] == items[..i] + [items[i]];
    if AnyChanges(items[..i]) {
      var j :| 0 <= j < i && EventChanges(items[..i][j]);
      assert EventChanges(items[..i + 1][j]);
    }
    if EventChanges(items[i]) { assert EventChanges(items[..i + 1][i]); }
    if AnyChanges(items[..i + 1]) {
      var j :| 0 <= j <= i && EventChanges(items[..i + 1][j]);
      if j < i { assert EventChanges(items[..i][j]); }
    }
  }

  lemma PutInMiddle(done: seq<Member>, m: Member, rest: seq<Member>, v: JSON)
    requires forall j | 0 <= j < |done| :: done[j].key != m.key
    ensures Put(done + ([m] + rest), m.key, v) == done + [Member(m.key, v)] + rest
    ensures Pop(done + ([m] + rest), m.key) == done + [] + rest
  {
    var ms := done + ([m] + rest);
    assert ms[|done|] == m && forall j | 0 <= j < |done| :: ms[j] == done[j];
    assert IndexOf(ms, m.key) == |done|;
  }
}
