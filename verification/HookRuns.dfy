/** Runs of hook installations and removals on the settings object. */
module HookRuns {
  import opened Text
  import opened Json
  import opened Configs
  import opened Hooks
  import opened HookLaws

  // ---- arrays --------------------------------------------------------------------------------------------

  lemma {:induction false} ForeignAppend(a: seq<JSON>, b: seq<JSON>)
    ensures Foreign(a + b) == Foreign(a) + Foreign(b)
  {
    hide Tagged, Foreign;
    if a == [] {
      ForeignNone();
      assert a + b == b && [] + Foreign(b) == Foreign(b);
    } else {
      var h, t := a[0], a[1..];
      ForeignAppend(t, b);
      ForeignCons(h, t);
      ForeignCons(h, t + b);
      assert a == [h] + t && a + b == [h] + (t + b);
    }
  }

  lemma {:induction false} ForeignTwice(a: seq<JSON>)
    ensures Foreign(Foreign(a)) == Foreign(a)
  {
    hide Tagged;
    if a != [] {
      var rest := Foreign(a[1..]);
      ForeignTwice(a[1..]);
      ForeignAppend([a[0]], rest);
      assert [a[0]][1..] == [] && [] + rest == rest;
    }
  }

  lemma ForeignOwn(python: string, script: string)
    ensures Foreign([Entry(HookCommand(python, script))]) == []
  {
    hide Tagged, HookCommand;
    OwnEntryTagged(python, script);
  }

  /** How many piLoci entries an array holds. */
  function Own(arr: seq<JSON>): nat { |arr| - |Foreign(arr)| }

  lemma InstalledArray(arr: seq<JSON>, python: string, script: string)
    ensures var a := Foreign(arr) + [Entry(HookCommand(python, script))];
            Foreign(a) == Foreign(arr) && Own(a) == 1
  {
    hide Entry, HookCommand;
    ForeignAppend(Foreign(arr), [Entry(HookCommand(python, script))]);
    ForeignTwice(arr);
    ForeignOwn(python, script);
  }

  // ---- events --------------------------------------------------------------------------------------------

  /** What one installation leaves under an event. */
  lemma EventAfterInstall(hooks: seq<Member>, event: string, command: string, key: string)
    ensures Get(InstallHook(hooks, event, command), key)
         == if key == event then Some(JArray(Foreign(List(Get(hooks, event))) + [Entry(command)])) else Get(hooks, key)
  {
    hide Put, Get, Foreign, Entry;
    GetAfterPut(hooks, event, JArray(Foreign(List(Get(hooks, event))) + [Entry(command)]), key);
  }

  lemma EventsDiffer()
    ensures START != STOP
  {
    assert START[1] == 'e' && STOP[1] == 't';
  }

  lemma BothEvents(hooks: seq<Member>, python: string, key: string)
    ensures Get(InstallBoth(hooks, python), key)
         == if key == START then Some(JArray(Foreign(List(Get(hooks, START))) + [Entry(HookCommand(python, "hook"))]))
            else if key == STOP then Some(JArray(Foreign(List(Get(hooks, STOP))) + [Entry(HookCommand(python, "stop-hook"))]))
            else Get(hooks, key)
  {
    hide Get, Foreign, Entry, HookCommand, InstallHook, START, STOP, List;
    EventsDiffer();
    var one := InstallHook(hooks, START, HookCommand(python, "hook"));
    EventAfterInstall(hooks, START, HookCommand(python, "hook"), key);
    EventAfterInstall(hooks, START, HookCommand(python, "hook"), STOP);
    EventAfterInstall(one, STOP, HookCommand(python, "stop-hook"), key);
  }

  /** An entry that runs the given command on every match. */
  predicate Runs(h: JSON, command: string) {
    && h.JObject? && Get(h.members, "matcher") == Some(JString("*"))
    && (match Get(h.members, "hooks")
        case Some(JArray(inner)) =>
          && |inner| == 1 && inner[0].JObject? && Get(inner[0].members, "type") == Some(JString("command"))
          && Get(inner[0].members, "command") == Some(JString(command))
        case _ => false)
  }

  lemma EntryRuns(command: string)
    ensures Runs(Entry(command), command)
  {
    var outer := Entry(command).members;
    var inner := Get(outer, "hooks");
    assert "matcher"[0] != "hooks"[0] && "type"[0] != "command"[0];
    assert outer[1..][0] == outer[1];
    assert IndexOf(outer, "matcher") == 0 && IndexOf(outer, "hooks") == 1;
    var m := [Member("type", JString("command")), Member("command", JString(command))];
    assert m[1..][0] == m[1];
    assert IndexOf(m, "type") == 0 && IndexOf(m, "command") == 1;
  }

  lemma CommandText(python: string, script: string)
    ensures HookCommand(python, script) == python + " ~/.config/piloci/" + script + ".py 2>/dev/null || true"
  {
    assert " " + TAG == " ~/.config/piloci/";
    assert python + (" " + (TAG + (script + SCRIPT_END))) == python + (" " + TAG) + script + SCRIPT_END;
  }

  lemma OneEvent(arr: seq<JSON>, python: string, script: string)
    ensures var after := Foreign(arr) + [Entry(HookCommand(python, script))];
            Runs(after[|after| - 1], python + " ~/.config/piloci/" + script + ".py 2>/dev/null || true")
  {
    hide Foreign, Entry, HookCommand, Runs;
    EntryRuns(HookCommand(python, script));
    CommandText(python, script);
  }

  /** What the last entry of each event runs after an installation. */
  lemma InstalledCommands(hooks: seq<Member>, python: string)
    ensures var start, stop := List(Get(InstallBoth(hooks, python), "SessionStart")), List(Get(InstallBoth(hooks, python), "Stop"));
            && start != [] && Runs(start[|start| - 1], python + " ~/.config/piloci/" + "hook" + ".py 2>/dev/null || true")
            && stop != [] && Runs(stop[|stop| - 1], python + " ~/.config/piloci/" + "stop-hook" + ".py 2>/dev/null || true")
  {
    hide Get, Foreign, Entry, HookCommand, InstallHook, Runs, InstallBoth;
    EventsDiffer();
    BothEvents(hooks, python, START);
    BothEvents(hooks, python, STOP);
    OneEvent(List(Get(hooks, START)), python, "hook");
    OneEvent(List(Get(hooks, STOP)), python, "stop-hook");
  }

  lemma PutCommute(ms: seq<Member>, k: string, v: JSON, j: string, w: JSON)
    requires HasKey(ms, k) && j != k
    ensures Put(Put(ms, j, w), k, v) == Put(Put(ms, k, v), j, w)
  {
    hide IndexOf;
    IndexAfterPut(ms, j, w, k);
    IndexAfterPut(ms, k, v, j);
  }

  lemma InstallHookTwice(hooks: seq<Member>, event: string, python: string, script: string, python': string)
    ensures InstallHook(InstallHook(hooks, event, HookCommand(python, script)), event, HookCommand(python', script))
         == InstallHook(hooks, event, HookCommand(python', script))
  {
    hide Put, Get, Foreign, Entry, HookCommand;
    var arr := List(Get(hooks, event));
    EventAfterInstall(hooks, event, HookCommand(python, script), event);
    InstalledArray(arr, python, script);
    PutTwice(hooks, event, JArray(Foreign(arr) + [Entry(HookCommand(python, script))]),
             JArray(Foreign(arr) + [Entry(HookCommand(python', script))]));
  }

  lemma InstallHookCommute(hooks: seq<Member>, e: string, c: string, f: string, d: string)
    requires HasKey(hooks, e) && e != f
    ensures InstallHook(InstallHook(hooks, f, d), e, c) == InstallHook(InstallHook(hooks, e, c), f, d)
  {
    hide Put, Get, Foreign, Entry, HasKey;
    EventAfterInstall(hooks, f, d, e);
    EventAfterInstall(hooks, e, c, f);
    PutCommute(hooks, e, JArray(Foreign(List(Get(hooks, e))) + [Entry(c)]),
               f, JArray(Foreign(List(Get(hooks, f))) + [Entry(d)]));
  }

  lemma InstallBothTwice(hooks: seq<Member>, python: string, python': string)
    ensures InstallBoth(InstallBoth(hooks, python), python') == InstallBoth(hooks, python')
  {
    hide Get, InstallHook, HookCommand, HasKey, START, STOP;
    EventsDiffer();
    var s, t, s', t' := HookCommand(python, "hook"), HookCommand(python, "stop-hook"),
                        HookCommand(python', "hook"), HookCommand(python', "stop-hook");
    var one := InstallHook(hooks, START, s);
    EventAfterInstall(hooks, START, s, START);
    HasKeyIsGet(one, START);
    InstallHookCommute(one, START, s', STOP, t);
    InstallHookTwice(hooks, START, python, "hook", python');
    InstallHookTwice(InstallHook(hooks, START, s'), STOP, python, "stop-hook", python');
  }

  // ---- the settings object ----------------------------------------------------------------------------------

  lemma BucketInstalled(obj: seq<Member>, python: string, key: string)
    ensures Bucket(InstallHooks(obj, python), "hooks") == InstallBoth(Bucket(obj, "hooks"), python)
    ensures Get(InstallHooks(obj, python), "hooks") == Some(JObject(InstallBoth(Bucket(obj, "hooks"), python)))
    ensures key != "hooks" ==> Get(InstallHooks(obj, python), key) == Get(obj, key)
  {
    hide Put, Get, InstallBoth;
    var v := JObject(InstallBoth(Bucket(obj, "hooks"), python));
    GetAfterPut(obj, "hooks", v, "hooks");
    GetAfterPut(obj, "hooks", v, key);
  }

  /** Installing again, with any launcher, is installing that way on the original. */
  lemma InstallHooksTwice(obj: seq<Member>, python: string, python': string)
    ensures InstallHooks(InstallHooks(obj, python), python') == InstallHooks(obj, python')
  {
    hide Put, Get, InstallBoth, Bucket;
    BucketInstalled(obj, python, "");
    InstallBothTwice(Bucket(obj, "hooks"), python, python');
    PutTwice(obj, "hooks", JObject(InstallBoth(Bucket(obj, "hooks"), python)),
             JObject(InstallBoth(Bucket(obj, "hooks"), python')));
  }

  // ---- removing the hooks again -------------------------------------------------------------------------------

  lemma {:induction false} CleanAppend(a: seq<Member>, b: seq<Member>)
    ensures CleanEvents(a + b) == CleanEvents(a) + CleanEvents(b)
  {
    hide CleanEvent;
    if a == [] {
      assert a + b == b;
    } else {
      CleanAppend(a[1..], b);
      assert (a + b)[1..] == a[1..] + b;
    }
  }

  lemma CleanOne(m: Member)
    ensures CleanEvents([m]) == CleanEvent(m)
  {
    hide CleanEvent;
    assert CleanEvents([m][1..]) == [];
  }

  /** The dict with an event's array reduced to the user's entries, or without it when there are none. */
  function Reset(hooks: seq<Member>, event: string): seq<Member> {
    var kept := Foreign(List(Get(hooks, event)));
    if kept == [] then Pop(hooks, event) else Put(hooks, event, JArray(kept))
  }

  lemma CleanInstalledEvent(event: string, arr: seq<JSON>, python: string, script: string)
    ensures var m := Member(event, JArray(Foreign(arr) + [Entry(HookCommand(python, script))]));
            && EventChanges(m)
            && CleanEvent(m) == if Foreign(arr) == [] then [] else CleanEvent(Member(event, JArray(Foreign(arr))))
  {
    hide Entry, HookCommand, Foreign;
    InstalledArray(arr, python, script);
    ForeignTwice(arr);
  }

  /** Cleaning after an installation is cleaning the dict with that event reset. */
  lemma CleanAfterInstall(hooks: seq<Member>, event: string, python: string, script: string)
    ensures CleanEvents(InstallHook(hooks, event, HookCommand(python, script))) == CleanEvents(Reset(hooks, event))
    ensures AnyChanges(InstallHook(hooks, event, HookCommand(python, script)))
  {
    hide Entry, HookCommand, Foreign, CleanEvent, EventChanges, CleanEvents, IndexOf;
    var arr := List(Get(hooks, event));
    var m := Member(event, JArray(Foreign(arr) + [Entry(HookCommand(python, script))]));
    var kept := if Foreign(arr) == [] then [] else [Member(event, JArray(Foreign(arr)))];
    CleanInstalledEvent(event, arr, python, script);
    CleanOne(m);
    CleanOne(Member(event, JArray(Foreign(arr))));
    CleanNone();
    var i := IndexOf(hooks, event);
    var a, b := hooks[..i], if i < |hooks| then hooks[i + 1..] else [];
    var installed := InstallHook(hooks, event, HookCommand(python, script));
    assert installed == a + [m] + b;
    assert installed[i] == m;
    assert Reset(hooks, event) == a + kept + b;
    CleanAppend(a + [m], b);
    CleanAppend(a, [m]);
    CleanAppend(a + kept, b);
    CleanAppend(a, kept);
  }

  lemma CleanNone()
    ensures CleanEvents([]) == []
  {
  }

  /** An event an installation and a removal leave as it was: absent, or an array of user entries. */
  predicate EventRestorable(hooks: seq<Member>, event: string) {
    match Get(hooks, event)
    case None => true
    case Some(JArray(arr)) => arr != []
    case _ => false
  }

  predicate HooksRestorable(obj: seq<Member>) {
    match Get(obj, "hooks")
    case None => true
    case Some(JObject(hooks)) =>
      hooks != [] && !AnyChanges(hooks) && EventRestorable(hooks, START) && EventRestorable(hooks, STOP)
    case _ => false
  }

  lemma NoChangeAt(hooks: seq<Member>, event: string)
    requires !AnyChanges(hooks)
    ensures Foreign(List(Get(hooks, event))) == List(Get(hooks, event))
  {
    hide Foreign;
    var i := IndexOf(hooks, event);
    if i < |hooks| {
      assert !EventChanges(hooks[i]);
      if hooks[i].value.JArray? { ForeignSame(hooks[i].value.items); }
    } else {
      ForeignSame([]);
    }
  }

  lemma {:induction false} ForeignSame(arr: seq<JSON>)
    ensures |Foreign(arr)| == |arr| <==> Foreign(arr) == arr
    ensures arr == [] ==> Foreign(arr) == []
  {
    hide Tagged;
    if arr != [] {
      ForeignSame(arr[1..]);
    }
  }

  lemma {:induction false} CleanUnchanged(hooks: seq<Member>)
    requires forall i | 0 <= i < |hooks| :: !EventChanges(hooks[i])
    ensures CleanEvents(hooks) == hooks
  {
    hide Foreign;
    if hooks != [] {
      CleanUnchanged(hooks[1..]);
    }
  }

  lemma ResetSame(hooks: seq<Member>, event: string)
    requires !AnyChanges(hooks) && EventRestorable(hooks, event)
    ensures Reset(hooks, event) == hooks
  {
    hide Put, Foreign, AnyChanges;
    NoChangeAt(hooks, event);
    match Get(hooks, event)
    case None =>
    case Some(v) => PutSame(hooks, event, v);
  }

  lemma ResetUntouched(hooks: seq<Member>, event: string, value: Option<JSON>)
    requires Get(hooks, event) == value
    requires value == None || (value.value.JArray? && value.value.items != [] && Foreign(value.value.items) == value.value.items)
    ensures Reset(hooks, event) == hooks
  {
    hide Put, Foreign;
    match value
    case None => ForeignSame([]);
    case Some(v) => PutSame(hooks, event, v);
  }

  /** On a dict without piLoci entries whose two events are restorable, removal undoes installation. */
  lemma CleanBoth(hooks: seq<Member>, python: string)
    requires !AnyChanges(hooks) && EventRestorable(hooks, START) && EventRestorable(hooks, STOP)
    ensures CleanEvents(InstallBoth(hooks, python)) == hooks && AnyChanges(InstallBoth(hooks, python))
  {
    hide Get, Foreign, HookCommand, InstallHook, CleanEvents, Reset, START, STOP, EventChanges;
    EventsDiffer();
    var c := HookCommand(python, "hook");
    var one := InstallHook(hooks, START, c);
    CleanAfterInstall(hooks, START, python, "hook");
    CleanAfterInstall(one, STOP, python, "stop-hook");
    EventAfterInstall(hooks, START, c, STOP);
    NoChangeAt(hooks, STOP);
    ResetUntouched(one, STOP, Get(hooks, STOP));
    ResetSame(hooks, START);
    CleanUnchanged(hooks);
  }

  lemma {:induction false} CleanedHasNoChanges(hooks: seq<Member>)
    ensures forall i | 0 <= i < |CleanEvents(hooks)| :: !EventChanges(CleanEvents(hooks)[i])
  {
    hide Foreign;
    if hooks != [] {
      CleanedHasNoChanges(hooks[1..]);
      if hooks[0].value.JArray? { ForeignTwice(hooks[0].value.items); }
    }
  }

  lemma CleanKeepsKeys(m: Member)
    ensures |CleanEvent(m)| <= 1 && forall x | x in CleanEvent(m) :: x.key == m.key
  {
    hide Foreign;
  }

  lemma GetCons(m: Member, rest: seq<Member>, key: string)
    ensures Get([m] + rest, key) == if m.key == key then Some(m.value) else Get(rest, key)
  {
    assert ([m] + rest)[1..] == rest;
    var i := IndexOf(rest, key);
    if m.key != key && i < |rest| { assert ([m] + rest)[i + 1] == rest[i]; }
  }

  /** What cleaning leaves under an event. */
  lemma {:induction false} GetCleaned(hooks: seq<Member>, event: string, v: JSON)
    requires DistinctKeys(hooks) && Get(hooks, event) == Some(v)
    ensures Get(CleanEvents(hooks), event) == List1(CleanEvent(Member(event, v)))
  {
    hide CleanEvent, Get, IndexOf;
    if hooks == [] {
      HasKeyIsGet(hooks, event);
    } else {
      var m, rest := hooks[0], hooks[1..];
      assert hooks == [m] + rest;
      GetCons(m, rest, event);
      CleanKeepsKeys(m);
      if m.key == event {
        NotCleaned(rest, event);
        if CleanEvent(m) == [] {
          assert [] + CleanEvents(rest) == CleanEvents(rest);
        } else {
          assert CleanEvent(m) == [CleanEvent(m)[0]];
          GetCons(CleanEvent(m)[0], CleanEvents(rest), event);
        }
      } else {
        GetCleaned(rest, event, v);
        if CleanEvent(m) == [] {
          assert [] + CleanEvents(rest) == CleanEvents(rest);
        } else {
          assert CleanEvent(m) == [CleanEvent(m)[0]];
          GetCons(CleanEvent(m)[0], CleanEvents(rest), event);
        }
      }
    }
  }

  function List1(ms: seq<Member>): Option<JSON> { if ms == [] then None else Some(ms[0].value) }

  lemma {:induction false} NotCleaned(hooks: seq<Member>, event: string)
    requires forall i | 0 <= i < |hooks| :: hooks[i].key != event
    ensures Get(CleanEvents(hooks), event) == None
  {
    hide CleanEvent, Get;
    if hooks == [] {
      HasKeyIsGet([], event);
    } else {
      NotCleaned(hooks[1..], event);
      CleanKeepsKeys(hooks[0]);
      if CleanEvent(hooks[0]) == [] {
        assert [] + CleanEvents(hooks[1..]) == CleanEvents(hooks[1..]);
      } else {
        assert CleanEvent(hooks[0]) == [CleanEvent(hooks[0])[0]];
        GetCons(CleanEvent(hooks[0])[0], CleanEvents(hooks[1..]), event);
      }
    }
  }

  lemma BothDistinct(hooks: seq<Member>, python: string)
    requires DistinctKeys(hooks)
    ensures DistinctKeys(InstallBoth(hooks, python))
  {
    hide Get, Put, HookCommand, Entry, Foreign, DistinctKeys;
    var one := InstallHook(hooks, START, HookCommand(python, "hook"));
    PutKeepsDistinct(hooks, START, JArray(Foreign(List(Get(hooks, START))) + [Entry(HookCommand(python, "hook"))]));
    PutKeepsDistinct(one, STOP, JArray(Foreign(List(Get(one, STOP))) + [Entry(HookCommand(python, "stop-hook"))]));
  }

  lemma RemovedValue(obj: seq<Member>, python: string)
    requires DistinctKeys(obj)
    ensures var f := InstallBoth(Bucket(obj, "hooks"), python);
            && AnyChanges(f)
            && RemoveHooks(InstallHooks(obj, python)).Some?
            && Get(RemoveHooks(InstallHooks(obj, python)).value, "hooks")
               == if CleanEvents(f) == [] then None else Some(JObject(CleanEvents(f)))
  {
    hide Get, Put, Pop, InstallBoth, CleanEvents, AnyChanges, Bucket;
    var hooks := Bucket(obj, "hooks");
    var f := InstallBoth(hooks, python);
    var m := InstallHooks(obj, python);
    BothChange(hooks, python);
    BucketInstalled(obj, python, "");
    PutKeepsDistinct(obj, "hooks", JObject(f));
    GetAfterPop(m, "hooks", "hooks");
    GetAfterPut(m, "hooks", JObject(CleanEvents(f)), "hooks");
  }

  lemma BothChange(hooks: seq<Member>, python: string)
    ensures AnyChanges(InstallBoth(hooks, python))
  {
    hide HookCommand, InstallHook, AnyChanges;
    CleanAfterInstall(InstallHook(hooks, START, HookCommand(python, "hook")), STOP, python, "stop-hook");
  }

  lemma Undone(obj: seq<Member>, python: string)
    requires DistinctKeys(obj) && HooksRestorable(obj)
    ensures RemoveHooks(InstallHooks(obj, python)) == Some(obj)
  {
    hide Get, Put, Pop, InstallBoth, CleanEvents, AnyChanges, EventRestorable;
    var hooks := Bucket(obj, "hooks");
    var f := InstallBoth(hooks, python);
    BucketInstalled(obj, python, "");
    EmptyRestorable();
    CleanBoth(hooks, python);
    match Get(obj, "hooks")
    case None =>
      HasKeyIsGet(obj, "hooks");
      PopAfterPut(obj, "hooks", JObject(f));
    case Some(v) =>
      PutTwice(obj, "hooks", JObject(f), JObject(hooks));
      PutSame(obj, "hooks", JObject(hooks));
  }

  lemma EmptyRestorable()
    ensures !AnyChanges([]) && EventRestorable([], START) && EventRestorable([], STOP)
  {
  }

  lemma CleanedQuiet(hooks: seq<Member>)
    ensures !AnyChanges(CleanEvents(hooks))
  {
    hide EventChanges, CleanEvents;
    CleanedHasNoChanges(hooks);
  }

  // ---- whole installations: the clean-up, then the merge ----------------------------------------------------------

  /** The settings object after the clean-up that comes before every installation. */
  function SweptHooks(obj: seq<Member>): seq<Member> { match RemoveHooks(obj) case Some(x) => x case None => obj }

  function AfterHookInstalls(obj: seq<Member>, pythons: seq<string>): seq<Member>
    decreases |pythons|
  {
    if pythons == [] then obj
    else InstallHooks(SweptHooks(AfterHookInstalls(obj, pythons[..|pythons| - 1])), pythons[|pythons| - 1])
  }

  /** What the clean-up leaves under an event: an array loses piLoci's entries, and goes if it held nothing else. */
  function Kept(v: Option<JSON>): Option<JSON> {
    match v
    case Some(JArray(arr)) => if arr != [] && Foreign(arr) == [] then None else Some(JArray(Foreign(arr)))
    case _ => v
  }

  lemma KeptTwice(v: Option<JSON>)
    ensures Kept(Kept(v)) == Kept(v) && Foreign(List(Kept(v))) == Foreign(List(v))
  {
    hide Foreign;
    ForeignSame([]);
    match v
    case Some(JArray(arr)) => ForeignTwice(arr);
    case _ =>
  }

  lemma KeptIsCleaned(event: string, v: JSON)
    ensures List1(CleanEvent(Member(event, v))) == Kept(Some(v))
  {
    hide Foreign;
    if v.JArray? { ForeignSame(v.items); }
  }

  lemma CleanedDistinct(hooks: seq<Member>)
    requires DistinctKeys(hooks)
    ensures DistinctKeys(CleanEvents(hooks))
    ensures forall m | m in CleanEvents(hooks) :: exists h | h in hooks :: h.key == m.key
  {
    hide CleanEvent;
    if hooks != [] {
      CleanedDistinct(hooks[1..]);
      CleanKeepsKeys(hooks[0]);
      assert forall h | h in hooks[1..] :: h.key != hooks[0].key;
    }
  }

  lemma EventCleaned(hooks: seq<Member>, event: string)
    requires DistinctKeys(hooks)
    ensures Get(CleanEvents(hooks), event) == Kept(Get(hooks, event))
  {
    hide CleanEvents, CleanEvent, IndexOf, Kept;
    match Get(hooks, event)
    case Some(v) =>
      GetCleaned(hooks, event, v);
      KeptIsCleaned(event, v);
    case None =>
      HasKeyIsGet(hooks, event);
      AbsentKey(hooks, event);
      NotCleaned(hooks, event);
      KeptNone();
  }

  lemma KeptNone()
    ensures Kept(None) == None && CleanEvents([]) == []
  {
  }

  lemma AbsentKey(ms: seq<Member>, k: string)
    requires Get(ms, k) == None
    ensures forall i | 0 <= i < |ms| :: ms[i].key != k
  {
  }

  /** One clean-up: every event, and every other key. */
  lemma SweepEvent(obj: seq<Member>, key: string, event: string)
    requires DistinctKeys(obj) && DistinctKeys(Bucket(obj, "hooks"))
    ensures var x := SweptHooks(obj);
            && Get(Bucket(x, "hooks"), event) == Kept(Get(Bucket(obj, "hooks"), event))
            && (key != "hooks" ==> Get(x, key) == Get(obj, key))
            && DistinctKeys(x) && DistinctKeys(Bucket(x, "hooks"))
  {
    hide Get, Put, Pop, CleanEvents, AnyChanges, Kept, DistinctKeys;
    var hooks := Bucket(obj, "hooks");
    KeptNone();
    NoneDistinct(event);
    EventCleaned(hooks, event);
    CleanedDistinct(hooks);
    if RemoveHooks(obj).Some? {
      var cleaned := CleanEvents(hooks);
      GetAfterPop(obj, "hooks", "hooks");
      GetAfterPop(obj, "hooks", key);
      GetAfterPut(obj, "hooks", JObject(cleaned), "hooks");
      GetAfterPut(obj, "hooks", JObject(cleaned), key);
      PutKeepsDistinct(obj, "hooks", JObject(cleaned));
    } else if !AnyChanges(hooks) {
      QuietClean(hooks);
    }
  }

  lemma NoneDistinct(event: string)
    ensures DistinctKeys([]) && Get([], event) == None && !AnyChanges([])
  {
  }

  lemma QuietClean(hooks: seq<Member>)
    requires !AnyChanges(hooks)
    ensures CleanEvents(hooks) == hooks
  {
    hide EventChanges;
    CleanUnchanged(hooks);
  }

  /**
   After any number of installations each of the two events holds exactly one piLoci entry, the last of its array,
   behind the user's entries in their order. Every other event has lost piLoci's entries, and is gone if it held
   nothing else; all other keys are as they were.
   */
  lemma {:induction false} HookArrays(obj: seq<Member>, pythons: seq<string>, key: string, event: string)
    requires pythons != [] && DistinctKeys(obj) && DistinctKeys(Bucket(obj, "hooks"))
    ensures var after := AfterHookInstalls(obj, pythons);
            var before, hooks := Bucket(obj, "hooks"), Bucket(after, "hooks");
            && DistinctKeys(after) && DistinctKeys(hooks)
            && (key != "hooks" ==> Get(after, key) == Get(obj, key))
            && (event != START && event != STOP ==> Get(hooks, event) == Kept(Get(before, event)))
            && (event == START || event == STOP ==>
                  && Get(hooks, event).Some? && Get(hooks, event).value.JArray?
                  && Foreign(List(Get(hooks, event))) == Foreign(List(Get(before, event)))
                  && Own(List(Get(hooks, event))) == 1
                  && Tagged(List(Get(hooks, event))[|List(Get(hooks, event))| - 1]))
    decreases |pythons|
  {
    hide Get, InstallBoth, Foreign, Tagged, HookCommand, Entry, InstallHooks, Bucket, Own, START, STOP, SweptHooks, Kept, List, DistinctKeys;
    var init, python := pythons[..|pythons| - 1], pythons[|pythons| - 1];
    var prior := AfterHookInstalls(obj, init);
    if init != [] { HookArrays(obj, init, key, event); } else { assert prior == obj; }
    SweepEvent(prior, key, event);
    KeptTwice(Get(Bucket(obj, "hooks"), event));
    KeptTwice(Get(Bucket(prior, "hooks"), event));
    InstalledArrays(SweptHooks(prior), python, key, event);
  }

  lemma InstalledArrays(obj: seq<Member>, python: string, key: string, event: string)
    requires DistinctKeys(obj) && DistinctKeys(Bucket(obj, "hooks"))
    ensures var before, hooks := Bucket(obj, "hooks"), Bucket(InstallHooks(obj, python), "hooks");
            && DistinctKeys(InstallHooks(obj, python)) && DistinctKeys(hooks)
            && (key != "hooks" ==> Get(InstallHooks(obj, python), key) == Get(obj, key))
            && (event != START && event != STOP ==> Get(hooks, event) == Get(before, event))
            && (event == START || event == STOP ==>
                  && Get(hooks, event).Some? && Get(hooks, event).value.JArray?
                  && Foreign(List(Get(hooks, event))) == Foreign(List(Get(before, event)))
                  && Own(List(Get(hooks, event))) == 1
                  && Tagged(List(Get(hooks, event))[|List(Get(hooks, event))| - 1]))
  {
    hide Get, Put, InstallBoth, Foreign, Tagged, HookCommand, Entry, Bucket, Own, START, STOP, DistinctKeys;
    EventsDiffer();
    BucketInstalled(obj, python, key);
    BothDistinct(Bucket(obj, "hooks"), python);
    PutKeepsDistinct(obj, "hooks", JObject(InstallBoth(Bucket(obj, "hooks"), python)));
    BothEvents(Bucket(obj, "hooks"), python, event);
    var script := if event == START then "hook" else "stop-hook";
    InstalledArray(List(Get(Bucket(obj, "hooks"), event)), python, script);
    OwnEntryTagged(python, script);
  }

  lemma InstalledEventCleaned(hooks: seq<Member>, python: string, event: string)
    requires DistinctKeys(hooks) && (event == START || event == STOP)
    ensures EventRestorable(CleanEvents(InstallBoth(hooks, python)), event)
  {
    hide Get, HookCommand, Entry, CleanEvents, CleanEvent, InstallBoth, Foreign, START, STOP, Kept;
    EventsDiffer();
    var script := if event == START then "hook" else "stop-hook";
    var arr := Foreign(List(Get(hooks, event))) + [Entry(HookCommand(python, script))];
    BothEvents(hooks, python, event);
    BothDistinct(hooks, python);
    EventCleaned(InstallBoth(hooks, python), event);
    KeptNonEmpty(arr);
  }

  lemma KeptNonEmpty(arr: seq<JSON>)
    requires arr != []
    ensures match Kept(Some(JArray(arr))) case None => true case Some(JArray(kept)) => kept != [] case _ => false
  {
    hide Foreign;
  }

  /** Whatever the object was, removing an installation leaves one on which installing and removing undo each other. */
  lemma RemovedIsRestorable(obj: seq<Member>, python: string)
    requires DistinctKeys(obj) && DistinctKeys(Bucket(obj, "hooks"))
    ensures RemoveHooks(InstallHooks(obj, python)).Some? && HooksRestorable(RemoveHooks(InstallHooks(obj, python)).value)
  {
    hide Get, InstallBoth, CleanEvents, AnyChanges, EventRestorable, InstallHooks, RemoveHooks, Bucket, START, STOP;
    var hooks := Bucket(obj, "hooks");
    RemovedValue(obj, python);
    CleanedQuiet(InstallBoth(hooks, python));
    InstalledEventCleaned(hooks, python, START);
    InstalledEventCleaned(hooks, python, STOP);
  }

  /**
   Any number of installations, then the clean-up: the settings object comes back exactly when it had no hooks, or a
   non-empty dict of them without piLoci entries whose two events are absent or non-empty arrays.
   */
  lemma {:induction false} HooksUndone(obj: seq<Member>, pythons: seq<string>)
    requires pythons != [] && DistinctKeys(obj) && DistinctKeys(Bucket(obj, "hooks"))
    ensures RemoveHooks(AfterHookInstalls(obj, pythons)) == Some(obj) <==> HooksRestorable(obj)
  {
    hide HooksRestorable, RemoveHooks, InstallHooks, Bucket, AfterHookInstalls, DistinctKeys;
    var init, python := pythons[..|pythons| - 1], pythons[|pythons| - 1];
    LastHookInstall(obj, pythons);
    DistinctAfter(obj, init);
    var found := SweptHooks(AfterHookInstalls(obj, init));
    RemovedIsRestorable(found, python);
    if HooksRestorable(obj) {
      FoundAgain(obj, init);
      Undone(obj, python);
    }
  }

  lemma LastHookInstall(obj: seq<Member>, pythons: seq<string>)
    requires pythons != []
    ensures AfterHookInstalls(obj, pythons) ==
            InstallHooks(SweptHooks(AfterHookInstalls(obj, pythons[..|pythons| - 1])), pythons[|pythons| - 1])
  {
    hide InstallHooks, SweptHooks;
  }

  lemma DistinctAfter(obj: seq<Member>, pythons: seq<string>)
    requires DistinctKeys(obj) && DistinctKeys(Bucket(obj, "hooks"))
    ensures var x := SweptHooks(AfterHookInstalls(obj, pythons)); DistinctKeys(x) && DistinctKeys(Bucket(x, "hooks"))
  {
    hide SweptHooks, InstallHooks, Bucket, DistinctKeys, Kept, Foreign, List, Own, Get;
    if pythons != [] { HookArrays(obj, pythons, "", ""); } else { assert AfterHookInstalls(obj, []) == obj; }
    SweepEvent(AfterHookInstalls(obj, pythons), "", "");
  }

  lemma {:induction false} FoundAgain(obj: seq<Member>, pythons: seq<string>)
    requires DistinctKeys(obj) && HooksRestorable(obj)
    ensures SweptHooks(AfterHookInstalls(obj, pythons)) == obj
    decreases |pythons|
  {
    hide InstallHooks, DistinctKeys, AfterHookInstalls, HooksRestorable, RemoveHooks;
    if pythons == [] {
      NoHookInstalls(obj);
      RestorableQuiet(obj);
    } else {
      LastHookInstall(obj, pythons);
      FoundAgain(obj, pythons[..|pythons| - 1]);
      Undone(obj, pythons[|pythons| - 1]);
    }
  }

  lemma NoHookInstalls(obj: seq<Member>)
    ensures AfterHookInstalls(obj, []) == obj
  {
  }

  lemma RestorableQuiet(obj: seq<Member>)
    requires HooksRestorable(obj)
    ensures RemoveHooks(obj) == None
  {
    hide Get, AnyChanges;
  }
}
