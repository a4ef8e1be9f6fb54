/** One client's config object under installation steps, removals and rereads. */
module Edits {
  import opened Text
  import opened Json
  import opened JsoncRoundTrip
  import opened Configs
  import opened Hooks
  import opened HookLaws
  import opened HookRuns
  import opened ConfigFiles
  import opened SoundObjects
  import opened Rereads

  // ---- the two kinds of object ---------------------------------------------------------------------------------------

  /** Where installing and removing gives the original object back. */
  predicate Undoable(c: Client, obj: seq<Member>) {
    if c.ClaudeSettings? then HooksRestorable(obj)
    else if c.OpenCode? then HasKey(obj, SCHEMA_KEY) && Restorable(obj, "mcp", SERVER)
    else Restorable(obj, ParentKey(c), SERVER)
  }

  /** The dict of servers a client's steps edit. */
  function ServerKey(c: Client): string { if c.OpenCode? then "mcp" else ParentKey(c) }

  ghost predicate OwnLast(arr: seq<JSON>) {
    arr != [] && var h := arr[|arr| - 1]; Tagged(h) && WellFormed(h) && Clean(h)
  }

  ghost predicate HoldsEvent(hooks: seq<Member>, event: string) {
    match Get(hooks, event)
    case Some(JArray(arr)) => OwnLast(arr)
    case _ => false
  }

  /** piLoci's parts are there, as an installation leaves them. */
  ghost predicate Holds(c: Client, obj: seq<Member>) {
    if c.ClaudeSettings? then HoldsEvent(Bucket(obj, "hooks"), START) && HoldsEvent(Bucket(obj, "hooks"), STOP)
    else HasKey(Bucket(obj, ServerKey(c)), SERVER) && (c.OpenCode? ==> HasKey(obj, SCHEMA_KEY))
  }

  lemma SchemaIsNotServers()
    ensures SCHEMA_KEY != "mcp"
  {
    assert SCHEMA_KEY[0] == '$';
  }

  lemma ServerKeysFirm(c: Client)
    ensures Firm(ServerKey(c))
  {
    hide Firm;
    OwnKeysFirm();
  }

  // ---- a step leaves piLoci's parts ------------------------------------------------------------------------------------

  lemma MergeHolds(obj: seq<Member>, parent: string, entry: JSON)
    ensures HasKey(Bucket(MergeServer(obj, parent, SERVER, entry), parent), SERVER)
  {
    hide Put, Get, Bucket, MergeServer;
    MergeKeepsOthers(obj, parent, SERVER, entry, SERVER);
    HasKeyIsGet(Bucket(MergeServer(obj, parent, SERVER, entry), parent), SERVER);
  }

  lemma HooksHold(obj: seq<Member>, python: string)
    requires StepClean(AddHooks(python))
    ensures Holds(ClaudeSettings, InstallHooks(obj, python))
  {
    hide InstallHooks, Bucket, InstallBoth, Get, Tagged, HookCommand, Entry, WellFormed, Clean, Foreign, START, STOP;
    EventsDiffer();
    BucketInstalled(obj, python, "");
    BothEvents(Bucket(obj, "hooks"), python, START);
    BothEvents(Bucket(obj, "hooks"), python, STOP);
    OwnEntryTagged(python, "hook");
    OwnEntryTagged(python, "stop-hook");
    EntryWellFormed(HookCommand(python, "hook"));
    EntryWellFormed(HookCommand(python, "stop-hook"));
  }

  lemma EditedHolds(step: Step, obj: seq<Member>)
    requires StepClean(step)
    ensures Holds(step.Target(), Edited(step, obj))
  {
    hide MergeServer, InstallHooks, Bucket, HasKey, SCHEMA, SCHEMA_KEY, SetDefault, HoldsEvent;
    match step
    case AddServer(c, e) => MergeHolds(obj, ParentKey(c), e);
    case AddHooks(python) => HooksHold(obj, python);
    case AddOpenCode(e) =>
      MergeHolds(SetDefault(obj, SCHEMA_KEY, SCHEMA), "mcp", e);
      SchemaKept(obj, e);
  }

  lemma SchemaKept(obj: seq<Member>, entry: JSON)
    ensures HasKey(MergeServer(SetDefault(obj, SCHEMA_KEY, SCHEMA), "mcp", SERVER, entry), SCHEMA_KEY)
  {
    hide Put, Get, MergeServer, HasKey, SCHEMA, SCHEMA_KEY;
    var d := SetDefault(obj, SCHEMA_KEY, SCHEMA);
    GetAfterPut(obj, SCHEMA_KEY, SCHEMA, SCHEMA_KEY);
    HasKeyIsGet(d, SCHEMA_KEY);
    SchemaIsNotServers();
    MergeKeepsOthers(d, "mcp", SERVER, entry, SCHEMA_KEY);
    HasKeyIsGet(MergeServer(d, "mcp", SERVER, entry), SCHEMA_KEY);
  }

  /** An OpenCode step: the entry is set, a schema that is there stays, and nothing else changes. */
  lemma OpenCodeWritten(obj: seq<Member>, entry: JSON, key: string)
    ensures var after := Edited(AddOpenCode(entry), obj);
            && Get(Bucket(after, "mcp"), key) == (if key == SERVER then Some(entry) else Get(Bucket(obj, "mcp"), key))
            && (key != "mcp" ==>
                  Get(after, key) == if key == "$schema" && Get(obj, key) == None then Some(JString("https://opencode.ai/config.json"))
                                     else Get(obj, key))
  {
    hide MergeServer, Get, Put, HasKey;
    var d := SetDefault(obj, SCHEMA_KEY, SCHEMA);
    SchemaIsNotServers();
    MergeKeepsOthers(d, "mcp", SERVER, entry, key);
    HasKeyIsGet(obj, SCHEMA_KEY);
    GetAfterPut(obj, SCHEMA_KEY, SCHEMA, key);
    GetAfterPut(obj, SCHEMA_KEY, SCHEMA, "mcp");
  }

  /** A later step on the same object replaces what an earlier one made of it. */
  lemma EditedTwice(first: Step, second: Step, obj: seq<Member>)
    requires first.Valid() && second.Valid() && first.Target() == second.Target() && !first.AddCodex?
    ensures Edited(second, Edited(first, obj)) == Edited(second, obj)
  {
    hide MergeServer, InstallHooks, HasKey, Put, SCHEMA, SCHEMA_KEY;
    match first
    case AddServer(c, e) => MergeTwice(obj, ParentKey(c), SERVER, e, second.entry);
    case AddHooks(p) => InstallHooksTwice(obj, p, second.python);
    case AddOpenCode(e) =>
      SchemaKept(obj, e);
      MergeTwice(SetDefault(obj, SCHEMA_KEY, SCHEMA), "mcp", SERVER, e, second.entry);
  }

  // ---- removal -----------------------------------------------------------------------------------------------------------

  lemma RemovedServer(obj: seq<Member>, parent: string)
    requires DistinctKeys(obj) && DistinctKeys(Bucket(obj, parent)) && HasKey(Bucket(obj, parent), SERVER)
    ensures RemoveServer(obj, parent, SERVER).Some? && Restorable(RemoveServer(obj, parent, SERVER).value, parent, SERVER)
    ensures forall key | key != parent && HasKey(obj, key) :: HasKey(RemoveServer(obj, parent, SERVER).value, key)
  {
    hide Put, Pop, Get, IndexOf, HasKey, DistinctKeys;
    HasKeyIsGet([], SERVER);
    NoMembersHeld();
    var b := Bucket(obj, parent);
    var rest := Pop(b, SERVER);
    GetAfterPop(b, SERVER, SERVER);
    HasKeyIsGet(rest, SERVER);
    var r := RemoveServer(obj, parent, SERVER).value;
    GetAfterPop(obj, parent, parent);
    GetAfterPut(obj, parent, JObject(rest), parent);
    forall key | key != parent && HasKey(obj, key) ensures HasKey(r, key) {
      GetAfterPop(obj, parent, key);
      GetAfterPut(obj, parent, JObject(rest), key);
      HasKeyIsGet(r, key);
      HasKeyIsGet(obj, key);
    }
  }

  lemma NoMembersHeld()
    ensures Get([], SERVER) == None
  {
  }

  lemma OwnLastCleans(event: string, arr: seq<JSON>)
    requires OwnLast(arr)
    ensures |Foreign(arr)| < |arr|
    ensures CleanEvent(Member(event, JArray(arr))) ==
            if Foreign(arr) == [] then [] else [Member(event, JArray(Foreign(arr)))]
  {
    hide Foreign;
    var init, last := arr[..|arr| - 1], arr[|arr| - 1];
    assert arr == init + [last];
    ForeignAppend(init, [last]);
    ForeignSingle(last);
    ForeignLonger(init);
  }

  lemma ForeignSingle(h: JSON)
    requires Tagged(h)
    ensures Foreign([h]) == []
  {
    hide Tagged;
    ForeignNone();
    ForeignCons(h, []);
    assert [h] + [] == [h];
  }

  /** Cleaning an event an installation wrote leaves it absent or an array of the user's entries. */
  lemma HeldEventCleaned(hooks: seq<Member>, event: string)
    requires DistinctKeys(hooks) && HoldsEvent(hooks, event)
    ensures EventRestorable(CleanEvents(hooks), event) && AnyChanges(hooks)
  {
    hide Get, CleanEvents, CleanEvent, Foreign, EventChanges, IndexOf;
    var v := Get(hooks, event).value;
    OwnLastCleans(event, v.items);
    GetCleaned(hooks, event, v);
    EventCases(Member(event, v));
    MemberAt(hooks, event);
    assert EventChanges(hooks[IndexOf(hooks, event)]);
  }

  lemma MemberAt(ms: seq<Member>, k: string)
    requires Get(ms, k).Some?
    ensures IndexOf(ms, k) < |ms| && ms[IndexOf(ms, k)] == Member(k, Get(ms, k).value)
  {
    hide IndexOf;
  }

  lemma RemovedSettings(obj: seq<Member>)
    requires DistinctKeys(obj) && DistinctKeys(Bucket(obj, "hooks")) && Holds(ClaudeSettings, obj)
    ensures RemoveHooks(obj).Some? && HooksRestorable(RemoveHooks(obj).value)
  {
    hide Get, Put, Pop, CleanEvents, AnyChanges, HoldsEvent, EventRestorable, DistinctKeys;
    NoEventHeld();
    var hooks := Bucket(obj, "hooks");
    HeldEventCleaned(hooks, START);
    HeldEventCleaned(hooks, STOP);
    CleanedQuiet(hooks);
    GetAfterPop(obj, "hooks", "hooks");
    GetAfterPut(obj, "hooks", JObject(CleanEvents(hooks)), "hooks");
  }

  lemma NoEventHeld()
    ensures !HoldsEvent([], START)
  {
  }

  /** Removing an installation always finds its parts, and what it leaves is undoable. */
  lemma HeldRemoved(c: Client, obj: seq<Member>)
    requires !c.Codex? && WellFormed(JObject(obj)) && Holds(c, obj)
    ensures Removed(c, obj).Some? && Undoable(c, Removed(c, obj).value)
  {
    hide WellFormed, Bucket, RemoveServer, RemoveHooks, HasKey, HoldsEvent, Restorable, HooksRestorable, DistinctKeys, SCHEMA_KEY;
    if c.ClaudeSettings? {
      BothDistinctKeys(obj, "hooks");
      RemovedSettings(obj);
    } else {
      SchemaIsNotServers();
      BothDistinctKeys(obj, ServerKey(c));
      RemovedServer(obj, ServerKey(c));
    }
  }

  /** On an undoable object there is nothing to remove. */
  lemma UndoableQuiet(c: Client, obj: seq<Member>)
    requires !c.Codex? && Undoable(c, obj)
    ensures Removed(c, obj) == None
  {
    hide Get, HasKey, AnyChanges;
  }

  /** Removal after a step gives the object back if and only if it was undoable. */
  lemma RemovedExactly(step: Step, obj: seq<Member>)
    requires StepClean(step) && WellFormed(JObject(obj))
    ensures var r := Removed(step.Target(), Edited(step, obj)); r.Some? && (r == Some(obj) <==> Undoable(step.Target(), obj))
  {
    hide MergeServer, RemoveServer, InstallHooks, RemoveHooks, Restorable, HooksRestorable, WellFormed, Clean, Bucket, HasKey, SCHEMA, SCHEMA_KEY, Holds;
    EditedHolds(step, obj);
    EditedWellFormed(step, obj);
    HeldRemoved(step.Target(), Edited(step, obj));
    match step
    case AddServer(c, e) =>
      BothDistinctKeys(obj, ParentKey(c));
      RemoveAfterMerge(obj, ParentKey(c), SERVER, e);
    case AddHooks(python) =>
      BothDistinctKeys(obj, "hooks");
      if HooksRestorable(obj) { Undone(obj, python); }
    case AddOpenCode(e) =>
      BothDistinctKeys(obj, "mcp");
      RemoveAfterMerge(obj, "mcp", SERVER, e);
  }

  lemma EditedWellFormed(step: Step, obj: seq<Member>)
    requires StepClean(step) && WellFormed(JObject(obj))
    ensures WellFormed(JObject(Edited(step, obj)))
  {
    hide WellFormed, Edited, StepClean;
    SoundEdited(step, obj, false);
  }

  lemma RemovedWellFormed(c: Client, obj: seq<Member>)
    requires !c.Codex? && WellFormed(JObject(obj)) && Removed(c, obj).Some?
    ensures WellFormed(JObject(Removed(c, obj).value))
  {
    hide WellFormed, Removed;
    SoundRemoved(c, obj, false);
  }

  // ---- rereading -------------------------------------------------------------------------------------------------------

  lemma OwnLastReread(arr: seq<JSON>)
    requires OwnLast(arr)
    ensures OwnLast(RereadValue(JArray(arr)).items)
  {
    hide Tagged, WellFormed, Clean, RereadValue;
    ItemsReread(arr);
    CleanReread(arr[|arr| - 1]);
  }

  lemma HeldEventReread(hooks: seq<Member>, event: string)
    requires DistinctKeys(hooks) && Firm(event) && HoldsEvent(hooks, event)
    ensures HoldsEvent(Reread(hooks), event)
  {
    hide Firm, Get, Reread, RereadValue, OwnLast, DistinctKeys;
    RereadGet(hooks, event);
    OwnLastReread(Get(hooks, event).value.items);
    ItemsReread(Get(hooks, event).value.items);
  }

  /** piLoci's parts are read back as they were written. */
  lemma HeldReread(c: Client, obj: seq<Member>)
    requires !c.Codex? && WellFormed(JObject(obj)) && Holds(c, obj)
    ensures Holds(c, Reread(obj))
  {
    hide WellFormed, Bucket, Reread, HasKey, HoldsEvent, DistinctKeys, Firm, SCHEMA_KEY, START, STOP;
    OwnKeysFirm();
    SchemaFirm();
    var key := if c.ClaudeSettings? then "hooks" else ServerKey(c);
    ServerKeysFirm(c);
    BothDistinctKeys(obj, key);
    RereadBucket(obj, key);
    if c.ClaudeSettings? {
      HeldEventReread(Bucket(obj, key), START);
      HeldEventReread(Bucket(obj, key), STOP);
    } else {
      RereadGet(Bucket(obj, key), SERVER);
      RereadGet(obj, SCHEMA_KEY);
    }
  }

  lemma EventQuiet(m: Member)
    requires !EventChanges(m) && WellFormed(m.value)
    ensures !EventChanges(Member(Trimmed(m.key), RereadValue(m.value)))
  {
    hide Foreign, RereadValue, WellFormed, Clean;
    if m.value.JArray? {
      var arr := m.value.items;
      ForeignSame(arr);
      ForeignAll(arr);
      SoundArray(arr, false);
      ForeignReread(arr);
      ItemsReread(arr);
      ForeignAll(RereadValue(m.value).items);
    } else {
      ScalarReread(m.value);
    }
  }

  lemma QuietHooksReread(hooks: seq<Member>)
    requires WellFormed(JObject(hooks)) && !AnyChanges(hooks)
    ensures !AnyChanges(Reread(hooks))
  {
    hide EventChanges, Dict, RereadPairs, RereadValue, Trimmed, WellFormed, Clean;
    SoundMembers(hooks, false);
    DictAmong(RereadPairs(hooks));
    forall i | 0 <= i < |Reread(hooks)| ensures !EventChanges(Reread(hooks)[i]) {
      assert Reread(hooks)[i] in RereadPairs(hooks);
      var j :| 0 <= j < |hooks| && RereadPairs(hooks)[j] == Reread(hooks)[i];
      EventQuiet(hooks[j]);
    }
  }

  lemma NonEmptyReread(ms: seq<Member>)
    requires ms != []
    ensures Reread(ms) != []
  {
    hide Put, RereadPairs;
    var p := RereadPairs(ms);
    assert Reread(ms) == Put(Dict(p[..|p| - 1]), p[|p| - 1].key, p[|p| - 1].value);
    PutNotEmpty(Dict(p[..|p| - 1]), p[|p| - 1].key, p[|p| - 1].value);
  }

  lemma PutNotEmpty(ms: seq<Member>, k: string, v: JSON)
    ensures Put(ms, k, v) != []
  {
    hide IndexOf;
  }

  lemma RestorableReread(obj: seq<Member>, parent: string)
    requires WellFormed(JObject(obj)) && Firm(parent) && Restorable(obj, parent, SERVER)
    ensures Restorable(Reread(obj), parent, SERVER)
  {
    hide Firm, Get, HasKey, Reread, RereadValue, WellFormed, DistinctKeys;
    OwnKeysFirm();
    BothDistinctKeys(obj, parent);
    RereadGet(obj, parent);
    match Get(obj, parent)
    case Some(v) =>
      ValueOfObject(v.members);
      NonEmptyReread(v.members);
      RereadGet(v.members, SERVER);
    case None =>
  }

  lemma EventRestorableReread(hooks: seq<Member>, event: string)
    requires DistinctKeys(hooks) && Firm(event) && EventRestorable(hooks, event)
    ensures EventRestorable(Reread(hooks), event)
  {
    hide Firm, Get, Reread, RereadValue, DistinctKeys;
    RereadGet(hooks, event);
    match Get(hooks, event)
    case Some(v) => ItemsReread(v.items);
    case None =>
  }

  lemma HooksOf(obj: seq<Member>)
    requires WellFormed(JObject(obj)) && Get(obj, "hooks").Some?
    ensures WellFormed(Get(obj, "hooks").value)
  {
    hide WellFormed, Clean, Get;
    SoundGet(obj, "hooks", false);
  }

  lemma HooksRestorableReread(obj: seq<Member>)
    requires WellFormed(JObject(obj)) && HooksRestorable(obj)
    ensures HooksRestorable(Reread(obj))
  {
    hide Firm, Get, HasKey, Reread, RereadValue, WellFormed, DistinctKeys, AnyChanges, EventRestorable, START, STOP;
    OwnKeysFirm();
    BothDistinctKeys(obj, "hooks");
    RereadGet(obj, "hooks");
    match Get(obj, "hooks")
    case Some(v) =>
      HooksOf(obj);
      ValueOfObject(v.members);
      NonEmptyReread(v.members);
      QuietHooksReread(v.members);
      EventRestorableReread(v.members, START);
      EventRestorableReread(v.members, STOP);
    case None =>
  }

  lemma UndoableReread(c: Client, obj: seq<Member>)
    requires !c.Codex? && WellFormed(JObject(obj)) && Undoable(c, obj)
    ensures Undoable(c, Reread(obj))
  {
    hide WellFormed, Reread, HasKey, DistinctKeys, Firm, SCHEMA_KEY, HooksRestorable, Restorable;
    ServerKeysFirm(c);
    SchemaFirm();
    BothDistinctKeys(obj, ServerKey(c));
    RereadGet(obj, SCHEMA_KEY);
    if c.ClaudeSettings? { HooksRestorableReread(obj); } else { RestorableReread(obj, ServerKey(c)); }
  }

  /** Where there is nothing to remove, a rewrite makes nothing to remove. */
  lemma QuietReread(c: Client, obj: seq<Member>)
    requires !c.Codex? && WellFormed(JObject(obj)) && Removed(c, obj) == None
    ensures Removed(c, Reread(obj)) == None
  {
    hide WellFormed, Reread, RereadValue, HasKey, DistinctKeys, Firm, Get, Put, Pop, AnyChanges;
    OwnKeysFirm();
    ServerKeysFirm(c);
    var key := if c.ClaudeSettings? then "hooks" else ServerKey(c);
    BothDistinctKeys(obj, key);
    RereadGet(obj, key);
    match Get(obj, key)
    case Some(JObject(b)) =>
      ValueOfObject(b);
      if c.ClaudeSettings? { HooksOf(obj); QuietHooksReread(b); } else { RereadGet(b, SERVER); }
    case Some(v) => ScalarReread(v);
    case None =>
  }

  // ---- rereading commutes with a step on an undoable object --------------------------------------------------------------

  lemma ArrayReread(arr: seq<JSON>, own: JSON)
    requires AllForeign(arr) && (forall i | 0 <= i < |arr| :: WellFormed(arr[i])) && WellFormed(own) && Clean(own)
    ensures var r := RereadValue(JArray(arr)).items;
            Foreign(arr) == arr && Foreign(r) == r && RereadValue(JArray(arr + [own])) == JArray(r + [own])
  {
    hide Tagged, WellFormed, Clean, RereadValue, Foreign, AllForeign;
    ItemsReread(arr);
    ForeignAll(arr);
    ForeignReread(arr);
    ForeignAll(RereadValue(JArray(arr)).items);
    CleanReread(own);
    SnocReread(arr, own);
  }

  lemma SnocReread(arr: seq<JSON>, own: JSON)
    ensures RereadValue(JArray(arr + [own])) == JArray(RereadValue(JArray(arr)).items + [RereadValue(own)])
  {
    hide RereadValue;
    var all := arr + [own];
    ItemsReread(arr);
    ItemsReread(all);
    var a, r := RereadValue(JArray(all)).items, RereadValue(JArray(arr)).items + [RereadValue(own)];
    assert |a| == |r| && forall i | 0 <= i < |a| :: a[i] == r[i];
  }

  lemma HookReread(hooks: seq<Member>, event: string, command: string)
    requires WellFormed(JObject(hooks)) && Firm(event) && AllForeign(List(Get(hooks, event))) && Clean(Entry(command))
    ensures Reread(InstallHook(hooks, event, command)) == InstallHook(Reread(hooks), event, command)
  {
    hide Firm, Get, Put, Reread, RereadValue, Tagged, WellFormed, Clean, Entry, Foreign, DistinctKeys;
    var arr := List(Get(hooks, event));
    EntryWellFormed(command);
    EventItems(hooks, event);
    ArrayReread(arr, Entry(command));
    EventRereads(hooks, event);
    RereadPut(hooks, event, JArray(arr + [Entry(command)]));
  }

  lemma EventItems(hooks: seq<Member>, event: string)
    requires WellFormed(JObject(hooks))
    ensures DistinctKeys(hooks) && forall i | 0 <= i < |List(Get(hooks, event))| :: WellFormed(List(Get(hooks, event))[i])
  {
    hide WellFormed, Clean, Get, DistinctKeys;
    SoundMembers(hooks, false);
    SoundGet(hooks, event, false);
    SoundArray(List(Get(hooks, event)), false);
  }

  lemma EventRereads(hooks: seq<Member>, event: string)
    requires DistinctKeys(hooks) && Firm(event)
    ensures List(Get(Reread(hooks), event)) == RereadValue(JArray(List(Get(hooks, event)))).items
  {
    hide Firm, Get, Reread, RereadValue, DistinctKeys;
    RereadGet(hooks, event);
    ItemsReread([]);
    match Get(hooks, event)
    case Some(v) => ScalarReread(v); ItemsReread(List(Some(v)));
    case None =>
  }

  lemma EventForeign(hooks: seq<Member>, event: string)
    requires !AnyChanges(hooks)
    ensures AllForeign(List(Get(hooks, event)))
  {
    hide Get, AnyChanges, Foreign, Tagged;
    NoChangeAt(hooks, event);
    ForeignAll(List(Get(hooks, event)));
  }

  lemma BothReread(hooks: seq<Member>, python: string)
    requires WellFormed(JObject(hooks)) && !AnyChanges(hooks) && StepClean(AddHooks(python))
    ensures Reread(InstallBoth(hooks, python)) == InstallBoth(Reread(hooks), python)
  {
    hide Firm, Get, Reread, WellFormed, Clean, Entry, HookCommand, InstallHook, AnyChanges, AllForeign, START, STOP, List;
    OwnKeysFirm();
    EventsDiffer();
    var c := HookCommand(python, "hook");
    var one := InstallHook(hooks, START, c);
    EventForeign(hooks, START);
    EventForeign(hooks, STOP);
    HookReread(hooks, START, c);
    EventAfterInstall(hooks, START, c, STOP);
    HookWellFormed(hooks, START, c);
    HookReread(one, STOP, HookCommand(python, "stop-hook"));
  }

  lemma HookWellFormed(hooks: seq<Member>, event: string, command: string)
    requires WellFormed(JObject(hooks)) && Clean(Entry(command))
    ensures WellFormed(JObject(InstallHook(hooks, event, command)))
  {
    hide WellFormed, Clean, Entry, InstallHook;
    SoundHook(hooks, event, command, false);
  }

  lemma BucketWellFormed(obj: seq<Member>, key: string)
    requires WellFormed(JObject(obj))
    ensures WellFormed(JObject(Bucket(obj, key)))
  {
    hide WellFormed, Clean, Bucket;
    SoundBucket(obj, key, false);
  }

  lemma SettingsReread(obj: seq<Member>, python: string)
    requires WellFormed(JObject(obj)) && HooksRestorable(obj) && StepClean(AddHooks(python))
    ensures Reread(InstallHooks(obj, python)) == InstallHooks(Reread(obj), python)
  {
    hide Firm, Put, Get, Reread, RereadValue, WellFormed, Clean, Entry, HookCommand, InstallBoth, AnyChanges, EventRestorable, DistinctKeys, StepClean;
    OwnKeysFirm();
    var hooks := Bucket(obj, "hooks");
    BothDistinctKeys(obj, "hooks");
    BucketWellFormed(obj, "hooks");
    EmptyRestorable();
    BothReread(hooks, python);
    RereadPut(obj, "hooks", JObject(InstallBoth(hooks, python)));
    ValueOfObject(InstallBoth(hooks, python));
    RereadBucket(obj, "hooks");
  }

  lemma SchemaReread(obj: seq<Member>)
    requires WellFormed(JObject(obj))
    ensures Reread(SetDefault(obj, SCHEMA_KEY, SCHEMA)) == SetDefault(Reread(obj), SCHEMA_KEY, SCHEMA)
    ensures WellFormed(JObject(SetDefault(obj, SCHEMA_KEY, SCHEMA)))
  {
    hide Firm, Put, HasKey, Reread, RereadValue, WellFormed, Clean, DistinctKeys, SCHEMA, SCHEMA_KEY, KeyFine;
    SchemaFirm();
    OwnKeysFine();
    assert Sound(SCHEMA, true);
    BothDistinctKeys(obj, "");
    RereadGet(obj, SCHEMA_KEY);
    RereadPut(obj, SCHEMA_KEY, SCHEMA);
    CleanReread(SCHEMA);
    SoundPut(obj, SCHEMA_KEY, SCHEMA, false);
  }

  /** Editing and reading back is reading back and editing. */
  lemma EditedReread(step: Step, obj: seq<Member>)
    requires StepClean(step) && WellFormed(JObject(obj)) && Undoable(step.Target(), obj)
    ensures Reread(Edited(step, obj)) == Edited(step, Reread(obj))
  {
    hide MergeServer, InstallHooks, SetDefault, Restorable, HooksRestorable, WellFormed, Clean, HasKey, Reread, Firm, SCHEMA, SCHEMA_KEY;
    OwnKeysFirm();
    match step
    case AddServer(c, e) => ServerKeysFirm(c); RereadMerge(obj, ParentKey(c), e);
    case AddHooks(python) => SettingsReread(obj, python);
    case AddOpenCode(e) =>
      SchemaReread(obj);
      RereadMerge(SetDefault(obj, SCHEMA_KEY, SCHEMA), "mcp", e);
  }

  // ---- removing twice ----------------------------------------------------------------------------------------------------

  lemma RemovedTwice(c: Client, obj: seq<Member>)
    requires !c.Codex? && WellFormed(JObject(obj)) && Removed(c, obj).Some?
    ensures Removed(c, Removed(c, obj).value) == None
  {
    hide WellFormed, HasKey, DistinctKeys, Get, Put, Pop, AnyChanges, CleanEvents;
    var key := if c.ClaudeSettings? then "hooks" else ServerKey(c);
    BothDistinctKeys(obj, key);
    var b := Get(obj, key).value.members;
    GetAfterPop(obj, key, key);
    if c.ClaudeSettings? {
      CleanedQuiet(b);
      GetAfterPut(obj, key, JObject(CleanEvents(b)), key);
    } else {
      GetAfterPop(b, SERVER, SERVER);
      HasKeyIsGet(Pop(b, SERVER), SERVER);
      GetAfterPut(obj, key, JObject(Pop(b, SERVER)), key);
    }
  }
}
