/** Values a config can hold without loss: well formed, and if asked for free of the commas a rewrite drops. */
module SoundObjects {
  import opened Text
  import opened Json
  import opened JsoncRoundTrip
  import opened Jsonc
  import opened ParseFacts
  import opened Configs
  import opened Hooks
  import opened HookRuns
  import opened ConfigFiles

  /** Everything a step adds survives being printed and read back. */
  ghost predicate StepClean(step: Step) {
    match step
    case AddServer(c, e) => ServerClient(c) && WellFormed(e) && Clean(e)
    case AddHooks(python) => Clean(Entry(HookCommand(python, "hook"))) && Clean(Entry(HookCommand(python, "stop-hook")))
    case AddOpenCode(e) => WellFormed(e) && Clean(e)
    case AddCodex(_) => false
  }

  /** With clean, v survives being printed and read back. */
  ghost predicate Sound(v: JSON, clean: bool) { WellFormed(v) && (clean ==> Clean(v)) }

  ghost predicate KeyFine(k: string, clean: bool) { clean ==> !HasTrailingComma(k) }

  ghost predicate SoundObject(ms: seq<Member>, clean: bool) { Sound(JObject(ms), clean) }

  lemma SoundMembers(ms: seq<Member>, clean: bool)
    ensures SoundObject(ms, clean) <==>
              DistinctKeys(ms) && forall i | 0 <= i < |ms| :: KeyFine(ms[i].key, clean) && Sound(ms[i].value, clean)
  {
  }

  lemma SoundPut(ms: seq<Member>, k: string, v: JSON, clean: bool)
    requires SoundObject(ms, clean) && Sound(v, clean) && KeyFine(k, clean)
    ensures SoundObject(Put(ms, k, v), clean)
  {
    hide SoundObject, Sound, IndexOf, HasTrailingComma, DistinctKeys;
    SoundMembers(ms, clean);
    SoundMembers(Put(ms, k, v), clean);
    PutKeepsDistinct(ms, k, v);
  }

  lemma SoundGet(ms: seq<Member>, k: string, clean: bool)
    requires SoundObject(ms, clean)
    ensures match Get(ms, k) case Some(v) => Sound(v, clean) case None => true
  {
    hide SoundObject, Sound, HasTrailingComma, DistinctKeys;
    SoundMembers(ms, clean);
  }

  lemma SoundBucket(ms: seq<Member>, k: string, clean: bool)
    requires SoundObject(ms, clean)
    ensures SoundObject(Bucket(ms, k), clean)
  {
    hide Get, Sound;
    SoundGet(ms, k, clean);
    SoundEmpty(clean);
  }

  lemma SoundEmpty(clean: bool)
    ensures SoundObject([], clean)
  {
  }

  lemma CommaFree(s: string)
    requires ',' !in s
    ensures !HasTrailingComma(s)
  {
  }

  lemma KeysHaveNoComma()
    ensures ',' !in "mcpServers" && ',' !in "context_servers" && ',' !in "mcp" && ',' !in "hooks"
  {
  }

  lemma NamesHaveNoComma()
    ensures ',' !in SERVER && ',' !in SCHEMA_KEY && ',' !in START && ',' !in STOP
  {
  }

  lemma SchemaHasNoComma()
    ensures ',' !in SCHEMA.s
  {
  }

  lemma OwnKeysFine()
    ensures forall clean :: KeyFine("mcpServers", clean) && KeyFine("context_servers", clean) && KeyFine("mcp", clean)
    ensures forall clean :: KeyFine(SERVER, clean) && KeyFine(SCHEMA_KEY, clean) && KeyFine("hooks", clean)
    ensures forall clean :: KeyFine(START, clean) && KeyFine(STOP, clean)
    ensures forall clean: bool :: Sound(SCHEMA, clean)
  {
    KeysHaveNoComma();
    NamesHaveNoComma();
    SchemaHasNoComma();
    hide HasTrailingComma, SERVER, SCHEMA_KEY, START, STOP;
    CommaFree("mcpServers");
    CommaFree("context_servers");
    CommaFree("mcp");
    CommaFree(SERVER);
    CommaFree(SCHEMA_KEY);
    CommaFree("hooks");
    CommaFree(START);
    CommaFree(STOP);
    CommaFree(SCHEMA.s);
  }

  lemma SoundMerge(ms: seq<Member>, parent: string, entry: JSON, clean: bool)
    requires SoundObject(ms, clean) && Sound(entry, clean) && KeyFine(parent, clean)
    ensures SoundObject(MergeServer(ms, parent, SERVER, entry), clean)
  {
    hide Sound, KeyFine, HasTrailingComma, Put, Get, Bucket;
    OwnKeysFine();
    SoundBucket(ms, parent, clean);
    SoundPut(Bucket(ms, parent), SERVER, entry, clean);
    SoundPut(ms, parent, JObject(Put(Bucket(ms, parent), SERVER, entry)), clean);
  }

  lemma SoundArray(items: seq<JSON>, clean: bool)
    ensures Sound(JArray(items), clean) <==> forall i | 0 <= i < |items| :: Sound(items[i], clean)
  {
  }

  lemma {:induction false} ForeignAmong(arr: seq<JSON>)
    ensures forall h | h in Foreign(arr) :: h in arr
  {
    hide Tagged;
    if arr != [] { ForeignAmong(arr[1..]); }
  }

  lemma EntryWellFormed(command: string)
    ensures WellFormed(Entry(command))
  {
    var inner := JObject([Member("type", JString("command")), Member("command", JString(command))]);
    assert "type"[0] != "command"[0];
    assert WellFormed(inner);
    assert WellFormed(JArray([inner]));
    assert "matcher"[0] != "hooks"[0];
  }

  lemma SoundHook(hooks: seq<Member>, event: string, command: string, clean: bool)
    requires SoundObject(hooks, clean) && Clean(Entry(command)) && KeyFine(event, clean)
    ensures SoundObject(InstallHook(hooks, event, command), clean)
  {
    hide SoundObject, KeyFine, WellFormed, Clean, HasTrailingComma, Put, Get, Foreign, Entry;
    EntryWellFormed(command);
    var arr := List(Get(hooks, event));
    SoundGet(hooks, event, clean);
    SoundArray(arr, clean);
    ForeignAmong(arr);
    var new_ := Foreign(arr) + [Entry(command)];
    SoundArray(new_, clean);
    assert forall i | 0 <= i < |new_| :: new_[i] in arr || new_[i] == Entry(command);
    SoundPut(hooks, event, JArray(new_), clean);
  }

  lemma SoundHooks(ms: seq<Member>, python: string, clean: bool)
    requires SoundObject(ms, clean) && StepClean(AddHooks(python))
    ensures SoundObject(InstallHooks(ms, python), clean)
  {
    hide Sound, KeyFine, HasTrailingComma, Put, Get, Bucket, InstallHook, HookCommand, Entry, Clean, START, STOP;
    OwnKeysFine();
    var b := Bucket(ms, "hooks");
    SoundBucket(ms, "hooks", clean);
    SoundHook(b, START, HookCommand(python, "hook"), clean);
    SoundHook(InstallHook(b, START, HookCommand(python, "hook")), STOP, HookCommand(python, "stop-hook"), clean);
    SoundPut(ms, "hooks", JObject(InstallBoth(b, python)), clean);
  }

  lemma SoundEdited(step: Step, ms: seq<Member>, clean: bool)
    requires SoundObject(ms, clean) && StepClean(step)
    ensures SoundObject(Edited(step, ms), clean)
  {
    hide SoundObject, KeyFine, HasTrailingComma, MergeServer, InstallHooks, Put, HasKey, SCHEMA, SCHEMA_KEY;
    OwnKeysFine();
    match step
    case AddServer(c, e) => SoundMerge(ms, ParentKey(c), e, clean);
    case AddHooks(python) => SoundHooks(ms, python, clean);
    case AddOpenCode(e) =>
      SoundPut(ms, SCHEMA_KEY, SCHEMA, clean);
      SoundMerge(SetDefault(ms, SCHEMA_KEY, SCHEMA), "mcp", e, clean);
  }

  lemma BucketsDistinct(obj: seq<Member>, k: string, clean: bool)
    requires SoundObject(obj, clean)
    ensures DistinctKeys(obj) && DistinctKeys(Bucket(obj, k))
  {
    hide Bucket, Sound;
    SoundBucket(obj, k, clean);
    SoundMembers(obj, clean);
    SoundMembers(Bucket(obj, k), clean);
  }

  lemma SoundPop(ms: seq<Member>, k: string, clean: bool)
    requires SoundObject(ms, clean)
    ensures SoundObject(Pop(ms, k), clean)
  {
    hide SoundObject, KeyFine, Sound, IndexOf, HasTrailingComma;
    SoundMembers(ms, clean);
    SoundMembers(Pop(ms, k), clean);
    GetAfterPop(ms, k, k);
  }

  /** Cleaning keeps the key of an event, and leaves nothing in it that was not there. */
  lemma {:induction false} CleanedFrom(hooks: seq<Member>, clean: bool)
    requires SoundObject(hooks, clean)
    ensures SoundObject(CleanEvents(hooks), clean)
    ensures forall x | x in CleanEvents(hooks) :: exists h | h in hooks :: h.key == x.key
  {
    hide SoundObject, KeyFine, CleanEvent, HasTrailingComma, Sound;
    if hooks == [] {
      SoundEmpty(clean);
    } else {
      var m, rest := hooks[0], hooks[1..];
      SoundTail(hooks, clean);
      CleanedFrom(rest, clean);
      CleanKeepsKeys(m);
      SoundEvent(m, clean);
      if CleanEvent(m) == [] {
        assert [] + CleanEvents(rest) == CleanEvents(rest);
      } else {
        assert CleanEvent(m) == [CleanEvent(m)[0]];
        SoundCons(CleanEvent(m)[0], CleanEvents(rest), clean);
      }
    }
  }

  lemma SoundTail(ms: seq<Member>, clean: bool)
    requires SoundObject(ms, clean) && ms != []
    ensures SoundObject(ms[1..], clean) && KeyFine(ms[0].key, clean) && Sound(ms[0].value, clean)
    ensures forall h | h in ms[1..] :: h.key != ms[0].key
  {
    hide SoundObject, KeyFine, HasTrailingComma, Sound;
    SoundMembers(ms, clean);
    SoundMembers(ms[1..], clean);
  }

  lemma SoundCons(m: Member, rest: seq<Member>, clean: bool)
    requires SoundObject(rest, clean) && KeyFine(m.key, clean) && Sound(m.value, clean)
    requires forall x | x in rest :: x.key != m.key
    ensures SoundObject([m] + rest, clean)
  {
    hide SoundObject, KeyFine, HasTrailingComma, Sound;
    SoundMembers(rest, clean);
    SoundMembers([m] + rest, clean);
  }

  lemma SoundEvent(m: Member, clean: bool)
    requires Sound(m.value, clean)
    ensures forall x | x in CleanEvent(m) :: Sound(x.value, clean)
  {
    hide Sound, Foreign;
    if m.value.JArray? {
      var arr := m.value.items;
      SoundArray(arr, clean);
      SoundArray(Foreign(arr), clean);
      ForeignAmong(arr);
      assert forall i | 0 <= i < |Foreign(arr)| :: Foreign(arr)[i] in arr;
    }
  }

  lemma SoundRemoveServer(ms: seq<Member>, parent: string, clean: bool)
    requires SoundObject(ms, clean) && RemoveServer(ms, parent, SERVER).Some? && KeyFine(parent, clean)
    ensures SoundObject(RemoveServer(ms, parent, SERVER).value, clean)
  {
    hide SoundObject, KeyFine, HasTrailingComma, Put, Pop, Get, IndexOf, WellFormed, Clean;
    SoundGet(ms, parent, clean);
    var bucket := Get(ms, parent).value.members;
    assert SoundObject(bucket, clean) by { SoundIs(bucket, clean); }
    SoundPop(bucket, SERVER, clean);
    SoundPop(ms, parent, clean);
    SoundIs(Pop(bucket, SERVER), clean);
    SoundPut(ms, parent, JObject(Pop(bucket, SERVER)), clean);
  }

  lemma SoundIs(ms: seq<Member>, clean: bool)
    ensures SoundObject(ms, clean) <==> Sound(JObject(ms), clean)
  {
  }

  lemma SoundRemoveHooks(ms: seq<Member>, clean: bool)
    requires SoundObject(ms, clean) && RemoveHooks(ms).Some?
    ensures SoundObject(RemoveHooks(ms).value, clean)
  {
    hide SoundObject, KeyFine, HasTrailingComma, Put, Pop, Get, IndexOf, WellFormed, Clean, CleanEvents, AnyChanges;
    OwnKeysFine();
    SoundGet(ms, "hooks", clean);
    var hooks := Get(ms, "hooks").value.members;
    SoundIs(hooks, clean);
    CleanedFrom(hooks, clean);
    SoundPop(ms, "hooks", clean);
    SoundIs(CleanEvents(hooks), clean);
    SoundPut(ms, "hooks", JObject(CleanEvents(hooks)), clean);
  }

  lemma SoundRemoved(c: Client, ms: seq<Member>, clean: bool)
    requires !c.Codex? && SoundObject(ms, clean) && Removed(c, ms).Some?
    ensures SoundObject(Removed(c, ms).value, clean)
  {
    hide SoundObject, KeyFine, HasTrailingComma, RemoveServer, RemoveHooks;
    OwnKeysFine();
    if c.ClaudeSettings? { SoundRemoveHooks(ms, clean); }
    else { SoundRemoveServer(ms, if c.OpenCode? then "mcp" else ParentKey(c), clean); }
  }

  /** An object read from a file is always well formed, so only its strings decide whether it is sound. */
  lemma ExistingSound(raw: Option<string>)
    ensures WellFormed(JObject(Existing(raw)))
    ensures SoundObject(Existing(raw), true) <==> Clean(JObject(Existing(raw)))
  {
    hide ParseJsonc, Clean;
    match raw
    case Some(t) => if ParseJsonc(t).Some? { ParsedWellFormed(t); } EmptyWellFormed();
    case None => EmptyWellFormed();
  }

  lemma EmptyWellFormed()
    ensures WellFormed(JObject([]))
  {
  }
}
