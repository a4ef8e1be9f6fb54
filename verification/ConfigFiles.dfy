/** The client config files and their backups, and what installing, restoring and uninstalling make of them. */
module ConfigFiles {
  import opened Text
  import opened Json
  import opened JsonText
  import opened Jsonc
  import opened Configs
  import opened Hooks
  import opened CodexBlock
  import opened ParseFacts

  datatype Client =
    | ClaudeSettings | ClaudeJson | OpenCode | Cursor | Gemini | Windsurf | AntiGravity | Zed | Codex

  /** A config file, its .piloci-bak, or its .piloci-corrupt-bak. */
  datatype Path = Config(client: Client) | Backup(client: Client) | Corrupt(client: Client)

  type Files = map<Path, string>

  function Lookup(files: Files, p: Path): Option<string> { if p in files then Some(files[p]) else None }

  /** The clients whose config is a JSON object with one entry per MCP server. */
  predicate ServerClient(c: Client) {
    c.ClaudeJson? || c.Cursor? || c.Gemini? || c.Windsurf? || c.AntiGravity? || c.Zed?
  }

  function ParentKey(c: Client): string { if c.Zed? then "context_servers" else "mcpServers" }

  const SERVER := "piloci"
  const SCHEMA_KEY := "$schema"
  const SCHEMA := JString("https://opencode.ai/config.json")

  /** _backup_targets: ~/.claude.json is not among them. */
  const TARGETS: seq<Client> := [ClaudeSettings, OpenCode, Cursor, Gemini, Windsurf, AntiGravity, Zed, Codex]

  datatype Step =
    | AddServer(client: Client, entry: JSON)
    | AddHooks(python: string)
    | AddOpenCode(entry: JSON)
    | AddCodex(body: string)
  {
    predicate Valid() { AddServer? ==> ServerClient(client) }

    function Target(): Client {
      match this
      case AddServer(c, _) => c
      case AddHooks(_) => ClaudeSettings
      case AddOpenCode(_) => OpenCode
      case AddCodex(_) => Codex
    }
  }

  // ---- one step ------------------------------------------------------------------------------------------------

  /** dict.setdefault */
  function SetDefault(ms: seq<Member>, k: string, v: JSON): seq<Member> {
    if HasKey(ms, k) then ms else Put(ms, k, v)
  }

  /** The object a merge starts from: the file's, or an empty one if it is missing, corrupt or no object. */
  function Existing(raw: Option<string>): seq<Member> {
    match raw
    case None => []
    case Some(t) =>
      match ParseJsonc(t)
      case Some(JObject(ms)) => ms
      case _ => []
  }

  /** The object a JSON step makes of obj. */
  function Edited(step: Step, obj: seq<Member>): seq<Member>
    requires !step.AddCodex?
  {
    match step
    case AddServer(c, entry) => MergeServer(obj, ParentKey(c), SERVER, entry)
    case AddHooks(python) => InstallHooks(obj, python)
    case AddOpenCode(entry) => MergeServer(SetDefault(obj, SCHEMA_KEY, SCHEMA), "mcp", SERVER, entry)
  }

  function NewText(step: Step, raw: Option<string>): string {
    match step
    case AddCodex(body) => Installed(match raw case Some(t) => t case None => "", body)
    case _ => Print(JObject(Edited(step, Existing(raw))), Pretty)
  }

  // ---- one client's files --------------------------------------------------------------------------------------

  /** A config with its backup and its corrupt copy. No step on one client touches another client's files. */
  datatype Slot = Slot(config: Option<string>, backup: Option<string>, corrupt: Option<string>)

  function View(files: Files, c: Client): Slot {
    Slot(Lookup(files, Config(c)), Lookup(files, Backup(c)), Lookup(files, Corrupt(c)))
  }

  /** Path.read_text of the config. */
  function Read(s: Slot): Option<string> {
    match s.config
    case Some(t) => Some(ReadText(t))
    case None => None
  }

  predicate IsCorrupt(c: Client, raw: Option<string>) { !c.Codex? && raw.Some? && ParseJsonc(raw.value).None? }

  /** What is set aside before a config is rewritten: a corrupt one each time, the backup only once. */
  function Snapshot(s: Slot, c: Client): Slot {
    s.(backup := if s.backup.Some? then s.backup else Read(s), corrupt := if IsCorrupt(c, Read(s)) then Read(s) else s.corrupt)
  }

  /** One installation step on its own client. */
  function Applied(s: Slot, step: Step): Slot {
    Snapshot(s, step.Target()).(config := Some(NewText(step, Read(s))))
  }

  /** Those of the steps that are on client c, in order. */
  function AppliedAll(s: Slot, c: Client, steps: seq<Step>): Slot
    decreases |steps|
  {
    if steps == [] then s
    else
      var before := AppliedAll(s, c, steps[..|steps| - 1]);
      if steps[|steps| - 1].Target() == c then Applied(before, steps[|steps| - 1]) else before
  }

  // ---- removal -------------------------------------------------------------------------------------------------

  /** The object without piLoci's parts, or None when the file is left alone. */
  function Removed(c: Client, obj: seq<Member>): Option<seq<Member>>
    requires !c.Codex?
  {
    if c.ClaudeSettings? then RemoveHooks(obj)
    else if c.OpenCode? then RemoveServer(obj, "mcp", SERVER)
    else RemoveServer(obj, ParentKey(c), SERVER)
  }

  /** The text surgical removal writes over raw, if it writes at all. */
  function RemovedText(c: Client, raw: string): Option<string> {
    if c.Codex? then if Cleaned(raw) != RStrip(raw) then Some(Uninstalled(raw)) else None
    else
      match ParseJsonc(raw)
      case Some(JObject(ms)) =>
        (match Removed(c, ms)
         case Some(obj) => Some(Print(JObject(obj), Pretty))
         case None => None)
      case _ => None
  }

  function Surgery(c: Client, text: string): string {
    match RemovedText(c, ReadText(text))
    case Some(t) => t
    case None => text
  }

  function Cleared(s: Slot, c: Client): Slot {
    s.(config := match s.config case Some(t) => Some(Surgery(c, t)) case None => None)
  }

  /** The configs cleanup_legacy_install clears, without a backup, before every installation. */
  predicate IsSwept(c: Client) { c.ClaudeSettings? || c.OpenCode? }

  function Swept(s: Slot, c: Client): Slot { if IsSwept(c) then Cleared(s, c) else s }

  /** restore_backups: the backup becomes the config and goes. */
  function Restored(s: Slot, c: Client): Slot {
    if c in TARGETS && s.backup.Some? then s.(config := s.backup, backup := None) else s
  }

  // ---- histories -----------------------------------------------------------------------------------------------

  /**
   What a user can ask for. The steps of an installation are those of the chosen clients that succeeded: a client
   whose download fails contributes none.
   */
  datatype Event = Install(steps: seq<Step>) | Restore | Uninstall(restore: bool)

  function Next(s: Slot, c: Client, e: Event): Slot {
    match e
    case Install(steps) => AppliedAll(Swept(s, c), c, steps)
    case Restore => Restored(s, c)
    case Uninstall(restore) => Cleared(if restore then Restored(s, c) else s, c)
  }

  function Run(s: Slot, c: Client, events: seq<Event>): Slot
    decreases |events|
  {
    if events == [] then s else Next(Run(s, c, events[..|events| - 1]), c, events[|events| - 1])
  }

  // ---- the same on a file system ---------------------------------------------------------------------------------

  /** Client c's files became s and no other client's files changed. */
  ghost predicate Only(before: Files, after: Files, c: Client, s: Slot) {
    View(after, c) == s && forall d | d != c :: View(after, d) == View(before, d)
  }

  lemma Write(files: Files, c: Client, t: string)
    ensures Only(files, files[Config(c) := t], c, View(files, c).(config := Some(t)))
  {
  }

  lemma Keep(files: Files, c: Client)
    ensures Only(files, files, c, View(files, c))
  {
  }

  lemma WriteAfter(a: Files, b: Files, c: Client, s: Slot, t: string)
    requires Only(a, b, c, s)
    ensures Only(a, b[Config(c) := t], c, s.(config := Some(t)))
  {
    hide View;
    Write(b, c, t);
  }

  lemma ConfigOf(files: Files, c: Client)
    ensures View(files, c).config == if Config(c) in files then Some(files[Config(c)]) else None
  {
  }

  /** What removing a server's entry writes, in the terms of the code. */
  lemma RemovedServerText(c: Client, parent: string, raw: string)
    requires (c.OpenCode? && parent == "mcp") || (ServerClient(c) && parent == ParentKey(c))
    ensures RemovedText(c, raw) ==
            match ParseJsonc(raw)
            case Some(JObject(loaded)) =>
              (match Get(loaded, parent)
               case Some(JObject(bucket)) =>
                 if !HasKey(bucket, SERVER) then None
                 else if Pop(bucket, SERVER) == [] then Some(Print(JObject(Pop(loaded, parent)), Pretty))
                 else Some(Print(JObject(Put(loaded, parent, JObject(Pop(bucket, SERVER)))), Pretty))
               case _ => None)
            case _ => None
  {
    hide ParseJsonc, Print, Get, Put, Pop, HasKey;
  }

  /** The dict the loaded settings become in place, when cleaning left these hooks. */
  function WithHooks(loaded: seq<Member>, hooks: seq<Member>): seq<Member> {
    if hooks == [] then Pop(loaded, "hooks") else Put(loaded, "hooks", JObject(hooks))
  }

  class FileSystem {
    var files: Files

    constructor (files: Files)
      ensures this.files == files
    {
      this.files := files;
    }

    /** The part all JSON merges share: read, set aside what must be kept, hand out the object to edit. */
    method LoadForEdit(c: Client) returns (existing: seq<Member>)
      requires !c.Codex?
      modifies this
      ensures existing == Existing(Read(View(old(files), c)))
      ensures Only(old(files), files, c, Snapshot(View(old(files), c), c))
    {
      hide ParseJsonc, ReadText;
      existing := [];
      if Config(c) in files {
        var raw := ReadText(files[Config(c)]);
        match ParseJsonc(raw) {
          case Some(JObject(ms)) => existing := ms;
          case Some(_) =>
          case None => files := files[Corrupt(c) := raw];
        }
        if Backup(c) !in files {
          files := files[Backup(c) := ReadText(files[Config(c)])];
        }
      }
    }

    method MergeJsonMcp(c: Client, entry: JSON)
      requires ServerClient(c)
      modifies this
      ensures Only(old(files), files, c, Applied(View(old(files), c), AddServer(c, entry)))
    {
      hide ParseJsonc, ReadText, Print, Get, Put, Snapshot, Read, View, Only;
      var existing := LoadForEdit(c);
      var bucket := [];
      match Get(existing, ParentKey(c)) {
        case Some(JObject(ms)) => bucket := ms;
        case _ =>
      }
      bucket := Put(bucket, SERVER, entry);
      existing := Put(existing, ParentKey(c), JObject(bucket));
      WriteAfter(old(files), files, c, Snapshot(View(old(files), c), c), Print(JObject(existing), Pretty));
      files := files[Config(c) := Print(JObject(existing), Pretty)];
    }

    method MergeClaudeSettings(python: string)
      modifies this
      ensures Only(old(files), files, ClaudeSettings, Applied(View(old(files), ClaudeSettings), AddHooks(python)))
    {
      hide ParseJsonc, ReadText, Print, Get, Put, Snapshot, Read, View, Only, InstallHook, HookCommand;
      var existing := LoadForEdit(ClaudeSettings);
      var hooks := [];
      match Get(existing, "hooks") {
        case Some(JObject(ms)) => hooks := ms;
        case _ =>
      }
      hooks := InstallHook(hooks, START, HookCommand(python, "hook"));
      hooks := InstallHook(hooks, STOP, HookCommand(python, "stop-hook"));
      existing := Put(existing, "hooks", JObject(hooks));
      WriteAfter(old(files), files, ClaudeSettings, Snapshot(View(old(files), ClaudeSettings), ClaudeSettings), Print(JObject(existing), Pretty));
      files := files[Config(ClaudeSettings) := Print(JObject(existing), Pretty)];
    }

    method InstallOpenCode(entry: JSON)
      modifies this
      ensures Only(old(files), files, OpenCode, Applied(View(old(files), OpenCode), AddOpenCode(entry)))
    {
      hide ParseJsonc, ReadText, Print, Get, Put, Snapshot, Read, View, Only, HasKey, SCHEMA, SCHEMA_KEY;
      var existing := LoadForEdit(OpenCode);
      existing := SetDefault(existing, SCHEMA_KEY, SCHEMA);
      var mcp := [];
      match Get(existing, "mcp") {
        case Some(JObject(ms)) => mcp := ms;
        case _ =>
      }
      mcp := Put(mcp, SERVER, entry);
      existing := Put(existing, "mcp", JObject(mcp));
      WriteAfter(old(files), files, OpenCode, Snapshot(View(old(files), OpenCode), OpenCode), Print(JObject(existing), Pretty));
      files := files[Config(OpenCode) := Print(JObject(existing), Pretty)];
    }

    method InstallCodexMcp(body: string)
      modifies this
      ensures Only(old(files), files, Codex, Applied(View(old(files), Codex), AddCodex(body)))
    {
      hide ParseJsonc, ReadText, Cleaned, Block, BlockAlone;
      var raw := "";
      if Config(Codex) in files {
        raw := ReadText(files[Config(Codex)]);
        if Backup(Codex) !in files {
          files := files[Backup(Codex) := raw];
        }
      }
      var stripped := Cleaned(raw);
      files := files[Config(Codex) := if stripped != "" then stripped + Block(body) else BlockAlone(body)];
    }

    /** One entry of the install table. */
    method InstallClient(step: Step)
      requires step.Valid()
      modifies this
      ensures Only(old(files), files, step.Target(), Applied(View(old(files), step.Target()), step))
    {
      hide Applied, View;
      match step
      case AddServer(c, entry) => MergeJsonMcp(c, entry);
      case AddHooks(python) => MergeClaudeSettings(python);
      case AddOpenCode(entry) => InstallOpenCode(entry);
      case AddCodex(body) => InstallCodexMcp(body);
    }

    /** run_install: the sweep, then the chosen clients. */
    method RunInstall(steps: seq<Step>)
      requires forall i | 0 <= i < |steps| :: steps[i].Valid()
      modifies this
      ensures forall c :: View(files, c) == Next(View(old(files), c), c, Install(steps))
    {
      hide Applied, View, Swept;
      CleanupLegacyInstall();
      label L:
      for i := 0 to |steps|
        invariant forall c :: View(files, c) == AppliedAll(View(old@L(files), c), c, steps[..i])
      {
        assert steps[..i + 1][..i] == steps[..i];
        InstallClient(steps[i]);
      }
      assert steps[..|steps|] == steps;
    }

    /** The two configs of cleanup_legacy_install. */
    method CleanupLegacyInstall()
      modifies this
      ensures forall c :: View(files, c) == Swept(View(old(files), c), c)
    {
      hide View, Cleared;
      CleanupSettings();
      CleanupOpenCode();
    }

    method CleanupSettings()
      modifies this
      ensures Only(old(files), files, ClaudeSettings, Cleared(View(old(files), ClaudeSettings), ClaudeSettings))
    {
      hide ParseJsonc, ReadText, Print, Get, Put, Pop, AnyChanges, CleanEvents, WithHooks, WellFormed;
      if Config(ClaudeSettings) !in files {
        return;
      }
      var raw := ReadText(files[Config(ClaudeSettings)]);
      match ParseJsonc(raw) {
        case Some(JObject(loaded)) =>
          match Get(loaded, "hooks") {
            case Some(JObject(items)) =>
              ParsedWellFormed(raw);
              HooksDistinct(loaded, items);
              RemovedHooks(loaded, items);
              var hooks, changed := CleanHookEvents(items);
              if changed {
                files := files[Config(ClaudeSettings) := Print(JObject(WithHooks(loaded, hooks)), Pretty)];
              }
            case _ =>
          }
        case _ =>
      }
    }

    method CleanupOpenCode()
      modifies this
      ensures Only(old(files), files, OpenCode, Cleared(View(old(files), OpenCode), OpenCode))
    {
      var _ := RemoveJsonMcpEntry(OpenCode, "mcp");
    }

    /** _remove_json_mcp_entry, and the same lines again in cleanup_legacy_install. */
    method RemoveJsonMcpEntry(c: Client, parent: string) returns (changed: bool)
      requires (c.OpenCode? && parent == "mcp") || (ServerClient(c) && parent == ParentKey(c))
      modifies this
      ensures Only(old(files), files, c, Cleared(View(old(files), c), c))
      ensures changed == (Config(c) in old(files) && RemovedText(c, ReadText(old(files)[Config(c)])).Some?)
    {
      hide ParseJsonc, ReadText, Print, Get, Put, Pop, HasKey, View, Only, RemovedText;
      ConfigOf(files, c);
      Keep(files, c);
      if Config(c) !in files {
        return false;
      }
      RemovedServerText(c, parent, ReadText(files[Config(c)]));
      match ParseJsonc(ReadText(files[Config(c)])) {
        case Some(JObject(loaded)) =>
          match Get(loaded, parent) {
            case Some(JObject(bucket)) =>
              if !HasKey(bucket, SERVER) {
                return false;
              }
              var rest := Pop(bucket, SERVER);
              var left := if rest == [] then Pop(loaded, parent) else Put(loaded, parent, JObject(rest));
              Write(files, c, Print(JObject(left), Pretty));
              files := files[Config(c) := Print(JObject(left), Pretty)];
              return true;
            case _ => return false;
          }
        case _ => return false;
      }
    }

    method CleanCodex()
      modifies this
      ensures Only(old(files), files, Codex, Cleared(View(old(files), Codex), Codex))
    {
      hide ReadText, Cleaned, RStrip;
      if Config(Codex) in files {
        var raw := ReadText(files[Config(Codex)]);
        var stripped := Cleaned(raw);
        if stripped != RStrip(raw) {
          files := files[Config(Codex) := stripped + if stripped != "" then "\n" else ""];
        }
      }
    }

    method ListBackups() returns (found: seq<Client>)
      ensures forall c :: c in found <==> c in TARGETS && Backup(c) in files
    {
      found := [];
      for i := 0 to |TARGETS|
        invariant forall c :: c in found <==> c in TARGETS[..i] && Backup(c) in files
      {
        if Backup(TARGETS[i]) in files {
          found := found + [TARGETS[i]];
        }
      }
    }

    method RestoreBackups()
      modifies this
      ensures forall c :: View(files, c) == Next(View(old(files), c), c, Restore)
    {
      hide TARGETS;
      var found := ListBackups();
      for i := 0 to |found|
        invariant forall c :: View(files, c) == if c in found[..i] then Restored(View(old(files), c), c) else View(old(files), c)
      {
        var c := found[i];
        assert found[..i + 1] == found[..i] + [c];
        assert c in TARGETS;
        if Backup(c) in files {
          files := files[Config(c) := files[Backup(c)]] - {Backup(c)};
        }
      }
      assert found[..|found|] == found;
    }

    method RunUninstall(restore: bool)
      modifies this
      ensures forall c :: View(files, c) == Next(View(old(files), c), c, Uninstall(restore))
    {
      hide TARGETS, View, Surgery, Restored;
      if restore {
        RestoreBackups();
      }
      label L:
      CleanupLegacyInstall();
      var targets := [ClaudeJson, Cursor, Gemini, Windsurf, AntiGravity, Zed];
      for i := 0 to |targets|
        invariant forall c :: View(files, c) ==
                    if IsSwept(c) || c in targets[..i] then Cleared(View(old@L(files), c), c) else View(old@L(files), c)
      {
        assert targets[..i + 1] == targets[..i] + [targets[i]];
        TargetsDistinct(targets, i);
        var _ := RemoveJsonMcpEntry(targets[i], ParentKey(targets[i]));
      }
      assert targets[..|targets|] == targets;
      CleanCodex();
      forall c: Client ensures IsSwept(c) || c in targets || c == Codex { EveryClient(c); }
    }
  }

  lemma TargetsDistinct(targets: seq<Client>, i: nat)
    requires targets == [ClaudeJson, Cursor, Gemini, Windsurf, AntiGravity, Zed] && i < |targets|
    ensures targets[i] !in targets[..i] && !IsSwept(targets[i]) && ServerClient(targets[i])
  {
  }

  lemma EveryClient(c: Client)
    ensures IsSwept(c) || c in [ClaudeJson, Cursor, Gemini, Windsurf, AntiGravity, Zed] || c == Codex
  {
  }

  lemma HooksDistinct(loaded: seq<Member>, items: seq<Member>)
    requires WellFormed(JObject(loaded)) && Get(loaded, "hooks") == Some(JObject(items))
    ensures DistinctKeys(items)
  {
    var i := IndexOf(loaded, "hooks");
    assert WellFormed(loaded[i].value);
  }

  lemma RemovedHooks(loaded: seq<Member>, items: seq<Member>)
    requires Get(loaded, "hooks") == Some(JObject(items))
    ensures RemoveHooks(loaded) == if AnyChanges(items) then Some(WithHooks(loaded, CleanEvents(items))) else None
  {
    hide Get, Put, Pop, AnyChanges, CleanEvents;
  }
}
