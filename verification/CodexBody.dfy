/** The lines install_codex_mcp writes between its markers. */
module CodexBody {
  import opened Text
  import opened CodexBlock

  /** The launcher _python_cmd returns. */
  datatype Launcher = Python3 | Py | Python {
    function Command(): string {
      match this
      case Python3 => "python3"
      case Py => "py"
      case Python => "python"
    }
  }

  const URL_OPEN := "[mcp_servers.piloci]\nurl = \""
  const URL_CLOSE := "/mcp/http\"\n"
  const HEADERS := "[mcp_servers.piloci.http_headers]\n"
  const TOKEN_OPEN := "Authorization = \"Bearer "
  const QUOTE_CLOSE := "\"\n"
  const SESSION_START := "\n[[SessionStart]]\n[[SessionStart.hooks]]\n"
  const STOP := "\n[[Stop]]\n[[Stop.hooks]]\n"
  const TYPE := "type = \"command\"\ncommand = \""
  const COMMAND_CLOSE := "2>/dev/null || true\"\n"
  const WINDOWS := "commandWindows = \"python "

  /** One hook table and the text k behind it. */
  function HookTo(table: string, py: Launcher, script: string, k: string): string {
    table + (TYPE + (py.Command() + (" " + ((script + " ") + (COMMAND_CLOSE
      + (WINDOWS + (script + (QUOTE_CLOSE + k))))))))
  }

  function Body(base: string, token: string, py: Launcher, hook: string, stop: string): string {
    URL_OPEN + (base + (URL_CLOSE + (HEADERS + (TOKEN_OPEN + (token + (QUOTE_CLOSE
      + HookTo(SESSION_START, py, hook, HookTo(STOP, py, stop, ""))))))))
  }

  predicate NoHash(s: string) { forall i | 0 <= i < |s| :: s[i] != '#' }

  lemma ConstantsHaveNoHash()
    ensures NoHash(URL_OPEN) && NoHash(URL_CLOSE) && NoHash(HEADERS) && NoHash(TOKEN_OPEN) && NoHash(QUOTE_CLOSE)
    ensures NoHash(SESSION_START) && NoHash(STOP) && NoHash(TYPE) && NoHash(COMMAND_CLOSE) && NoHash(WINDOWS)
    ensures NoHash(" ") && forall py: Launcher :: NoHash(py.Command())
  {
  }

  /** Characters the end marker does not contain behind its first. */
  lemma OutsideMarker()
    ensures forall j | 0 < j < |END| :: END[j] != '/' && END[j] != '"' && END[j] != '2'
    ensures |END| == 24 && END[0] == '#' && END[23] == '<'
  {
  }

  /** The marker cannot begin in text without its first character. */
  lemma ConstantThen(a: string, k: string)
    requires NoHash(a) && !Contains(k, END)
    ensures !Contains(a + k, END)
  {
    hide END;
    OutsideMarker();
    forall i: nat ensures !OccursAt(a + k, END, i) {
      if i < |a| {
        assert i + |END| <= |a + k| ==> (a + k)[i..i + |END|][0] == a[i];
      } else {
        OccursShift(a, k, END, i - |a|);
      }
    }
  }

  lemma ValueThen(v: string, k: string)
    requires !Contains(v, END) && !Contains(k, END)
    requires k != "" && (k[0] == '/' || k[0] == '"' || k[0] == '2')
    ensures !Contains(v + k, END)
  {
    hide END, OccursAt;
    OutsideMarker();
    OccursSplit(v, k, END);
  }

  lemma ValueSpace(v: string)
    requires !Contains(v, END)
    ensures !Contains(v + " ", END)
  {
    hide END;
    OutsideMarker();
    forall i: nat ensures !OccursAt(v + " ", END, i) {
      if i + |END| <= |v| {
        OccursLeft(v, " ", END, i);
      } else {
        assert i + |END| == |v| + 1 ==> (v + " ")[i..i + |END|][23] == ' ';
      }
    }
  }

  lemma HookHasNoEnd(table: string, py: Launcher, script: string, k: string)
    requires NoHash(table) && !Contains(script, END) && !Contains(k, END)
    ensures !Contains(HookTo(table, py, script, k), END)
  {
    hide Contains, END, NoHash, TYPE, WINDOWS;
    ConstantsHaveNoHash();
    var t1 := QUOTE_CLOSE + k;
    ConstantThen(QUOTE_CLOSE, k);
    ValueThen(script, t1);
    var t2 := COMMAND_CLOSE + (WINDOWS + (script + t1));
    ConstantThen(WINDOWS, script + t1);
    ConstantThen(COMMAND_CLOSE, WINDOWS + (script + t1));
    ValueSpace(script);
    ValueThen(script + " ", t2);
    var t3 := (script + " ") + t2;
    ConstantThen(" ", t3);
    ConstantThen(py.Command(), " " + t3);
    ConstantThen(TYPE, py.Command() + (" " + t3));
    ConstantThen(table, TYPE + (py.Command() + (" " + t3)));
  }

  /** No end marker in the URL, the token and the script paths means none between the markers. */
  lemma BodyHasNoEnd(base: string, token: string, py: Launcher, hook: string, stop: string)
    requires !Contains(base, END) && !Contains(token, END) && !Contains(hook, END) && !Contains(stop, END)
    ensures !Contains(Body(base, token, py, hook, stop), END)
  {
    hide Contains, END, NoHash, HookTo, URL_OPEN, HEADERS, TOKEN_OPEN, SESSION_START, STOP;
    ConstantsHaveNoHash();
    EmptyHasNoEnd();
    HookHasNoEnd(STOP, py, stop, "");
    HookHasNoEnd(SESSION_START, py, hook, HookTo(STOP, py, stop, ""));
    var k := HookTo(SESSION_START, py, hook, HookTo(STOP, py, stop, ""));
    var t1 := QUOTE_CLOSE + k;
    ConstantThen(QUOTE_CLOSE, k);
    ValueThen(token, t1);
    ConstantThen(TOKEN_OPEN, token + t1);
    ConstantThen(HEADERS, TOKEN_OPEN + (token + t1));
    var t2 := URL_CLOSE + (HEADERS + (TOKEN_OPEN + (token + t1)));
    ConstantThen(URL_CLOSE, HEADERS + (TOKEN_OPEN + (token + t1)));
    ValueThen(base, t2);
    ConstantThen(URL_OPEN, base + t2);
  }

  lemma EmptyHasNoEnd()
    ensures !Contains("", END)
  {
    hide END;
    OutsideMarker();
    assert forall i: nat :: !OccursAt("", END, i);
  }

  // ---- the same as one reads it ------------------------------------------------------------------------------------

  /** The server's tables. */
  function Server(base: string, token: string): string {
    "[mcp_servers.piloci]\nurl = \"" + base + "/mcp/http\"\n" + "[mcp_servers.piloci.http_headers]\n"
      + "Authorization = \"Bearer " + token + "\"\n"
  }

  /** The table of one hook with its command for a shell and for Windows. */
  function Hook(table: string, py: string, script: string): string {
    table + "type = \"command\"\ncommand = \"" + py + " " + script + " 2>/dev/null || true\"\n"
      + "commandWindows = \"python " + script + "\"\n"
  }

  lemma Flat(a: string, b: string, c: string, d: string, k: string)
    ensures a + (b + (c + (d + k))) == a + b + c + d + k
  {
    assert b + (c + (d + k)) == b + c + d + k;
  }

  lemma SpaceAndRedirect()
    ensures " " + COMMAND_CLOSE == " 2>/dev/null || true\"\n"
  {
  }

  lemma HookText(table: string, c: string, script: string)
    ensures Hook(table, c, script) ==
            table + TYPE + c + " " + script + (" " + COMMAND_CLOSE) + WINDOWS + script + QUOTE_CLOSE
  {
    SpaceAndRedirect();
  }

  lemma HookIs(table: string, py: Launcher, script: string, k: string)
    ensures HookTo(table, py, script, k) == Hook(table, py.Command(), script) + k
  {
    hide TYPE, COMMAND_CLOSE, WINDOWS, QUOTE_CLOSE, Launcher.Command, Hook;
    var c, w := py.Command(), WINDOWS + (script + (QUOTE_CLOSE + k));
    var head := table + TYPE + c + " ";
    HookText(table, c, script);
    Flat(table, TYPE, c, " ", (script + " ") + (COMMAND_CLOSE + w));
    Middle(head, script, COMMAND_CLOSE, w);
    Flat(head + script + (" " + COMMAND_CLOSE), WINDOWS, script, QUOTE_CLOSE, k);
  }

  lemma Middle(head: string, script: string, close: string, w: string)
    ensures head + ((script + " ") + (close + w)) == head + script + (" " + close) + w
  {
  }

  /** The URL stands in the server's table, the token in its headers, and each script under its own event. */
  lemma BodyIs(base: string, token: string, py: Launcher, hook: string, stop: string)
    ensures Body(base, token, py, hook, stop) ==
            Server(base, token) + Hook("\n[[SessionStart]]\n[[SessionStart.hooks]]\n", py.Command(), hook)
              + Hook("\n[[Stop]]\n[[Stop.hooks]]\n", py.Command(), stop)
  {
    hide HookTo, Hook, SESSION_START, STOP, URL_OPEN, URL_CLOSE, HEADERS, TOKEN_OPEN, QUOTE_CLOSE, Launcher.Command;
    TablesAre();
    HookIs(STOP, py, stop, "");
    var second := Hook(STOP, py.Command(), stop);
    assert second + "" == second;
    HookIs(SESSION_START, py, hook, second);
    var k := Hook(SESSION_START, py.Command(), hook) + second;
    Flat(URL_OPEN, base, URL_CLOSE, HEADERS, TOKEN_OPEN + (token + (QUOTE_CLOSE + k)));
    Flat(URL_OPEN + base + URL_CLOSE + HEADERS, TOKEN_OPEN, token, QUOTE_CLOSE, k);
    ServerIs(base, token);
  }

  lemma TablesAre()
    ensures SESSION_START == "\n[[SessionStart]]\n[[SessionStart.hooks]]\n" && STOP == "\n[[Stop]]\n[[Stop.hooks]]\n"
  {
  }

  lemma ServerIs(base: string, token: string)
    ensures Server(base, token) == URL_OPEN + base + URL_CLOSE + HEADERS + TOKEN_OPEN + token + QUOTE_CLOSE
  {
  }
}
