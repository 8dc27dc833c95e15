/**
  The MCP server settings (src/main/mcp.ts): the servers the user added
  (`plugins.mcp.servers`), the servers installed from a registry
  (`mcpServers`, keyed by registry id) with their disabled list, and the
  naming of the tools the servers expose. Connections, transports and the
  tool-call RPC are outside the model; a connected client is its server's
  uuid and the names of its tools.
 */
module Mcp {
  import opened Wrappers
  import opened JsString
  import opened Seqs
  import opened Json

  datatype ServerState = Enabled | Disabled
  datatype ServerType = Stdio | Sse

  /** A server as the settings screen sees it; `uuid` is `null` for a server being created. */
  datatype McpServer = McpServer(
    uuid: Option<string>,
    registryId: string,
    state: ServerState,
    kind: ServerType,
    command: string,
    url: string,
    env: map<string, string>)

  /** One entry of `mcpServers`: a command line and its environment, under its registry key. */
  datatype RegistryEntry = RegistryEntry(key: string, command: string, args: seq<string>, env: map<string, string>)

  /**
    The MCP part of the settings. `registry` lists `mcpServers` in key order;
    `disabled` is `plugins.mcp.disabledMcpServers`, which may be missing.
   */
  datatype McpConfig = McpConfig(servers: seq<McpServer>, disabled: Option<seq<string>>, registry: seq<RegistryEntry>)

  /** Object keys are distinct. */
  predicate UniqueKeys(reg: seq<RegistryEntry>) {
    forall i, j :: 0 <= i < j < |reg| ==> reg[i].key != reg[j].key
  }

  function Keys(reg: seq<RegistryEntry>): (r: seq<string>)
    ensures |r| == |reg| && forall i :: 0 <= i < |reg| ==> r[i] == reg[i].key
  {
    seq(|reg|, i requires 0 <= i < |reg| => reg[i].key)
  }

  /** `mcpServers[key]`: where the entry with that key is, if there is one. */
  function KeyIndex(reg: seq<RegistryEntry>, key: string): (r: Option<nat>)
    ensures r.None? <==> key !in Keys(reg)
    ensures r.Some? ==> r.value < |reg| && reg[r.value].key == key
    ensures r.Some? ==> forall j :: 0 <= j < r.value ==> reg[j].key != key
  {
    if |reg| == 0 then None
    else if reg[0].key == key then Some(0)
    else match KeyIndex(reg[1..], key)
      case None => None
      case Some(i) => Some(i + 1)
  }

  /** The server list shows a registry server as disabled exactly when its key is in the disabled list. */
  predicate IsDisabled(cfg: McpConfig, key: string) {
    cfg.disabled.Some? && key in cfg.disabled.value
  }

  /** How getServers lists a registry entry: the first '@' of the key dropped for the uuid, arguments joined by spaces. */
  function Listed(cfg: McpConfig, e: RegistryEntry): McpServer {
    McpServer(
      Some(ReplaceFirst(e.key, "@", "")),
      e.key,
      if IsDisabled(cfg, e.key) then Disabled else Enabled,
      Stdio,
      e.command,
      Join(e.args, ' '),
      e.env)
  }

  /** getServers: the user's servers, then one stdio server per registry entry, in key order. */
  function GetServers(cfg: McpConfig): (r: seq<McpServer>)
    ensures |r| == |cfg.servers| + |cfg.registry|
    ensures r[..|cfg.servers|] == cfg.servers
    ensures forall i :: 0 <= i < |cfg.registry| ==>
      var s := r[|cfg.servers| + i];
      && s.registryId == cfg.registry[i].key && s.kind == Stdio
      && (s.state == Disabled <==> IsDisabled(cfg, cfg.registry[i].key))
      && s.command == cfg.registry[i].command && s.env == cfg.registry[i].env
      && s.uuid == Some(ReplaceFirst(cfg.registry[i].key, "@", ""))
      && s.url == Join(cfg.registry[i].args, ' ')
  {
    cfg.servers + seq(|cfg.registry|, i requires 0 <= i < |cfg.registry| => Listed(cfg, cfg.registry[i]))
  }

  /** A listed server's url splits back into the entry's arguments when none of them holds a space. */
  lemma ListedArgsRoundTrip(cfg: McpConfig, e: RegistryEntry)
    requires |e.args| >= 1 && forall i :: 0 <= i < |e.args| ==> ' ' !in e.args[i]
    ensures Split(Listed(cfg, e).url, ' ') == e.args
  {
    SplitJoin(e.args, ' ');
  }

  /* ---------------------------------------------------------- deleteServer */

  /** Some user server has this uuid. */
  predicate HasServer(servers: seq<McpServer>, uuid: Option<string>) {
    exists i :: 0 <= i < |servers| && servers[i].uuid == uuid
  }

  /** `servers.filter(s => s.uuid !== uuid)`. */
  function Without(servers: seq<McpServer>, uuid: Option<string>): (r: seq<McpServer>)
    ensures forall s :: s in r <==> s in servers && s.uuid != uuid
    ensures !HasServer(servers, uuid) ==> r == servers
    ensures HasServer(servers, uuid) ==> |r| < |servers|
  {
    if |servers| == 0 then []
    else if servers[0].uuid == uuid then Without(servers[1..], uuid)
    else
      assert HasServer(servers, uuid) ==> HasServer(servers[1..], uuid) by {
        if HasServer(servers, uuid) {
          var i :| 0 <= i < |servers| && servers[i].uuid == uuid;
          assert servers[1..][i - 1] == servers[i];
        }
      }
      [servers[0]] + Without(servers[1..], uuid)
  }

  /**
    deleteServer: the user's servers with that uuid, else the registry entry
    keyed by the uuid, else the one keyed by '@' and the uuid. The flag says
    whether anything was deleted; when nothing was, the settings are as they were.
   */
  function DeleteServer(cfg: McpConfig, uuid: string): (r: (McpConfig, bool))
    ensures r.1 <==> HasServer(cfg.servers, Some(uuid)) || uuid in Keys(cfg.registry) || "@" + uuid in Keys(cfg.registry)
    ensures !r.1 ==> r.0 == cfg
    ensures r.0.disabled == cfg.disabled
    ensures HasServer(cfg.servers, Some(uuid)) ==>
      r.0.registry == cfg.registry && !HasServer(r.0.servers, Some(uuid))
      && forall s :: s in cfg.servers && s.uuid != Some(uuid) ==> s in r.0.servers
    ensures !HasServer(cfg.servers, Some(uuid)) ==> r.0.servers == cfg.servers
    ensures !HasServer(cfg.servers, Some(uuid)) && r.1 ==> |r.0.registry| == |cfg.registry| - 1
    ensures !HasServer(cfg.servers, Some(uuid)) && uuid in Keys(cfg.registry) ==>
      r.0.registry == RemoveAt(cfg.registry, KeyIndex(cfg.registry, uuid).value)
    ensures !HasServer(cfg.servers, Some(uuid)) && uuid !in Keys(cfg.registry) && "@" + uuid in Keys(cfg.registry) ==>
      r.0.registry == RemoveAt(cfg.registry, KeyIndex(cfg.registry, "@" + uuid).value)
  {
    if HasServer(cfg.servers, Some(uuid)) then
      assert forall s :: s in Without(cfg.servers, Some(uuid)) ==> s.uuid != Some(uuid);
      assert !HasServer(Without(cfg.servers, Some(uuid)), Some(uuid)) by {
        var w := Without(cfg.servers, Some(uuid));
        forall i | 0 <= i < |w| ensures w[i].uuid != Some(uuid) {
          assert w[i] in w;
        }
      }
      (cfg.(servers := Without(cfg.servers, Some(uuid))), true)
    else match KeyIndex(cfg.registry, uuid)
      case Some(i) => (cfg.(registry := RemoveAt(cfg.registry, i)), true)
      case None =>
        match KeyIndex(cfg.registry, "@" + uuid)
        case Some(i) => (cfg.(registry := RemoveAt(cfg.registry, i)), true)
        case None => (cfg, false)
  }

  lemma OccursAtChar(s: string, c: char, i: int)
    ensures OccursAt(s, [c], i) <==> 0 <= i < |s| && s[i] == c
  {
    if 0 <= i < |s| {
      assert s[i..i + 1] == [s[i]];
    }
  }

  /** A key that has no '@' is listed under itself. */
  lemma ListedUuidPlain(key: string)
    requires '@' !in key
    ensures ReplaceFirst(key, "@", "") == key
  {
    if Contains(key, "@") {
      var i :| 0 <= i <= |key| && OccursAt(key, "@", i);
      OccursAtChar(key, '@', i);
    }
  }

  /** A key that starts with '@' is listed under the rest of it. */
  lemma ListedUuidScoped(key: string)
    requires |key| > 0 && key[0] == '@'
    ensures ReplaceFirst(key, "@", "") == key[1..]
    ensures "@" + key[1..] == key
  {
    OccursAtChar(key, '@', 0);
    assert OccursAt(key, "@", 0);
  }

  /**
    Deleting a listed registry server by the uuid getServers gave it removes
    exactly its entry, as long as its key has no '@' past the first
    character, no user server shares the uuid, and no other key equals it.
   */
  lemma DeleteListedEntry(cfg: McpConfig, i: nat)
    requires UniqueKeys(cfg.registry) && i < |cfg.registry|
    requires var k := cfg.registry[i].key; '@' !in k || (|k| > 0 && k[0] == '@' && '@' !in k[1..])
    requires var u := Listed(cfg, cfg.registry[i]).uuid.value;
      !HasServer(cfg.servers, Some(u)) && (u == cfg.registry[i].key || u !in Keys(cfg.registry))
    ensures var r := DeleteServer(cfg, Listed(cfg, cfg.registry[i]).uuid.value);
      r.1 && r.0.registry == RemoveAt(cfg.registry, i) && r.0.servers == cfg.servers
  {
    var k := cfg.registry[i].key;
    var u := Listed(cfg, cfg.registry[i]).uuid.value;
    if '@' !in k {
      ListedUuidPlain(k);
      assert KeyIndex(cfg.registry, u) == Some(i);
    } else {
      ListedUuidScoped(k);
      assert u == k[1..];
      assert u != k;
      assert KeyIndex(cfg.registry, u).None?;
      assert KeyIndex(cfg.registry, "@" + u) == Some(i);
    }
  }

  /** A key with an inner '@' is listed under a uuid deleteServer cannot find. */
  lemma DeleteMissesInnerAt()
    ensures var cfg := McpConfig([], None, [RegistryEntry("a@b", "c", [], map[])]);
      Listed(cfg, cfg.registry[0]).uuid == Some("ab") && !DeleteServer(cfg, "ab").1
  {
    var cfg := McpConfig([], None, [RegistryEntry("a@b", "c", [], map[])]);
    OccursAtChar("a@b", '@', 0);
    OccursAtChar("a@b", '@', 1);
    assert OccursAt("a@b", "@", 1);
    assert ReplaceFirst("a@b", "@", "") == "ab";
    assert Keys(cfg.registry) == ["a@b"];
  }

  /* ------------------------------------------------------------ editServer */

  /** A user server's connection settings replaced by the edited server's. */
  function Retarget(s: McpServer, edited: McpServer): McpServer {
    s.(kind := edited.kind, state := edited.state, command := edited.command, url := edited.url, env := edited.env)
  }

  /** `servers.find(s => s.uuid === uuid)`, as the index of the first match. */
  function FindServer(servers: seq<McpServer>, uuid: Option<string>): (r: Option<nat>)
    ensures r.None? <==> !HasServer(servers, uuid)
    ensures r.Some? ==> r.value < |servers| && servers[r.value].uuid == uuid
    ensures r.Some? ==> forall j :: 0 <= j < r.value ==> servers[j].uuid != uuid
  {
    if |servers| == 0 then None
    else if servers[0].uuid == uuid then Some(0)
    else
      var rest := FindServer(servers[1..], uuid);
      assert HasServer(servers, uuid) ==> HasServer(servers[1..], uuid) by {
        if HasServer(servers, uuid) {
          var i :| 0 <= i < |servers| && servers[i].uuid == uuid;
          assert servers[1..][i - 1] == servers[i];
        }
      }
      match rest
      case None => None
      case Some(i) =>
        assert servers[1..][i] == servers[i + 1];
        Some(i + 1)
  }

  /** The first user server with the edited server's uuid takes its settings; the flag says whether one did. */
  function UpdateFirst(servers: seq<McpServer>, edited: McpServer): (r: (seq<McpServer>, bool))
    ensures |r.0| == |servers|
    ensures r.1 <==> HasServer(servers, edited.uuid)
    ensures !r.1 ==> r.0 == servers
    ensures r.1 ==> exists i :: (0 <= i < |servers| && servers[i].uuid == edited.uuid
      && (forall j :: 0 <= j < i ==> servers[j].uuid != edited.uuid)
      && r.0 == servers[i := Retarget(servers[i], edited)])
  {
    match FindServer(servers, edited.uuid)
    case None => (servers, false)
    case Some(i) => (servers[i := Retarget(servers[i], edited)], true)
  }

  /** `list.filter(s => s !== id)`. */
  function Drop(list: seq<string>, id: string): (r: seq<string>)
    ensures forall x :: x in r <==> x in list && x != id
    ensures |r| <= |list|
  {
    if |list| == 0 then []
    else if list[0] == id then Drop(list[1..], id)
    else [list[0]] + Drop(list[1..], id)
  }

  /**
    The disabled list after an edit: a disabled server's id is added when
    missing, the list created if there was none; an enabled server's id is
    filtered out, which throws when there is no list.
   */
  function DisabledAfter(disabled: Option<seq<string>>, id: string, state: ServerState): (r: Result<Option<seq<string>>, JsError>)
    ensures r.Failure? <==> state == Enabled && disabled.None?
    ensures r.Success? ==> r.value.Some?
    ensures r.Success? ==> (id in r.value.value <==> state == Disabled)
    ensures r.Success? ==> forall x :: x != id ==> (x in r.value.value <==> disabled.Some? && x in disabled.value)
  {
    match state
    case Disabled =>
      var list := if disabled.None? then [] else disabled.value;
      Success(Some(if id in list then list else list + [id]))
    case Enabled =>
      if disabled.None? then Failure(TypeError) else Success(Some(Drop(disabled.value, id)))
  }

  /** The outcome of editServer: the settings to save, the server to reconnect, whether anything was edited. */
  datatype Edit = Edit(config: McpConfig, server: McpServer, edited: bool)

  /** A server without uuid gets the fresh one, also as its registry id, and is added to the user's servers. */
  function Created(cfg: McpConfig, server: McpServer, freshUuid: string): (McpConfig, McpServer) {
    if server.uuid.None? then
      var s := server.(uuid := Some(freshUuid), registryId := freshUuid);
      (cfg.(servers := cfg.servers + [s]), s)
    else (cfg, server)
  }

  /**
    editServer: create the server if it has no uuid, update the first user
    server with its uuid, and update the registry entry keyed by its registry
    id (command, arguments split on spaces, environment, disabled list).
   */
  function EditServer(cfg: McpConfig, server: McpServer, freshUuid: string): (r: Result<Edit, JsError>)
    ensures var (c1, s1) := Created(cfg, server, freshUuid);
      r.Failure? <==> s1.registryId in Keys(cfg.registry) && s1.state == Enabled && cfg.disabled.None?
    ensures r.Success? ==> r.value.server.uuid.Some?
    ensures r.Success? ==> (r.value.edited <==>
      server.uuid.None? || HasServer(cfg.servers, server.uuid) || server.registryId in Keys(cfg.registry))
    ensures r.Success? ==> Keys(r.value.config.registry) == Keys(cfg.registry)
    ensures r.Success? && server.uuid.Some? ==> |r.value.config.servers| == |cfg.servers|
    ensures r.Success? && server.uuid.None? ==> |r.value.config.servers| == |cfg.servers| + 1
    ensures r.Success? && server.uuid.None? ==>
      && r.value.server == server.(uuid := Some(freshUuid), registryId := freshUuid)
      && r.value.config.servers[|cfg.servers|] == r.value.server
    ensures r.Success? && server.uuid.Some? ==> r.value.server == server
    ensures r.Success? && r.value.server.registryId !in Keys(cfg.registry) ==> r.value.config.disabled == cfg.disabled
  {
    var (c1, s1) := Created(cfg, server, freshUuid);
    var (servers, updated) := UpdateFirst(c1.servers, s1);
    assert server.uuid.None? ==> HasServer(c1.servers, s1.uuid) && servers[|cfg.servers|] == s1 by {
      if server.uuid.None? {
        assert c1.servers[|cfg.servers|] == s1;
        assert Retarget(s1, s1) == s1;
      }
    }
    match KeyIndex(c1.registry, s1.registryId)
    case None => Success(Edit(c1.(servers := servers), s1, server.uuid.None? || updated))
    case Some(i) =>
      var disabled :- DisabledAfter(c1.disabled, s1.registryId, s1.state);
      var entry := RegistryEntry(s1.registryId, s1.command, Split(s1.url, ' '), s1.env);
      var registry := c1.registry[i := entry];
      assert Keys(registry) == Keys(c1.registry);
      Success(Edit(McpConfig(servers, disabled, registry), s1, true))
  }

  /**
    Editing a registry server and listing the servers again shows the edit:
    the same command, url, environment and state at the same place.
   */
  lemma EditThenList(cfg: McpConfig, server: McpServer, freshUuid: string, i: nat)
    requires UniqueKeys(cfg.registry) && i < |cfg.registry|
    requires server.uuid.Some? && server.registryId == cfg.registry[i].key
    requires EditServer(cfg, server, freshUuid).Success?
    ensures var c := EditServer(cfg, server, freshUuid).value.config;
      var s := GetServers(c)[|c.servers| + i];
      && s.registryId == server.registryId && s.command == server.command
      && s.url == server.url && s.env == server.env && s.state == server.state
  {
    var c := EditServer(cfg, server, freshUuid).value.config;
    assert KeyIndex(cfg.registry, server.registryId) == Some(i);
    JoinSplit(server.url, ' ');
    assert c.registry[i] == RegistryEntry(server.registryId, server.command, Split(server.url, ' '), server.env);
  }

  predicate NoDuplicates(list: seq<string>) {
    forall i, j :: 0 <= i < j < |list| ==> list[i] != list[j]
  }

  lemma {:induction false} DropKeepsNoDuplicates(list: seq<string>, id: string)
    requires NoDuplicates(list)
    ensures NoDuplicates(Drop(list, id))
  {
    if |list| > 0 {
      DropKeepsNoDuplicates(list[1..], id);
      if list[0] != id {
        assert list[0] !in list[1..];
        assert list[0] !in Drop(list[1..], id);
      }
    }
  }

  /** Editing never lists a server twice in the disabled list. */
  lemma EditKeepsDisabledDistinct(cfg: McpConfig, server: McpServer, freshUuid: string)
    requires cfg.disabled.Some? ==> NoDuplicates(cfg.disabled.value)
    requires EditServer(cfg, server, freshUuid).Success?
    ensures var d := EditServer(cfg, server, freshUuid).value.config.disabled;
      d.Some? ==> NoDuplicates(d.value)
  {
    var (c1, s1) := Created(cfg, server, freshUuid);
    if KeyIndex(c1.registry, s1.registryId).Some? && s1.state == Enabled {
      DropKeepsNoDuplicates(c1.disabled.value, s1.registryId);
    }
  }

  /* ---------------------------------------------------------- tool naming */

  /** The separator between a tool's name and its server's uuid. */
  const SEPARATOR: string := "___"

  /** uniqueToolName: the tool's name, the separator, the server's uuid. */
  function UniqueToolName(name: string, uuid: string): (r: string)
    ensures |r| == |name| + |SEPARATOR| + |uuid|
    ensures r[..|name|] == name && r[|name|..] == SEPARATOR + uuid
  {
    name + SEPARATOR + uuid
  }

  /** A server uuid the suffix stripping can rely on: non-empty and without '_'. */
  predicate PlainUuid(uuid: string) {
    |uuid| > 0 && '_' !in uuid
  }

  /**
    callTool's stripping undoes uniqueToolName when the uuid is plain and
    the tool's name does not itself contain the suffix.
   */
  lemma StripUniqueName(name: string, uuid: string)
    requires PlainUuid(uuid) && !Contains(name, SEPARATOR + uuid)
    ensures ReplaceFirst(UniqueToolName(name, uuid), SEPARATOR + uuid, "") == name
  {
    var p := SEPARATOR + uuid;
    var s := UniqueToolName(name, uuid);
    assert s[|name|..|name| + |p|] == p;
    assert OccursAt(s, p, |name|);
    forall j | 0 <= j < |name|
      ensures !OccursAt(s, p, j)
    {
      NoEarlierOccurrence(name, uuid, j);
    }
    assert IndexOf(s, p) == Some(|name|);
    assert s[..|name|] == name;
    assert s[|name| + |p|..] == [];
  }

  lemma NoEarlierOccurrence(name: string, uuid: string, j: nat)
    requires PlainUuid(uuid) && !Contains(name, SEPARATOR + uuid) && j < |name|
    ensures !OccursAt(UniqueToolName(name, uuid), SEPARATOR + uuid, j)
  {
    var p := SEPARATOR + uuid;
    var s := UniqueToolName(name, uuid);
    var n := |name|;
    if j + |p| <= n {
      assert s[j..j + |p|] == name[j..j + |p|];
      assert !OccursAt(name, p, j);
    } else {
      // The window straddles the end of the name: one of the real suffix's
      // underscores faces a character of the uuid.
      var m := if n - j >= 3 then n - j else 3;
      assert p[m] == uuid[m - 3];
      assert uuid[m - 3] in uuid;
      assert s[j + m] == '_';
      assert s[j..j + |p|][m] != p[m];
    }
  }

  /** Without the plain-uuid condition the stripping can cut the wrong occurrence. */
  lemma StraddlingSuffix()
    ensures !Contains("___a", "___a___")
    ensures ReplaceFirst(UniqueToolName("___a", "a___"), "___a___", "") == "a___"
  {
    var s := UniqueToolName("___a", "a___");
    assert s == "___a___a___";
    assert OccursAt(s, "___a___", 0);
    assert IndexOf(s, "___a___") == Some(0);
  }

  /** The length of the longest suffix of `s` without '_'. */
  function PlainSuffixLength(s: string): (r: nat)
    ensures r <= |s|
  {
    if |s| == 0 || s[|s| - 1] == '_' then 0 else 1 + PlainSuffixLength(s[..|s| - 1])
  }

  lemma {:induction false} PlainSuffixOfUniqueName(a: string, u: string)
    requires '_' !in u
    ensures PlainSuffixLength(UniqueToolName(a, u)) == |u|
  {
    var s := UniqueToolName(a, u);
    if |u| > 0 {
      assert u[|u| - 1] in u;
      assert s[..|s| - 1] == UniqueToolName(a, u[..|u| - 1]);
      PlainSuffixOfUniqueName(a, u[..|u| - 1]);
    }
  }

  /** Two equal unique names over plain uuids name the same server. */
  lemma UuidDetermined(a: string, u: string, b: string, v: string)
    requires PlainUuid(u) && PlainUuid(v)
    requires UniqueToolName(a, u) == UniqueToolName(b, v)
    ensures u == v
  {
    var s := UniqueToolName(a, u);
    PlainSuffixOfUniqueName(a, u);
    PlainSuffixOfUniqueName(b, v);
    assert u == s[|s| - |u|..] == v;
  }

  /** A connected client: its server's uuid and the names of the server's tools. */
  datatype Client = Client(uuid: string, toolNames: seq<string>)

  /** The tool names a client answers to, as connectToServer records them. */
  function Tools(c: Client): (r: seq<string>)
    ensures |r| == |c.toolNames| && forall i :: 0 <= i < |r| ==> r[i] == UniqueToolName(c.toolNames[i], c.uuid)
  {
    seq(|c.toolNames|, i requires 0 <= i < |c.toolNames| => UniqueToolName(c.toolNames[i], c.uuid))
  }

  /** The first client answering to the name. */
  function FindClient(clients: seq<Client>, name: string): (r: Option<nat>)
    ensures r.None? <==> forall i :: 0 <= i < |clients| ==> name !in Tools(clients[i])
    ensures r.Some? ==> r.value < |clients| && name in Tools(clients[r.value])
  {
    if |clients| == 0 then None
    else if name in Tools(clients[0]) then Some(0)
    else match FindClient(clients[1..], name)
      case None => None
      case Some(i) => Some(i + 1)
  }

  datatype ToolError = ToolNotFound

  /** The client to call and the tool name it knows. */
  datatype Call = Call(client: nat, tool: string)

  /** callTool: the first client answering to the name, with the uuid suffix replaced away. */
  function CallTool(clients: seq<Client>, name: string): (r: Result<Call, ToolError>)
    ensures r.Failure? <==> forall i :: 0 <= i < |clients| ==> name !in Tools(clients[i])
    ensures r.Success? ==> r.value.client < |clients| && name in Tools(clients[r.value.client])
  {
    match FindClient(clients, name)
    case None => Failure(ToolNotFound)
    case Some(i) => Success(Call(i, ReplaceFirst(name, SEPARATOR + clients[i].uuid, "")))
  }

  /**
    With distinct plain uuids, calling a tool by its unique name reaches the
    server that offers it, under the tool's own name.
   */
  lemma CallToolReachesOwner(clients: seq<Client>, i: nat, k: nat)
    requires forall c :: c in clients ==> PlainUuid(c.uuid)
    requires forall a, b :: 0 <= a < b < |clients| ==> clients[a].uuid != clients[b].uuid
    requires i < |clients| && k < |clients[i].toolNames|
    requires !Contains(clients[i].toolNames[k], SEPARATOR + clients[i].uuid)
    ensures CallTool(clients, UniqueToolName(clients[i].toolNames[k], clients[i].uuid))
      == Success(Call(i, clients[i].toolNames[k]))
  {
    var name := UniqueToolName(clients[i].toolNames[k], clients[i].uuid);
    assert name == Tools(clients[i])[k];
    var j := FindClient(clients, name).value;
    var m :| 0 <= m < |Tools(clients[j])| && Tools(clients[j])[m] == name;
    assert clients[j] in clients && clients[i] in clients;
    UuidDetermined(clients[j].toolNames[m], clients[j].uuid, clients[i].toolNames[k], clients[i].uuid);
    assert j == i;
    StripUniqueName(clients[i].toolNames[k], clients[i].uuid);
  }

  /* ------------------------------------------------------------ mcpToOpenAI */

  /** The longest description passed to the model. */
  const MAX_DESCRIPTION: nat := 1024

  /** One input property of an MCP tool: its JSON-schema type, description and item type. */
  datatype PropSchema = PropSchema(kind: Option<Json>, description: Option<string>, items: Option<Json>)
  datatype Property = Property(key: string, schema: PropSchema)

  /** An MCP tool as listed by its server; description and properties may be missing. */
  datatype McpTool = McpTool(name: string, description: Option<string>, properties: Option<seq<Property>>, required: Option<Json>)

  datatype LlmProp = LlmProp(key: string, kind: Option<Json>, description: string, items: Option<Json>)

  /** The OpenAI function description of a tool: name, description, parameter properties, required list. */
  datatype LlmTool = LlmTool(name: string, description: string, properties: seq<LlmProp>, required: Option<Json>)

  /** One parameter: the description falls back to the key; arrays name their items, "string" by default. */
  function ConvertProperty(p: Property): (r: LlmProp)
    ensures r.key == p.key && r.kind == p.schema.kind
    ensures |r.description| <= MAX_DESCRIPTION
    ensures p.schema.description.Some? && p.schema.description.value != "" ==>
      r.description == SlicePrefix(p.schema.description.value, MAX_DESCRIPTION)
    ensures (p.schema.description.None? || p.schema.description.value == "") ==>
      r.description == SlicePrefix(p.key, MAX_DESCRIPTION)
    ensures r.items.Some? <==> p.schema.kind == Some(JStr("array"))
    ensures r.items.Some? && Truthy(p.schema.items) ==> r.items == p.schema.items
    ensures r.items.Some? && !Truthy(p.schema.items) ==> r.items == Some(JStr("string"))
  {
    var s := p.schema;
    var description := if s.description.Some? && s.description.value != "" then s.description.value else p.key;
    var items := if s.kind == Some(JStr("array")) then Some(if Truthy(s.items) then s.items.value else JStr("string")) else None;
    LlmProp(p.key, s.kind, SlicePrefix(description, MAX_DESCRIPTION), items)
  }

  function ConvertProperties(ps: seq<Property>): (r: seq<LlmProp>)
    ensures |r| == |ps| && forall i :: 0 <= i < |ps| ==> r[i] == ConvertProperty(ps[i])
  {
    seq(|ps|, i requires 0 <= i < |ps| => ConvertProperty(ps[i]))
  }

  /**
    mcpToOpenAI as written: reading `description.slice` or the keys of the
    properties throws when the tool leaves either out.
   */
  function McpToOpenAI(uuid: string, tool: McpTool): (r: Result<LlmTool, JsError>)
    ensures r.Failure? <==> tool.description.None? || tool.properties.None?
    ensures r.Success? ==> r.value == McpToOpenAIFixed(uuid, tool)
  {
    if tool.description.None? || tool.properties.None? then Failure(TypeError)
    else Success(McpToOpenAIFixed(uuid, tool))
  }

  /**
    mcpToOpenAI as evidently intended: a tool without description or
    parameters is described with an empty description and no parameters.
   */
  function McpToOpenAIFixed(uuid: string, tool: McpTool): (r: LlmTool)
    ensures r.name == UniqueToolName(tool.name, uuid)
    ensures |r.description| <= MAX_DESCRIPTION
    ensures tool.description.Some? ==> r.description == SlicePrefix(tool.description.value, MAX_DESCRIPTION)
    ensures tool.description.None? ==> r.description == ""
    ensures tool.properties.Some? ==> |r.properties| == |tool.properties.value|
    ensures tool.properties.Some? ==>
      forall i :: 0 <= i < |r.properties| ==> r.properties[i] == ConvertProperty(tool.properties.value[i])
    ensures tool.properties.None? ==> r.properties == []
    ensures r.required == tool.required
  {
    var description := if tool.description.Some? then SlicePrefix(tool.description.value, MAX_DESCRIPTION) else "";
    var properties := if tool.properties.Some? then ConvertProperties(tool.properties.value) else [];
    LlmTool(UniqueToolName(tool.name, uuid), description, properties, tool.required)
  }

  /** getTools for one client as written: the map throws on the first tool that cannot be converted. */
  function ServerTools(uuid: string, tools: seq<McpTool>): (r: Result<seq<LlmTool>, JsError>)
    ensures r.Success? <==> forall i :: 0 <= i < |tools| ==> McpToOpenAI(uuid, tools[i]).Success?
    ensures r.Success? ==> |r.value| == |tools|
    ensures r.Success? ==> forall i :: 0 <= i < |tools| ==> r.value[i] == McpToOpenAIFixed(uuid, tools[i])
  {
    if |tools| == 0 then Success([])
    else
      var first :- McpToOpenAI(uuid, tools[0]);
      var rest :- ServerTools(uuid, tools[1..]);
      assert forall i :: 1 <= i < |tools| ==> tools[i] == tools[1..][i - 1];
      Success([first] + rest)
  }

  /** As written, one parameterless tool hides every tool of its server from the model. */
  lemma ParameterlessToolHidesServer(uuid: string, tools: seq<McpTool>, i: nat)
    requires i < |tools| && tools[i].properties.None?
    ensures ServerTools(uuid, tools).Failure?
  {
  }

  /** getTools for one client as intended: every tool is offered, under its unique name. */
  function ServerToolsFixed(uuid: string, tools: seq<McpTool>): (r: seq<LlmTool>)
    ensures |r| == |tools|
    ensures forall i :: 0 <= i < |tools| ==> r[i].name == UniqueToolName(tools[i].name, uuid)
  {
    seq(|tools|, i requires 0 <= i < |tools| => McpToOpenAIFixed(uuid, tools[i]))
  }

  /** The intended conversion agrees with the written one wherever the written one succeeds. */
  lemma FixedAgreesWhenComplete(uuid: string, tools: seq<McpTool>)
    requires ServerTools(uuid, tools).Success?
    ensures ServerTools(uuid, tools).value == ServerToolsFixed(uuid, tools)
  {
  }

  /** Every tool offered to the model, once called, reaches its own server under its own name. */
  lemma OfferedToolsAreCallable(clients: seq<Client>, i: nat, k: nat, tools: seq<McpTool>)
    requires forall c :: c in clients ==> PlainUuid(c.uuid)
    requires forall a, b :: 0 <= a < b < |clients| ==> clients[a].uuid != clients[b].uuid
    requires i < |clients| && |tools| == |clients[i].toolNames|
    requires forall t :: 0 <= t < |tools| ==> tools[t].name == clients[i].toolNames[t]
    requires k < |tools| && !Contains(tools[k].name, SEPARATOR + clients[i].uuid)
    ensures CallTool(clients, ServerToolsFixed(clients[i].uuid, tools)[k].name) == Success(Call(i, tools[k].name))
  {
    CallToolReachesOwner(clients, i, k);
  }
}
