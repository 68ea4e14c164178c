/**
 * The boot script that puts Node-RED inside the multi-tenant application
 * (server/boot/node-red.js): the settings it builds, the admin-role gate in
 * front of the editor, and the interceptor that makes the editor's bulk
 * "save all flows" and "get all flows" act on the caller's tenant only.
 */
module NodeRedBoot {
  import opened Wrappers
  import opened Json
  import opened FlowTable

  // ---------------------------------------------------------------- admin role

  /** `req.accessToken.__data`; roles is None when the property is missing. */
  datatype TokenData = TokenData(roles: Option<seq<string>>)

  /** `req.accessToken`; data is None when `__data` is missing. */
  datatype AccessToken = AccessToken(data: Option<TokenData>)

  const DefaultAdminRole := "NODE_RED_ADMIN"

  /** The roles the token grants, when the token, its data and its roles are all present. */
  function TokenRoles(token: Option<AccessToken>): (r: Option<seq<string>>)
    ensures r.Some? <==> token.Some? && token.value.data.Some? && token.value.data.value.roles.Some?
  {
    if token.Some? && token.value.data.Some? then token.value.data.value.roles else None
  }

  /**
   * isNodeRedAdmin: false for a missing or empty list of admin roles, false
   * without a token, token data or roles; otherwise whether some admin role
   * is among the token's roles.
   */
  method IsNodeRedAdmin(token: Option<AccessToken>, adminRoles: Option<seq<string>>) returns (result: bool)
    ensures adminRoles.None? || adminRoles.value == [] ==> !result
    ensures TokenRoles(token).None? ==> !result
    ensures adminRoles.Some? && TokenRoles(token).Some? ==>
              (result <==> exists i :: 0 <= i < |adminRoles.value| && adminRoles.value[i] in TokenRoles(token).value)
  {
    if adminRoles.None? || |adminRoles.value| == 0 {
      return false;
    }
    var nodeRedAdminRoles := adminRoles.value;
    result := false;
    if token.Some? {
      var instance := token.value.data;
      if instance.Some? && instance.value.roles.Some? {
        var roles := instance.value.roles.value;
        for i := 0 to |nodeRedAdminRoles|
          invariant !result
          invariant forall j :: 0 <= j < i ==> nodeRedAdminRoles[j] !in roles
        {
          result := nodeRedAdminRoles[i] in roles;
          if result {
            break;
          }
        }
      }
    }
  }

  // ---------------------------------------------------------------- requests

  datatype Verb = GET | POST | OtherVerb(name: string)

  /**
   * The parts of an HTTP request the core reads: the URL, the method, the
   * caller's tenant (from the call context), the access token and, for a
   * save, the `flows` array of the body (None when missing or falsy).
   */
  datatype Request = Request(url: string, verb: Verb, callContext: Scope,
                             accessToken: Option<AccessToken>, flows: Option<seq<Json>>)

  /** `s.startsWith(prefix)`. */
  predicate StartsWith(s: string, prefix: string)
  {
    prefix <= s
  }

  /** The body of the 401 response. */
  const UnauthorizedBody := JObj(map["error" := JStr("unauthorized")])

  datatype Verdict = Pass | Unauthorized(status: int, body: Json)

  /** The admin roles the gate checks: the configured list when truthy, else the default role. */
  function EffectiveRoles(configured: Option<seq<string>>): (roles: seq<string>)
    ensures configured.Some? ==> roles == configured.value
    ensures configured.None? ==> roles == [DefaultAdminRole]
  {
    if configured.Some? then configured.value else [DefaultAdminRole]
  }

  /**
   * The gate installed when enableNodeRedAdminRole is true (lines 84-97): a
   * request whose URL starts with the admin root and whose caller is not an
   * admin gets 401; every other request passes.
   */
  method AdminGate(configuredRoles: Option<seq<string>>, adminRoot: string, req: Request) returns (v: Verdict)
    ensures !StartsWith(req.url, adminRoot) ==> v == Pass
    ensures v != Pass ==> v == Unauthorized(401, UnauthorizedBody)
    ensures StartsWith(req.url, adminRoot) && TokenRoles(req.accessToken).None? ==> v != Pass
    ensures StartsWith(req.url, adminRoot) && TokenRoles(req.accessToken).Some? ==>
              (v == Pass <==> exists r :: r in EffectiveRoles(configuredRoles) && r in TokenRoles(req.accessToken).value)
  {
    var nodeRedAdminRoles := EffectiveRoles(configuredRoles);
    if StartsWith(req.url, adminRoot) {
      var admin := IsNodeRedAdmin(req.accessToken, Some(nodeRedAdminRoles));
      if !admin {
        return Unauthorized(401, UnauthorizedBody);
      }
    }
    v := Pass;
  }

  /** Under the default roots the node root "/redapi" begins with the admin root "/red". */
  lemma NodeRootIsGated()
    ensures StartsWith(DefaultNodeRoot, DefaultAdminRoot)
    ensures forall rest :: StartsWith(DefaultNodeRoot + rest, DefaultAdminRoot)
  {
    forall rest ensures StartsWith(DefaultNodeRoot + rest, DefaultAdminRoot) {
      assert (DefaultNodeRoot + rest)[..|DefaultAdminRoot|] == DefaultAdminRoot;
    }
  }

  // ---------------------------------------------------------------- settings

  /** A settings value: JSON data, or a runtime object (the app, a module, a logger) named by its role. */
  datatype Setting = Data(value: Json) | Runtime(name: string)

  predicate SettingTruthy(s: Setting)
  {
    s.Data? ==> Truthy(s.value)
  }

  const DefaultAdminRoot := "/red"
  const DefaultNodeRoot := "/redapi"

  /** The keys the code gives a value of its own (lines 260-273). */
  const DefaultKeys: set<string> := {
    "httpAdminRoot", "httpNodeRoot", "userDir", "nodesDir", "flowFile",
    "editorTheme", "flowFilePretty", "credentialSecret", "functionGlobalContext"
  }

  /** The value the code writes for each default key; userDir depends on running under the test runner. */
  function DefaultValue(key: string, testMode: bool): Setting
  {
    if key == "httpAdminRoot" then Data(JStr(DefaultAdminRoot))
    else if key == "httpNodeRoot" then Data(JStr(DefaultNodeRoot))
    else if key == "userDir" then Data(JStr(if testMode then "test/" else "nodered/"))
    else if key == "nodesDir" then Data(JStr("../nodes"))
    else if key == "flowFile" then Data(JStr("node-red-flows.json"))
    else if key == "editorTheme" then Data(JObj(map["palette" := JObj(map["editable" := JBool(false)])]))
    else if key == "flowFilePretty" then Data(JBool(true))
    else if key == "credentialSecret" then Data(JStr("my-random-string"))
    else Runtime("functionGlobalContext: loopback and the node-red-flow logger")
  }

  /** The settings written in the code, before the settings file is applied. */
  function DefaultSettings(testMode: bool): (m: map<string, Setting>)
    ensures m.Keys == DefaultKeys
    ensures m["httpAdminRoot"] == Data(JStr(DefaultAdminRoot))
  {
    map k | k in DefaultKeys :: DefaultValue(k, testMode)
  }

  /** The keys filled after the file settings are applied, when they are still falsy. */
  const FilledKeys: set<string> := {"logging", "server", "storageModule"}

  function FillValue(key: string): Setting
  {
    if key == "logging" then Runtime("logging: oe-logger handler")
    else if key == "server" then Runtime("app")
    else Runtime("storageModule: oe-node-red-storage")
  }

  /** Node-RED is disabled by `disableNodeRed: true` or by DISABLE_NODE_RED set to "true" or "1". */
  predicate Disabled(disableNodeRed: Json, disableEnv: Option<string>)
  {
    disableNodeRed == JBool(true) || EnvDisables(disableEnv)
  }

  /** The environment variable DISABLE_NODE_RED disables Node-RED when it is "true" or "1". */
  predicate EnvDisables(disableEnv: Option<string>)
  {
    disableEnv == Some("true") || disableEnv == Some("1")
  }

  /** Each key of the settings file replaces the value built so far (the loop of lines 282-286). */
  method ApplyFileSettings(settings: map<string, Setting>, file: map<string, Setting>) returns (r: map<string, Setting>)
    ensures r == settings + file
  {
    r := settings;
    var params := file.Keys;
    while params != {}
      invariant params <= file.Keys
      invariant r.Keys == settings.Keys + (file.Keys - params)
      invariant forall k :: k in file && k !in params ==> r[k] == file[k]
      invariant forall k :: k in settings && (k !in file || k in params) ==> r[k] == settings[k]
      decreases params
    {
      var param :| param in params;
      r := r[param := file[param]];
      params := params - {param};
    }
    assert forall k :: k in r ==> r[k] == (settings + file)[k];
  }

  /** Sets key to its runtime value unless the settings already hold a truthy value there (lines 282-297). */
  function Fill(settings: map<string, Setting>, key: string): (r: map<string, Setting>)
    ensures r.Keys == settings.Keys + {key}
  {
    if key in settings && SettingTruthy(settings[key]) then settings
    else settings[key := FillValue(key)]
  }

  /** A fill keeps a truthy value, sets a missing or falsy one, and leaves every other key alone. */
  lemma FillFacts(settings: map<string, Setting>, key: string)
    ensures key in settings && SettingTruthy(settings[key]) ==> Fill(settings, key)[key] == settings[key]
    ensures !(key in settings && SettingTruthy(settings[key])) ==> Fill(settings, key)[key] == FillValue(key)
    ensures forall k :: k in settings && k != key ==> Fill(settings, key)[k] == settings[k]
  {
  }

  /**
   * The settings getSettings builds: the defaults overridden by the file,
   * then logging, server and storageModule set to their runtime values
   * wherever that left them missing or falsy.
   */
  function Layer(defaults: map<string, Setting>, file: map<string, Setting>): (r: map<string, Setting>)
    ensures r.Keys == defaults.Keys + file.Keys + FilledKeys
  {
    Fill(Fill(Fill(defaults + file, "logging"), "server"), "storageModule")
  }

  /**
   * What Layer means when the defaults leave the three filled keys unset: the
   * file wins over the defaults, and logging, server and storageModule come
   * from the file only when truthy there.
   */
  lemma LayerMeaning(defaults: map<string, Setting>, file: map<string, Setting>)
    requires "logging" !in defaults && "server" !in defaults && "storageModule" !in defaults
    ensures var r := Layer(defaults, file);
      && (forall k :: k in file && k !in FilledKeys ==> r[k] == file[k])
      && (forall k :: k in defaults && k !in file && k !in FilledKeys ==> r[k] == defaults[k])
      && (forall k :: k in FilledKeys ==>
            r[k] == if k in file && SettingTruthy(file[k]) then file[k] else FillValue(k))
  {
    var merged := defaults + file;
    forall k | k in merged && k !in FilledKeys ensures Layer(defaults, file)[k] == merged[k] {
      LayerOther(merged, k);
    }
    forall k | k in FilledKeys
      ensures Layer(defaults, file)[k] == if k in file && SettingTruthy(file[k]) then file[k] else FillValue(k)
    {
      LayerFilled(merged, k);
      assert k in merged ==> k in file && merged[k] == file[k];
    }
  }

  /** The three fills leave every other key as the merge had it. */
  lemma LayerOther(merged: map<string, Setting>, k: string)
    requires k in merged && k !in FilledKeys
    ensures Fill(Fill(Fill(merged, "logging"), "server"), "storageModule")[k] == merged[k]
  {
    var logged := Fill(merged, "logging");
    var served := Fill(logged, "server");
    FillFacts(merged, "logging");
    FillFacts(logged, "server");
    FillFacts(served, "storageModule");
  }

  /** Each filled key ends as its own fill decided on the merge: the later fills do not touch it. */
  lemma LayerFilled(merged: map<string, Setting>, k: string)
    requires k in FilledKeys
    ensures Fill(Fill(Fill(merged, "logging"), "server"), "storageModule")[k] ==
              if k in merged && SettingTruthy(merged[k]) then merged[k] else FillValue(k)
  {
    var logged := Fill(merged, "logging");
    var served := Fill(logged, "server");
    FillFacts(merged, "logging");
    FillFacts(logged, "server");
    FillFacts(served, "storageModule");
    if k == "logging" {
      assert Fill(served, "storageModule")[k] == served[k] == logged[k];
    } else if k == "server" {
      assert Fill(served, "storageModule")[k] == served[k];
      assert k in merged ==> logged[k] == merged[k];
    } else {
      assert k in merged ==> served[k] == logged[k] == merged[k];
    }
  }

  /** Under the built-in defaults, getSettings' result has the layered meaning for every file. */
  lemma DefaultLayers(testMode: bool, file: map<string, Setting>)
    ensures "logging" !in DefaultKeys && "server" !in DefaultKeys && "storageModule" !in DefaultKeys
    ensures var r := Layer(DefaultSettings(testMode), file);
      && r.Keys == DefaultKeys + file.Keys + FilledKeys
      && r["httpAdminRoot"] == (if "httpAdminRoot" in file then file["httpAdminRoot"] else Data(JStr(DefaultAdminRoot)))
      && (forall k :: k in FilledKeys ==>
            r[k] == if k in file && SettingTruthy(file[k]) then file[k] else FillValue(k))
  {
    LayerMeaning(DefaultSettings(testMode), file);
  }

  /** The settings file's contents; an unreadable file contributes nothing. */
  function FileOrEmpty(fileSettings: Option<map<string, Setting>>): (file: map<string, Setting>)
    ensures fileSettings.Some? ==> file == fileSettings.value
    ensures fileSettings.None? ==> file == map[]
  {
    if fileSettings.Some? then fileSettings.value else map[]
  }

  /**
   * getSettings: None (the source's false) when disabled. Otherwise the
   * defaults, each key of the settings file overriding them, and then
   * logging, server and storageModule filled only where still falsy.
   * fileSettings is None when the settings file cannot be loaded.
   */
  method GetSettings(disableNodeRed: Json, disableEnv: Option<string>, testMode: bool,
                     fileSettings: Option<map<string, Setting>>) returns (r: Option<map<string, Setting>>)
    ensures r.None? <==> Disabled(disableNodeRed, disableEnv)
    ensures r.Some? ==> r.value == Layer(DefaultSettings(testMode), FileOrEmpty(fileSettings))
  {
    if disableNodeRed == JBool(true) {
      return None;
    }
    if EnvDisables(disableEnv) {
      return None;
    }
    var settings := BuildSettings(testMode, FileOrEmpty(fileSettings));
    r := Some(settings);
  }

  /** The enabled path of getSettings (lines 260-297): defaults, then the file, then the three fills. */
  method BuildSettings(testMode: bool, file: map<string, Setting>) returns (settings: map<string, Setting>)
    ensures settings == Layer(DefaultSettings(testMode), file)
  {
    settings := ApplyFileSettings(DefaultSettings(testMode), file);
    settings := Fill(settings, "logging");
    settings := Fill(settings, "server");
    settings := Fill(settings, "storageModule");
  }

  // ---------------------------------------------------------------- /flows interceptor

  /** The URLs the interceptor traps: those starting with the admin root followed by "/flows". */
  predicate InterceptsFlows(url: string, adminRoot: string)
  {
    StartsWith(url, adminRoot + "/flows")
  }

  /** The records to create for the submitted flows: `{id: f.id, node: f}` for each f, in order. */
  function Transform(userFlows: seq<Json>): (r: seq<NewFlow>)
    ensures |r| == |userFlows|
    ensures forall i :: 0 <= i < |r| ==> r[i] == NewFlow(Get(userFlows[i], "id"), userFlows[i])
  {
    seq(|userFlows|, i requires 0 <= i < |userFlows| => NewFlow(Get(userFlows[i], "id"), userFlows[i]))
  }

  /**
   * The table after a save by tenant s: the caller's records removed, then the
   * transformed flows created under s when there are any; and whether the
   * create reported success.
   */
  function AfterSave(rs: seq<FlowRecord>, s: Scope, userFlows: Option<seq<Json>>): (r: (seq<FlowRecord>, bool))
  {
    if userFlows.Some? && |userFlows.value| > 0 then CreateAll(OutOfScope(rs, s), s, Transform(userFlows.value))
    else (OutOfScope(rs, s), false)
  }

  /**
   * POST to the flows URL (lines 127-172): remove every record of the caller's
   * tenant, then build `{id: f.id, node: f}` for each submitted flow and create
   * them under the caller's tenant. Nothing is transactional: the remove stays
   * done when the create fails.
   */
  method SaveUserFlows(table: Table, callContext: Scope, userFlows: Option<seq<Json>>) returns (created: bool)
    requires table.Valid()
    modifies table
    ensures table.Valid()
    ensures (table.records, created) == AfterSave(old(table.records), callContext, userFlows)
  {
    table.Remove(callContext);
    created := false;
    if userFlows.Some? && |userFlows.value| > 0 {
      var flows := userFlows.value;
      var newFlows: seq<NewFlow> := [];
      for i := 0 to |flows|
        invariant |newFlows| == i
        invariant forall j :: 0 <= j < i ==> newFlows[j] == NewFlow(Get(flows[j], "id"), flows[j])
      {
        newFlows := newFlows + [NewFlow(Get(flows[i], "id"), flows[i])];
      }
      assert newFlows == Transform(flows);
      created := table.Create(callContext, newFlows);
    }
  }

  /** The flows sent to the editor: the node of each record, in order. */
  function Nodes(rs: seq<FlowRecord>): (nodes: seq<Json>)
    ensures |nodes| == |rs|
    ensures forall i :: 0 <= i < |rs| ==> nodes[i] == rs[i].node
  {
    seq(|rs|, i requires 0 <= i < |rs| => rs[i].node)
  }

  /**
   * The revision carried over from the engine's own body: its rev when both
   * the body and the rev are truthy, else null. An empty body reads as `{}`.
   */
  function RevOf(upstream: Option<Json>): (rev: Json)
    ensures upstream.None? ==> rev == JNull
    ensures upstream.Some? && Truthy(upstream.value) && Truthy(Get(upstream.value, "rev")) ==>
              rev == Get(upstream.value, "rev")
    ensures !(upstream.Some? && Truthy(upstream.value) && Truthy(Get(upstream.value, "rev"))) ==> rev == JNull
  {
    var jsonBody := if upstream.Some? then upstream.value else JObj(map[]);
    if Truthy(jsonBody) && Truthy(Get(jsonBody, "rev")) then Get(jsonBody, "rev") else JNull
  }

  /**
   * GET of the flows URL (lines 184-216): the body the engine would send is
   * replaced by `{flows, rev}` where flows are the nodes of the caller's
   * records, in table order. upstream is the engine's parsed body, None when
   * it is empty.
   */
  method RewriteFlowsBody(table: Table, callContext: Scope, upstream: Option<Json>) returns (body: Json)
    ensures body == JObj(map["flows" := JArr(Nodes(InScope(table.records, callContext))), "rev" := RevOf(upstream)])
  {
    var userflows: seq<Json> := [];
    var rev := RevOf(upstream);
    var currentUserFlows := table.Find(callContext);
    for i := 0 to |currentUserFlows|
      invariant |userflows| == i
      invariant forall j :: 0 <= j < i ==> userflows[j] == currentUserFlows[j].node
    {
      userflows := userflows + [currentUserFlows[i].node];
    }
    assert userflows == Nodes(currentUserFlows);
    body := JObj(map["flows" := JArr(userflows), "rev" := rev]);
  }

  /** What a request leads to in the middleware this boot script installs. */
  datatype Outcome =
    | Rejected(status: int, body: Json)  // the admin gate answered 401
    | Saved(created: bool)               // a save was intercepted; the request goes on
    | Rewritten(body: Json)              // a fetch was intercepted; this body is sent
    | Untouched                          // the request goes on unchanged

  /**
   * Whether the admin gate answers 401: it is installed (enableNodeRedAdminRole
   * is exactly true), the URL is under the admin root, and the token grants
   * none of the effective admin roles.
   */
  predicate GateRejects(enableAdminRole: Json, adminRoot: string, configuredRoles: Option<seq<string>>, req: Request)
  {
    && enableAdminRole == JBool(true)
    && StartsWith(req.url, adminRoot)
    && !(TokenRoles(req.accessToken).Some? &&
         exists r :: r in EffectiveRoles(configuredRoles) && r in TokenRoles(req.accessToken).value)
  }

  /**
   * The middleware in the order it is installed: the admin gate (only when
   * enableNodeRedAdminRole is exactly true), then the flows interceptor.
   * upstream is the engine's body for a fetch. Each request falls in exactly
   * one of four cases: rejected by the gate; a save of the flows URL; a fetch
   * of the flows URL, which leaves the table alone; anything else, untouched.
   */
  method HandleRequest(table: Table, adminRoot: string, enableAdminRole: Json,
                       configuredRoles: Option<seq<string>>, req: Request, upstream: Option<Json>)
    returns (out: Outcome)
    requires table.Valid()
    modifies table
    ensures table.Valid()
    ensures GateRejects(enableAdminRole, adminRoot, configuredRoles, req) ==>
              out == Rejected(401, UnauthorizedBody) && table.records == old(table.records)
    ensures !GateRejects(enableAdminRole, adminRoot, configuredRoles, req) &&
            InterceptsFlows(req.url, adminRoot) && req.verb == POST ==>
              && out.Saved?
              && (table.records, out.created) == AfterSave(old(table.records), req.callContext, req.flows)
    ensures !GateRejects(enableAdminRole, adminRoot, configuredRoles, req) &&
            InterceptsFlows(req.url, adminRoot) && req.verb == GET ==>
              && table.records == old(table.records)
              && out == Rewritten(JObj(map["flows" := JArr(Nodes(InScope(old(table.records), req.callContext))),
                                           "rev" := RevOf(upstream)]))
    ensures !GateRejects(enableAdminRole, adminRoot, configuredRoles, req) &&
            !(InterceptsFlows(req.url, adminRoot) && (req.verb == POST || req.verb == GET)) ==>
              out == Untouched && table.records == old(table.records)
  {
    if enableAdminRole == JBool(true) {
      var verdict := AdminGate(configuredRoles, adminRoot, req);
      if verdict.Unauthorized? {
        return Rejected(verdict.status, verdict.body);
      }
    }
    if InterceptsFlows(req.url, adminRoot) {
      if req.verb == POST {
        var created := SaveUserFlows(table, req.callContext, req.flows);
        return Saved(created);
      } else if req.verb == GET {
        var body := RewriteFlowsBody(table, req.callContext, upstream);
        return Rewritten(body);
      }
    }
    out := Untouched;
  }

  // ---------------------------------------------------------------- tenant isolation

  /** The records of scope s in a table where every record has scope s. */
  lemma {:induction false} InScopeStamp(items: seq<NewFlow>, s: Scope, t: Scope)
    requires t != s
    ensures InScope(Stamp(items, s), s) == Stamp(items, s)
    ensures InScope(Stamp(items, s), t) == []
    ensures OutOfScope(Stamp(items, s), s) == []
  {
    if items != [] {
      InScopeStamp(items[1..], s, t);
      assert Stamp(items, s) == [FlowRecord(items[0].id, Some(s), items[0].node)] + Stamp(items[1..], s);
    }
  }

  /**
   * A save by tenant s never changes what lies outside s (the records of
   * other tenants and those without a tenant, in their order), and when the
   * create succeeds tenant s holds exactly the submitted flows, in order.
   */
  lemma SaveIsolation(rs: seq<FlowRecord>, s: Scope, userFlows: Option<seq<Json>>, t: Scope)
    requires t != s
    ensures OutOfScope(AfterSave(rs, s, userFlows).0, s) == OutOfScope(rs, s)
    ensures InScope(AfterSave(rs, s, userFlows).0, t) == InScope(rs, t)
    ensures AfterSave(rs, s, userFlows).1 ==>
              InScope(AfterSave(rs, s, userFlows).0, s) == Stamp(Transform(userFlows.value), s)
    ensures userFlows.None? || userFlows.value == [] ==> InScope(AfterSave(rs, s, userFlows).0, s) == []
  {
    var kept := OutOfScope(rs, s);
    var after := AfterSave(rs, s, userFlows);
    RemoveIsolation(rs, s, t);
    if userFlows.Some? && |userFlows.value| > 0 {
      var items := Transform(userFlows.value);
      CreateAllIsolation(kept, s, items);
      RemoveIsolation(after.0, s, t);
      if after.1 {
        CreateAllOk(kept, s, items);
        InScopeAppend(kept, Stamp(items, s), s);
        InScopeStamp(items, s, t);
      }
    } else {
      RemoveIsolation(kept, s, t);
    }
  }

  /** Saving the same flows twice in a row for one tenant leaves the same table as saving once. */
  lemma SaveIdempotent(rs: seq<FlowRecord>, s: Scope, userFlows: Option<seq<Json>>)
    ensures AfterSave(AfterSave(rs, s, userFlows).0, s, userFlows).0 == AfterSave(rs, s, userFlows).0
  {
    var t: Scope := s + "'";
    assert t != s by { assert |t| == |s| + 1; }
    SaveIsolation(rs, s, userFlows, t);
    RemoveIsolation(rs, s, t);
  }

  /**
   * Ids are not separated by tenant: when every submitted id is already used
   * by a record outside the caller's tenant, the save reports failure and the
   * caller is left with no records at all.
   */
  lemma CollidingSaveLosesFlows(rs: seq<FlowRecord>, s: Scope, userFlows: seq<Json>)
    requires |userFlows| > 0
    requires forall i :: 0 <= i < |userFlows| ==> Get(userFlows[i], "id") in Ids(OutOfScope(rs, s))
    ensures !AfterSave(rs, s, Some(userFlows)).1
    ensures InScope(AfterSave(rs, s, Some(userFlows)).0, s) == []
  {
    var kept := OutOfScope(rs, s);
    CreateAllTaken(kept, s, Transform(userFlows));
    RemoveIsolation(rs, s, s + "'");
  }
}
