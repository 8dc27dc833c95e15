/**
  Building the settings (src/main/config.ts): the recursive merge of the
  user's settings over the defaults, the migrations of two legacy layouts,
  and the removal of base URLs that only repeat the defaults. Settings are a
  JSON object, `map<string, Json>`.
 */
module Config {
  import opened Wrappers
  import opened Json

  /** Both values are non-null, non-array objects: the case where the merge recurses. */
  predicate BothObjects(d: map<string, Json>, o: map<string, Json>, k: string) {
    k in d && k in o && d[k].JObj? && o[k].JObj?
  }

  /**
    mergeConfig: every key of either side; an override replaces the default
    wholesale (arrays and null included) unless both are objects, which are
    merged recursively. The defaults are a value and cannot be changed.
   */
  function MergeConfig(defaults: map<string, Json>, overrides: map<string, Json>): (r: map<string, Json>)
    ensures r.Keys == defaults.Keys + overrides.Keys
    ensures forall k :: k in defaults && k !in overrides ==> r[k] == defaults[k]
    ensures forall k :: k in overrides && !BothObjects(defaults, overrides, k) ==> r[k] == overrides[k]
    ensures forall k :: BothObjects(defaults, overrides, k) ==>
      r[k].JObj? && r[k].m.Keys == defaults[k].m.Keys + overrides[k].m.Keys
    ensures forall k :: BothObjects(defaults, overrides, k) ==> r[k] == JObj(MergeConfig(defaults[k].m, overrides[k].m))
    decreases JObj(defaults)
  {
    map k | k in defaults.Keys + overrides.Keys ::
      if k in overrides then
        if BothObjects(defaults, overrides, k) then JObj(MergeConfig(defaults[k].m, overrides[k].m))
        else overrides[k]
      else defaults[k]
  }

  /** Merging no overrides gives back the defaults. */
  lemma MergeNothing(defaults: map<string, Json>)
    ensures MergeConfig(defaults, map[]) == defaults
  {
  }

  /** Merging a tree over itself gives it back. */
  lemma {:induction false} MergeSelf(d: map<string, Json>)
    ensures MergeConfig(d, d) == d
    decreases JObj(d)
  {
    var r := MergeConfig(d, d);
    forall k | k in d
      ensures r[k] == d[k]
    {
      if BothObjects(d, d, k) {
        MergeSelf(d[k].m);
      }
    }
  }

  /** Applying the same overrides twice is applying them once. */
  lemma {:induction false} MergeTwice(d: map<string, Json>, o: map<string, Json>)
    ensures MergeConfig(MergeConfig(d, o), o) == MergeConfig(d, o)
    decreases JObj(d)
  {
    var r := MergeConfig(d, o);
    var r2 := MergeConfig(r, o);
    forall k | k in r
      ensures r2[k] == r[k]
    {
      if k in o {
        if BothObjects(d, o, k) {
          MergeTwice(d[k].m, o[k].m);
        } else if o[k].JObj? {
          MergeSelf(o[k].m);
        }
      }
    }
  }

  /** The value at a non-empty key path, descending through objects only. */
  function Lookup(m: map<string, Json>, path: seq<string>): Option<Json>
    decreases |path|
  {
    if |path| == 0 || path[0] !in m then None
    else if |path| == 1 then Some(m[path[0]])
    else match m[path[0]]
      case JObj(sub) => Lookup(sub, path[1..])
      case _ => None
  }

  /** Every non-object value an override sets, at any depth, is what the merged settings hold there. */
  lemma {:induction false} OverrideWins(d: map<string, Json>, o: map<string, Json>, path: seq<string>)
    requires Lookup(o, path).Some? && !Lookup(o, path).value.JObj?
    ensures Lookup(MergeConfig(d, o), path) == Lookup(o, path)
    decreases |path|
  {
    var k := path[0];
    if |path| > 1 && BothObjects(d, o, k) {
      OverrideWins(d[k].m, o[k].m, path[1..]);
    }
  }

  /** The value at `path` is an object. */
  predicate ObjectAt(m: map<string, Json>, path: seq<string>) {
    Lookup(m, path).Some? && Lookup(m, path).value.JObj?
  }

  /**
    A default is kept, at every depth below, where the overrides stop: the
    path runs through objects on both sides down to depth `n`, and the
    overrides have nothing at depth `n`.
   */
  lemma {:induction false} DefaultKept(d: map<string, Json>, o: map<string, Json>, path: seq<string>, n: nat)
    requires 1 <= n <= |path|
    requires forall m :: 1 <= m < n ==> ObjectAt(d, path[..m]) && ObjectAt(o, path[..m])
    requires Lookup(o, path[..n]).None?
    ensures Lookup(MergeConfig(d, o), path) == Lookup(d, path)
    decreases n
  {
    var k := path[0];
    assert path[..1] == [k];
    if n == 1 {
      assert k !in o;
    } else {
      Descend(d, o, path, n);
      DefaultKept(d[k].m, o[k].m, path[1..], n - 1);
      LookupStep(d, path);
      LookupStep(MergeConfig(d, o), path);
    }
  }

  /** Where both sides hold objects at the first key, the conditions of `DefaultKept` hold one level down. */
  lemma Descend(d: map<string, Json>, o: map<string, Json>, path: seq<string>, n: nat)
    requires 1 < n <= |path|
    requires forall m :: 1 <= m < n ==> ObjectAt(d, path[..m]) && ObjectAt(o, path[..m])
    requires Lookup(o, path[..n]).None?
    ensures BothObjects(d, o, path[0])
    ensures forall m :: 1 <= m < n - 1 ==>
      ObjectAt(d[path[0]].m, path[1..][..m]) && ObjectAt(o[path[0]].m, path[1..][..m])
    ensures Lookup(o[path[0]].m, path[1..][..n - 1]).None?
  {
    var k := path[0];
    assert path[..1] == [k];
    assert ObjectAt(d, path[..1]) && ObjectAt(o, path[..1]);
    forall m | 1 <= m < n - 1
      ensures ObjectAt(d[k].m, path[1..][..m]) && ObjectAt(o[k].m, path[1..][..m])
    {
      assert ObjectAt(d, path[..m + 1]) && ObjectAt(o, path[..m + 1]);
      LookupStep(d, path[..m + 1]);
      LookupStep(o, path[..m + 1]);
      assert path[..m + 1][1..] == path[1..][..m];
    }
    LookupStep(o, path[..n]);
    assert path[..n][1..] == path[1..][..n - 1];
  }

  /** Setting only an engine's API key keeps that engine's default base URL. */
  lemma NestedDefaultKept()
    ensures var d := map["engines" := JObj(map["openai" := JObj(map["baseURL" := JStr("u"), "apiKey" := JStr("")])])];
      var o := map["engines" := JObj(map["openai" := JObj(map["apiKey" := JStr("k")])])];
      Lookup(MergeConfig(d, o), ["engines", "openai", "baseURL"]) == Some(JStr("u"))
  {
    var d := map["engines" := JObj(map["openai" := JObj(map["baseURL" := JStr("u"), "apiKey" := JStr("")])])];
    var o := map["engines" := JObj(map["openai" := JObj(map["apiKey" := JStr("k")])])];
    var path := ["engines", "openai", "baseURL"];
    assert path[..1] == ["engines"] && path[..2] == ["engines", "openai"] && path[..3] == path;
    assert ObjectAt(d, path[..1]) && ObjectAt(o, path[..1]);
    assert Lookup(d, path[..2]) == Lookup(d["engines"].m, ["openai"]);
    assert Lookup(o, path[..2]) == Lookup(o["engines"].m, ["openai"]);
    assert ObjectAt(d, path[..2]) && ObjectAt(o, path[..2]);
    assert Lookup(o, path[..3]) == Lookup(o["engines"].m["openai"].m, ["baseURL"]);
    DefaultKept(d, o, path, 3);
  }

  /** Looking up a longer path descends into the object at its first key. */
  lemma LookupStep(m: map<string, Json>, path: seq<string>)
    requires |path| > 1 && path[0] in m && m[path[0]].JObj?
    ensures Lookup(m, path) == Lookup(m[path[0]].m, path[1..])
  {
  }

  /* ------------------------------------------------------------ migrations */

  /** The settings still use the legacy top-level `openai`/`ollama` layout. */
  predicate LegacyEngines(c: map<string, Json>) {
    Truthy(Field(c, "openai")) || Truthy(Field(c, "ollama"))
  }

  /**
    The legacy engine migration as written: a fresh `engines` object holding
    only the top-level `openai` and `ollama`, which are then deleted.
   */
  function MigrateEngines(c: map<string, Json>): (r: map<string, Json>)
    ensures !LegacyEngines(c) ==> r == c
    ensures LegacyEngines(c) ==>
      && "openai" !in r && "ollama" !in r && "engines" in r
      && r["engines"] == JObj(With(With(map[], "openai", Field(c, "openai")), "ollama", Field(c, "ollama")))
      && r.Keys == c.Keys - {"openai", "ollama"} + {"engines"}
      && forall k :: k in c && k !in {"openai", "ollama", "engines"} ==> r[k] == c[k]
  {
    if LegacyEngines(c) then
      var engines := With(With(map[], "openai", Field(c, "openai")), "ollama", Field(c, "ollama"));
      (c - {"openai", "ollama"})["engines" := JObj(engines)]
    else c
  }

  /** The `search` plugin settings a legacy `tavily` plugin becomes. */
  function SearchFromTavily(tavily: Json): map<string, Json> {
    var enabled := Get(tavily, "enabled");
    var engine := JStr(if Truthy(enabled) then "tavily" else "local");
    With(With(map["engine" := engine], "enabled", enabled), "tavilyApiKey", Get(tavily, "apiKey"))
  }

  /**
    The legacy search migration: a truthy `plugins.tavily` becomes
    `plugins.search`, whose engine is "tavily" exactly when tavily was
    enabled, and `tavily` is removed. Reading `plugins` of settings without
    it raises a `TypeError`.
   */
  function MigrateTavily(c: map<string, Json>): (r: Result<map<string, Json>, JsError>)
    ensures r.Failure? <==> Nullish(Field(c, "plugins"))
    ensures r.Success? && !Truthy(Get(c["plugins"], "tavily")) ==> r.value == c
    ensures r.Success? && Truthy(Get(c["plugins"], "tavily")) ==>
      && c["plugins"].JObj?
      && r.value.Keys == c.Keys
      && (forall k :: k in c && k != "plugins" ==> r.value[k] == c[k])
      && r.value["plugins"].JObj?
      && r.value["plugins"].m.Keys == c["plugins"].m.Keys - {"tavily"} + {"search"}
      && (forall k :: k in c["plugins"].m && k !in {"tavily", "search"} ==> r.value["plugins"].m[k] == c["plugins"].m[k])
      && r.value["plugins"].m["search"].JObj?
      && var tavily := c["plugins"].m["tavily"];
      && var search := r.value["plugins"].m["search"].m;
      && "engine" in search
      && (search["engine"] == JStr("tavily") <==> Truthy(Get(tavily, "enabled")))
      && (search["engine"] == JStr("local") <==> !Truthy(Get(tavily, "enabled")))
      && Field(search, "enabled") == Get(tavily, "enabled")
      && Field(search, "tavilyApiKey") == Get(tavily, "apiKey")
  {
    if Nullish(Field(c, "plugins")) then Failure(TypeError)
    else
      var plugins := c["plugins"];
      var tavily := Get(plugins, "tavily");
      if !Truthy(tavily) then Success(c)
      else
        var pm := (plugins.m - {"tavily"})["search" := JObj(SearchFromTavily(tavily.value))];
        Success(c["plugins" := JObj(pm)])
  }

  /* ------------------------------------------------------ nullifyDefaults */

  /** The three default base URLs of the default settings file. */
  datatype DefaultUrls = DefaultUrls(openai: string, ollama: string, sdwebui: string)

  /** A base URL that is empty (loosely) or merely the default is not worth saving. */
  predicate Redundant(baseUrl: Option<Json>, default: string) {
    baseUrl.Some? && (LooseEqualsEmpty(baseUrl.value) || baseUrl.value == JStr(default))
  }

  /** `settings.engines[name].baseURL` can be read: neither `engines` nor the engine is nullish. */
  predicate EngineReadable(s: map<string, Json>, name: string) {
    !Nullish(Field(s, "engines")) && !Nullish(Get(s["engines"], name))
  }

  /** One step of nullifyDefaults: delete `engines[name].baseURL` when it is redundant. */
  function NullifyEngine(s: map<string, Json>, name: string, default: string): (r: Result<map<string, Json>, JsError>)
    ensures r.Failure? <==> !EngineReadable(s, name)
    ensures r.Success? ==> r.value.Keys == s.Keys && forall k :: k in s && k != "engines" ==> r.value[k] == s[k]
    ensures r.Success? ==>
      var engines := s["engines"].m;
      var engine := engines[name];
      && r.value["engines"].JObj? && r.value["engines"].m.Keys == engines.Keys
      && (forall n :: n in engines && n != name ==> r.value["engines"].m[n] == engines[n])
      && (Redundant(Get(engine, "baseURL"), default) ==>
            r.value["engines"].m[name] == JObj(engine.m - {"baseURL"}))
      && (!Redundant(Get(engine, "baseURL"), default) ==> r.value == s)
  {
    if Nullish(Field(s, "engines")) then Failure(TypeError)
    else
      var engines := s["engines"];
      var engine := Get(engines, name);
      if Nullish(engine) then Failure(TypeError)
      else if Redundant(Get(engine.value, "baseURL"), default) then
        Success(s["engines" := JObj(engines.m[name := JObj(engine.value.m - {"baseURL"})])])
      else Success(s)
  }

  /** nullifyDefaults: the openai, ollama and sdwebui engines, in that order. */
  function NullifyDefaults(s: map<string, Json>, urls: DefaultUrls): (r: Result<map<string, Json>, JsError>)
    ensures r.Failure? <==> !(EngineReadable(s, "openai") && EngineReadable(s, "ollama") && EngineReadable(s, "sdwebui"))
    ensures r.Success? ==> r.value.Keys == s.Keys && forall k :: k in s && k != "engines" ==> r.value[k] == s[k]
  {
    var s1 :- NullifyEngine(s, "openai", urls.openai);
    var s2 :- NullifyEngine(s1, "ollama", urls.ollama);
    NullifyEngine(s2, "sdwebui", urls.sdwebui)
  }

  /** An engine's settings after nullifyDefaults: without a redundant base URL, otherwise as they were. */
  function Nullified(engine: Json, default: string): Json
    requires engine.JObj? || !Redundant(Get(engine, "baseURL"), default)
  {
    if Redundant(Get(engine, "baseURL"), default) then JObj(engine.m - {"baseURL"}) else engine
  }

  /** nullifyDefaults touches the three engines' base URLs and nothing else. */
  lemma NullifyDefaultsEffect(s: map<string, Json>, urls: DefaultUrls)
    requires NullifyDefaults(s, urls).Success?
    ensures var r := NullifyDefaults(s, urls).value;
      var engines := s["engines"].m;
      && r["engines"].JObj? && r["engines"].m.Keys == engines.Keys
      && (forall n :: n in engines && n !in {"openai", "ollama", "sdwebui"} ==> r["engines"].m[n] == engines[n])
      && r["engines"].m["openai"] == Nullified(engines["openai"], urls.openai)
      && r["engines"].m["ollama"] == Nullified(engines["ollama"], urls.ollama)
      && r["engines"].m["sdwebui"] == Nullified(engines["sdwebui"], urls.sdwebui)
  {
  }

  /** nullifyDefaults is idempotent: a second pass finds nothing left to remove. */
  lemma NullifyIdempotent(s: map<string, Json>, urls: DefaultUrls)
    requires NullifyDefaults(s, urls).Success?
    ensures NullifyDefaults(NullifyDefaults(s, urls).value, urls) == NullifyDefaults(s, urls)
  {
    var r := NullifyDefaults(s, urls).value;
    NullifyDefaultsEffect(s, urls);
    NullifyDefaultsEffect(r, urls);
  }

  /* ------------------------------------------------------------ buildConfig */

  /** buildConfig: merge, migrate the legacy engines, migrate the legacy search plugin, nullify. */
  function BuildConfig(defaults: map<string, Json>, overrides: map<string, Json>, urls: DefaultUrls): (r: Result<map<string, Json>, JsError>)
    ensures !LegacyEngines(MergeConfig(defaults, overrides)) && r.Success? ==>
      r.value.Keys == defaults.Keys + overrides.Keys
  {
    var merged := MergeConfig(defaults, overrides);
    var c1 := MigrateEngines(merged);
    var c2 :- MigrateTavily(c1);
    NullifyDefaults(c2, urls)
  }

  /**
    As written, the legacy engine migration makes buildConfig fail whenever
    it applies: the fresh `engines` object has no `sdwebui`, so
    nullifyDefaults reads a property of `undefined`.
   */
  lemma LegacyEnginesAlwaysFail(defaults: map<string, Json>, overrides: map<string, Json>, urls: DefaultUrls)
    requires LegacyEngines(MergeConfig(defaults, overrides))
    ensures BuildConfig(defaults, overrides, urls) == Failure(TypeError)
  {
    var c1 := MigrateEngines(MergeConfig(defaults, overrides));
    assert "sdwebui" !in c1["engines"].m;
    match MigrateTavily(c1)
    case Failure(_) =>
    case Success(c2) =>
      assert c2["engines"] == c1["engines"];
      assert !EngineReadable(c2, "sdwebui");
  }

  /** A concrete legacy settings file: `{"openai": {"apiKey": "k"}}` over defaults with all three engines. */
  lemma LegacyExample()
    ensures var engine := JObj(map[]);
      var defaults := map["engines" := JObj(map["openai" := engine, "ollama" := engine, "sdwebui" := engine]),
                          "plugins" := JObj(map[])];
      var overrides := map["openai" := JObj(map["apiKey" := JStr("k")])];
      BuildConfig(defaults, overrides, DefaultUrls("", "", "")) == Failure(TypeError)
  {
    var engine := JObj(map[]);
    var defaults := map["engines" := JObj(map["openai" := engine, "ollama" := engine, "sdwebui" := engine]),
                        "plugins" := JObj(map[])];
    var overrides := map["openai" := JObj(map["apiKey" := JStr("k")])];
    var merged := MergeConfig(defaults, overrides);
    assert Field(merged, "openai") == Some(JObj(map["apiKey" := JStr("k")]));
    LegacyEnginesAlwaysFail(defaults, overrides, DefaultUrls("", "", ""));
  }

  /**
    The legacy engine migration as evidently intended: the legacy values
    are moved into the existing `engines` object, next to the engines it
    already has, and only when they are set.
   */
  function MigrateEnginesFixed(c: map<string, Json>): (r: map<string, Json>)
    ensures !LegacyEngines(c) ==> r == c
    ensures LegacyEngines(c) ==> "openai" !in r && "ollama" !in r && "engines" in r && r["engines"].JObj?
    ensures LegacyEngines(c) ==> forall k :: k in c && k !in {"openai", "ollama", "engines"} ==> k in r && r[k] == c[k]
    ensures LegacyEngines(c) && Truthy(Field(c, "openai")) ==> Field(r["engines"].m, "openai") == Field(c, "openai")
    ensures LegacyEngines(c) && Truthy(Field(c, "ollama")) ==> Field(r["engines"].m, "ollama") == Field(c, "ollama")
    ensures LegacyEngines(c) && Field(c, "engines").Some? && c["engines"].JObj? ==>
      forall n :: n in c["engines"].m && n !in {"openai", "ollama"} ==> Field(r["engines"].m, n) == Some(c["engines"].m[n])
  {
    if LegacyEngines(c) then
      var current := match Field(c, "engines") case Some(JObj(m)) => m case _ => map[];
      var openai := if Truthy(Field(c, "openai")) then Field(c, "openai") else None;
      var ollama := if Truthy(Field(c, "ollama")) then Field(c, "ollama") else None;
      (c - {"openai", "ollama"})["engines" := JObj(With(With(current, "openai", openai), "ollama", ollama))]
    else c
  }

  /** buildConfig with the intended legacy engine migration. */
  function BuildConfigFixed(defaults: map<string, Json>, overrides: map<string, Json>, urls: DefaultUrls): (r: Result<map<string, Json>, JsError>)
    ensures r.Success? ==> "openai" !in r.value || !LegacyEngines(MergeConfig(defaults, overrides))
  {
    var merged := MergeConfig(defaults, overrides);
    var c1 := MigrateEnginesFixed(merged);
    var c2 :- MigrateTavily(c1);
    NullifyDefaults(c2, urls)
  }

  /**
    With the intended migration, legacy settings load whenever the merged
    settings have readable openai, ollama and sdwebui engines and a plugins
    object, and the legacy values end up under `engines`.
   */
  lemma FixedMigrationLoads(defaults: map<string, Json>, overrides: map<string, Json>, urls: DefaultUrls)
    requires var c := MergeConfig(defaults, overrides);
      && Field(c, "engines").Some? && Field(c, "engines").value.JObj?
      && EngineReadable(c, "openai") && EngineReadable(c, "ollama") && EngineReadable(c, "sdwebui")
      && !Nullish(Field(c, "plugins"))
    ensures BuildConfigFixed(defaults, overrides, urls).Success?
    ensures var c := MergeConfig(defaults, overrides);
      Truthy(Field(c, "openai")) ==> MigrateEnginesFixed(c)["engines"].m["openai"] == c["openai"]
  {
    var c := MergeConfig(defaults, overrides);
    var c1 := MigrateEnginesFixed(c);
    assert EngineReadable(c1, "openai") && EngineReadable(c1, "ollama") && EngineReadable(c1, "sdwebui");
    assert !Nullish(Field(c1, "plugins"));
    var c2 := MigrateTavily(c1).value;
    assert c2["engines"] == c1["engines"];
    NullifyKeepsReadable(c2, urls);
  }

  /** Each nullify step keeps every engine readable, so readable settings never make it fail. */
  lemma NullifyKeepsReadable(s: map<string, Json>, urls: DefaultUrls)
    requires Field(s, "engines").Some? && Field(s, "engines").value.JObj?
    requires EngineReadable(s, "openai") && EngineReadable(s, "ollama") && EngineReadable(s, "sdwebui")
    ensures NullifyDefaults(s, urls).Success?
  {
    var s1 := NullifyEngine(s, "openai", urls.openai).value;
    assert EngineReadable(s1, "ollama") && EngineReadable(s1, "sdwebui");
    var s2 := NullifyEngine(s1, "ollama", urls.ollama).value;
    assert EngineReadable(s2, "sdwebui");
  }
}
