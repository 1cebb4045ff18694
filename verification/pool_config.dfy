/**
 * The key bookkeeping of the SQLite pool plugin: `SQLitePoolConfig` picks an app-state
 * key not yet taken by an earlier config, and `SQLitePoolPlugin` checks the configs'
 * dependency keys and registers one lifespan and two dependency providers per config.
 *
 * The class-level registry of app-state keys is threaded through explicitly. Lifespans
 * and providers are identified by the app-state key of the config they belong to,
 * which is what they read from the application state.
 */
module PoolConfig {
  import opened Wrappers
  import Decimal

  datatype Config = Config(
    databasePath: string,
    poolDependencyKey: string,
    connectionDependencyKey: string,
    poolAppStateKey: string,
    poolSize: Option<int>,
    acquisitionTimeout: Option<int>,
    idleTimeout: Option<int>,
    operationTimeout: Option<int>)

  /** A config with every field left at its declared default. */
  function DefaultConfig(databasePath: string): (c: Config)
    ensures c.poolDependencyKey == c.poolAppStateKey == "db_pool"
    ensures c.connectionDependencyKey == "db_connection"
    ensures c.poolSize == Some(10) && c.acquisitionTimeout == Some(30)
    ensures c.idleTimeout == Some(86400) && c.operationTimeout == Some(10)
  {
    Config(databasePath, "db_pool", "db_connection", "db_pool", Some(10), Some(30), Some(86400), Some(10))
  }

  /** The `n`-th alternative to a taken key: `f"{key}_{n}"`. */
  function Candidate(key: string, n: nat): string {
    key + "_" + Decimal.Show(n)
  }

  lemma CandidateInjective(key: string, m: nat, n: nat)
    requires Candidate(key, m) == Candidate(key, n)
    ensures m == n
  {
    assert Decimal.Show(m) == Candidate(key, m)[|key| + 1..];
    assert Decimal.Show(n) == Candidate(key, n)[|key| + 1..];
    Decimal.ShowInjective(m, n);
  }

  /** The alternatives tried before the `n`-th one. */
  function TriedBefore(key: string, n: nat): set<string> {
    set j: nat | 1 <= j < n :: Candidate(key, j)
  }

  /**
   * The search from the `n`-th alternative on: the first of `key_n`, `key_(n+1)`, ...
   * absent from the registry. Each alternative tried and found taken is a registry
   * member not tried before, so the untried registry members shrink.
   */
  function FirstFree(registry: set<string>, key: string, n: nat): (r: string)
    requires 1 <= n
    ensures r !in registry
    ensures exists k: nat :: n <= k && r == Candidate(key, k) && forall j: nat :: n <= j < k ==> Candidate(key, j) in registry
    decreases registry - TriedBefore(key, n)
  {
    if Candidate(key, n) !in registry then Candidate(key, n)
    else
      assert Candidate(key, n) !in TriedBefore(key, n) by {
        if Candidate(key, n) in TriedBefore(key, n) {
          var j: nat :| 1 <= j < n && Candidate(key, j) == Candidate(key, n);
          CandidateInjective(key, j, n);
        }
      }
      assert TriedBefore(key, n + 1) == TriedBefore(key, n) + {Candidate(key, n)};
      FirstFree(registry, key, n + 1)
  }

  /**
   * `_ensure_unique`: the key itself when it is free, otherwise the first free one of
   * `key_1`, `key_2`, ...; never a key already in the registry.
   */
  function EnsureUnique(registry: set<string>, key: string): (r: string)
    ensures r !in registry
    ensures key !in registry ==> r == key
    ensures key in registry ==>
              exists k: nat :: 1 <= k && r == Candidate(key, k) && forall j: nat :: 1 <= j < k ==> Candidate(key, j) in registry
  {
    if key !in registry then key else FirstFree(registry, key, 1)
  }

  /** A config after `__post_init__`, and the registry it leaves behind. */
  datatype Registered = Registered(config: Config, registry: set<string>)

  /** `__post_init__`: replace the app-state key by a unique one and record it. */
  function PostInit(registry: set<string>, c: Config): (r: Registered)
    ensures r.config == c.(poolAppStateKey := r.config.poolAppStateKey)
    ensures r.config.poolAppStateKey !in registry
    ensures r.registry == registry + {r.config.poolAppStateKey}
  {
    var key := EnsureUnique(registry, c.poolAppStateKey);
    Registered(c.(poolAppStateKey := key), registry + {key})
  }

  /** Configs after construction, and the registry they leave behind. */
  datatype Constructed = Constructed(configs: seq<Config>, registry: set<string>)

  /**
   * Constructing configs one after another, in order: every config keeps its fields
   * except the app-state key, the keys chosen are pairwise distinct and new to the
   * registry, and the registry grows by exactly those keys.
   */
  function ConstructAll(registry: set<string>, cs: seq<Config>): (r: Constructed)
    ensures |r.configs| == |cs|
    ensures forall i :: 0 <= i < |cs| ==> r.configs[i] == cs[i].(poolAppStateKey := r.configs[i].poolAppStateKey)
    ensures forall i :: 0 <= i < |cs| ==> r.configs[i].poolAppStateKey !in registry
    ensures Distinct(StateKeys(r.configs))
    ensures r.registry == registry + Elements(StateKeys(r.configs))
  {
    if |cs| == 0 then Constructed([], registry)
    else
      var prev := ConstructAll(registry, cs[..|cs| - 1]);
      var last := PostInit(prev.registry, cs[|cs| - 1]);
      var configs := prev.configs + [last.config];
      assert StateKeys(configs) == StateKeys(prev.configs) + [last.config.poolAppStateKey];
      assert Elements(StateKeys(configs)) == Elements(StateKeys(prev.configs)) + {last.config.poolAppStateKey};
      Constructed(configs, last.registry)
  }

  function StateKeys(cs: seq<Config>): (r: seq<string>)
    ensures |r| == |cs| && forall i :: 0 <= i < |cs| ==> r[i] == cs[i].poolAppStateKey
  {
    seq(|cs|, i requires 0 <= i < |cs| => cs[i].poolAppStateKey)
  }

  function PoolKeys(cs: seq<Config>): (r: seq<string>)
    ensures |r| == |cs| && forall i :: 0 <= i < |cs| ==> r[i] == cs[i].poolDependencyKey
  {
    seq(|cs|, i requires 0 <= i < |cs| => cs[i].poolDependencyKey)
  }

  function ConnectionKeys(cs: seq<Config>): (r: seq<string>)
    ensures |r| == |cs| && forall i :: 0 <= i < |cs| ==> r[i] == cs[i].connectionDependencyKey
  {
    seq(|cs|, i requires 0 <= i < |cs| => cs[i].connectionDependencyKey)
  }

  predicate Distinct<T(==)>(s: seq<T>) {
    forall i, j :: 0 <= i < j < |s| ==> s[i] != s[j]
  }

  function Elements<T(==)>(s: seq<T>): set<T> {
    set x | x in s
  }

  /** A sequence has as many distinct elements as entries exactly when no entry repeats. */
  lemma {:induction false} ElementsCount<T>(s: seq<T>)
    ensures |Elements(s)| <= |s|
    ensures |Elements(s)| == |s| <==> Distinct(s)
  {
    if |s| > 0 {
      var init := s[..|s| - 1];
      var last := s[|s| - 1];
      ElementsCount(init);
      assert s == init + [last];
      assert Elements(s) == Elements(init) + {last};
      if last in Elements(init) {
        assert Elements(s) == Elements(init);
        var k :| 0 <= k < |init| && init[k] == last;
        assert s[k] == s[|s| - 1];
      } else {
        assert |Elements(s)| == |Elements(init)| + 1;
        if Distinct(init) {
          forall i, j | 0 <= i < j < |s| ensures s[i] != s[j] {
            if j == |s| - 1 {
              assert s[i] == init[i];
            } else {
              assert s[i] == init[i] && s[j] == init[j];
            }
          }
        } else {
          var i, j :| 0 <= i < j < |init| && init[i] == init[j];
          assert s[i] == s[j];
        }
      }
    }
  }

  datatype ConfigError = PoolKeysNotUnique | ConnectionKeysNotUnique

  /**
   * `_validate_config`: a single config always passes; otherwise the pool dependency
   * keys must be pairwise distinct, then the connection dependency keys. A pool key is
   * never compared with a connection key.
   */
  function ValidateConfig(cs: seq<Config>): (r: Result<(), ConfigError>)
    ensures |cs| == 1 ==> r.Ok?
    ensures r == Err(PoolKeysNotUnique) <==> |cs| != 1 && !Distinct(PoolKeys(cs))
    ensures r == Err(ConnectionKeysNotUnique) <==> |cs| != 1 && Distinct(PoolKeys(cs)) && !Distinct(ConnectionKeys(cs))
  {
    ElementsCount(PoolKeys(cs));
    ElementsCount(ConnectionKeys(cs));
    if |cs| == 1 then Ok(())
    else if |Elements(PoolKeys(cs))| != |cs| then Err(PoolKeysNotUnique)
    else if |Elements(ConnectionKeys(cs))| != |cs| then Err(ConnectionKeysNotUnique)
    else Ok(())
  }

  /** A dependency provider, identified by the app-state key of the pool it reads. */
  datatype Provider = ProvidePool(stateKey: string) | ProvideConnection(stateKey: string)

  /** The parts of Litestar's `AppConfig` the plugin touches. */
  datatype AppConfig = AppConfig(lifespans: seq<string>, dependencies: map<string, Provider>)

  /** The loop of `on_app_init`: per config, append its lifespan and set its two providers. */
  function Install(cs: seq<Config>, app: AppConfig): (r: AppConfig)
    ensures r.lifespans == app.lifespans + seq(|cs|, i requires 0 <= i < |cs| => cs[i].poolAppStateKey)
  {
    if |cs| == 0 then app
    else
      var c := cs[|cs| - 1];
      var a := Install(cs[..|cs| - 1], app);
      AppConfig(a.lifespans + [c.poolAppStateKey],
                a.dependencies[c.poolDependencyKey := ProvidePool(c.poolAppStateKey)]
                              [c.connectionDependencyKey := ProvideConnection(c.poolAppStateKey)])
  }

  /** The loop adds a provider under every key of every config. */
  lemma {:induction false} InstallKeys(cs: seq<Config>, app: AppConfig)
    ensures Install(cs, app).dependencies.Keys == app.dependencies.Keys + Elements(PoolKeys(cs)) + Elements(ConnectionKeys(cs))
  {
    if |cs| > 0 {
      var init := cs[..|cs| - 1];
      var c := cs[|cs| - 1];
      InstallKeys(init, app);
      assert PoolKeys(cs) == PoolKeys(init) + [c.poolDependencyKey];
      assert ConnectionKeys(cs) == ConnectionKeys(init) + [c.connectionDependencyKey];
    }
  }

  /** The loop leaves the provider of every other key as it was. */
  lemma {:induction false} InstallKeepsOthers(cs: seq<Config>, app: AppConfig, k: string)
    requires k in app.dependencies
    requires forall i :: 0 <= i < |cs| ==> k != cs[i].poolDependencyKey && k != cs[i].connectionDependencyKey
    ensures k in Install(cs, app).dependencies && Install(cs, app).dependencies[k] == app.dependencies[k]
  {
    if |cs| > 0 {
      InstallKeepsOthers(cs[..|cs| - 1], app, k);
    }
  }

  /** `on_app_init`: validation first; an invalid plugin leaves the app config untouched. */
  function OnAppInit(cs: seq<Config>, app: AppConfig): (r: Result<AppConfig, ConfigError>)
    ensures r.Err? <==> ValidateConfig(cs).Err?
    ensures r.Err? ==> r.error == ValidateConfig(cs).error
    ensures r.Ok? ==> r.value == Install(cs, app)
    ensures r.Ok? ==> r.value.lifespans == app.lifespans + StateKeys(cs)
    ensures r.Ok? ==>
              r.value.dependencies.Keys == app.dependencies.Keys + Elements(PoolKeys(cs)) + Elements(ConnectionKeys(cs))
  {
    match ValidateConfig(cs)
    case Err(e) => Err(e)
    case Ok(_) =>
      InstallKeys(cs, app);
      Ok(Install(cs, app))
  }

  /**
   * When no pool key of one config is the connection key of another (or the same)
   * config, a successful `on_app_init` leaves every config's pool key providing its
   * pool and its connection key providing its connections.
   */
  lemma {:induction false} InstallProviders(cs: seq<Config>, app: AppConfig)
    requires Distinct(PoolKeys(cs)) && Distinct(ConnectionKeys(cs))
    requires forall i, j :: 0 <= i < |cs| && 0 <= j < |cs| ==> cs[i].poolDependencyKey != cs[j].connectionDependencyKey
    ensures forall i :: 0 <= i < |cs| ==>
              && cs[i].poolDependencyKey in Install(cs, app).dependencies
              && Install(cs, app).dependencies[cs[i].poolDependencyKey] == ProvidePool(cs[i].poolAppStateKey)
              && cs[i].connectionDependencyKey in Install(cs, app).dependencies
              && Install(cs, app).dependencies[cs[i].connectionDependencyKey] == ProvideConnection(cs[i].poolAppStateKey)
  {
    if |cs| > 0 {
      var init := cs[..|cs| - 1];
      assert forall i :: 0 <= i < |init| ==> init[i] == cs[i];
      assert Distinct(PoolKeys(init)) && Distinct(ConnectionKeys(init));
      InstallProviders(init, app);
    }
  }

  lemma OnAppInitProviders(cs: seq<Config>, app: AppConfig)
    requires OnAppInit(cs, app).Ok?
    requires forall i, j :: 0 <= i < |cs| && 0 <= j < |cs| ==> cs[i].poolDependencyKey != cs[j].connectionDependencyKey
    ensures forall i :: 0 <= i < |cs| ==>
              && cs[i].poolDependencyKey in OnAppInit(cs, app).value.dependencies
              && OnAppInit(cs, app).value.dependencies[cs[i].poolDependencyKey] == ProvidePool(cs[i].poolAppStateKey)
              && cs[i].connectionDependencyKey in OnAppInit(cs, app).value.dependencies
              && OnAppInit(cs, app).value.dependencies[cs[i].connectionDependencyKey] == ProvideConnection(cs[i].poolAppStateKey)
  {
    InstallProviders(cs, app);
  }

  /**
   * Because pool keys are never compared with connection keys, two configs whose keys
   * cross over pass validation, and the second config's providers replace the first's
   * under both keys.
   */
  lemma CrossedKeysPass(a: Config, b: Config, app: AppConfig)
    requires a.poolDependencyKey == b.connectionDependencyKey && a.connectionDependencyKey == b.poolDependencyKey
    requires a.poolDependencyKey != a.connectionDependencyKey
    ensures OnAppInit([a, b], app).Ok?
    ensures var d := OnAppInit([a, b], app).value.dependencies;
            && a.poolDependencyKey in d && d[a.poolDependencyKey] == ProvideConnection(b.poolAppStateKey)
            && a.connectionDependencyKey in d && d[a.connectionDependencyKey] == ProvidePool(b.poolAppStateKey)
  {
    assert [a, b][..1] == [a];
    assert [a][..0] == [];
  }

  /**
   * Two configs left at their defaults get distinct app-state keys, `db_pool` and
   * `db_pool_1`, but share the pool dependency key `db_pool`, so the plugin refuses
   * them: a second database needs its dependency keys set by hand.
   */
  lemma TwoDefaultsClash(path1: string, path2: string, app: AppConfig)
    ensures var r := ConstructAll({}, [DefaultConfig(path1), DefaultConfig(path2)]);
            && r.configs[0].poolAppStateKey == "db_pool"
            && r.configs[1].poolAppStateKey == "db_pool_1"
            && r.registry == {"db_pool", "db_pool_1"}
            && OnAppInit(r.configs, app) == Err(PoolKeysNotUnique)
  {
    var cs := [DefaultConfig(path1), DefaultConfig(path2)];
    assert cs[..1] == [DefaultConfig(path1)];
    assert cs[..1][..0] == [];
    assert Decimal.Show(1) == "1";
    assert Candidate("db_pool", 1) == "db_pool_1";
    var r := ConstructAll({}, cs);
    assert PoolKeys(r.configs)[0] == PoolKeys(r.configs)[1];
  }
}
