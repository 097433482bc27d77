/**
 * The loader's options, their defaults, and the rule `create` applies after
 * the caller's mutator: every option left falsy is reset to its default.
 */
module ConfigsOptions {
  import opened Results
  import opened Values
  import opened Runtime
  import opened NodePath

  /** `fetchData`: produces the templating data, or fails. */
  type FetchData = Host -> Result<Data, string>

  /** `configsResolver`: the ordered file names for an environment. */
  type ConfigsResolver = string -> seq<string>

  /** The options object. A function-valued option is `None` when the caller
      set it to a falsy value. */
  datatype Options = Options(
    fetchData: Option<FetchData>,
    pathDelimiter: string,
    configsDirectory: string,
    cacheExpiryTime: int,
    configsResolver: Option<ConfigsResolver>)

  /** The default data source: an empty mapping. */
  function NoData(host: Host): Result<Data, string> {
    Success(map[])
  }

  /** The default resolver: `config.<env>.yaml`. */
  function ResolveByEnvironment(env: string): seq<string> {
    ["config." + env + ".yaml"]
  }

  const DefaultCacheExpiryTime: int := 60 * 1000

  /** `Configs.defaultOptions`, which `create` copies before running the
      caller's mutator. */
  function DefaultOptions(): Options {
    Options(Some(NoData), ".", "configs", DefaultCacheExpiryTime, Some(ResolveByEnvironment))
  }

  /** No option is falsy. */
  predicate Truthy(o: Options) {
    && o.fetchData.Some?
    && o.pathDelimiter != ""
    && o.configsDirectory != ""
    && o.cacheExpiryTime != 0
    && o.configsResolver.Some?
  }

  /** The options after `create` resets every falsy option to its default. */
  function WithDefaults(o: Options): (r: Options)
    ensures Truthy(r)
    ensures Truthy(o) ==> r == o
    ensures o.fetchData.Some? ==> r.fetchData == o.fetchData
    ensures o.fetchData.None? ==> r.fetchData == DefaultOptions().fetchData
    ensures o.pathDelimiter != "" ==> r.pathDelimiter == o.pathDelimiter
    ensures o.pathDelimiter == "" ==> r.pathDelimiter == "."
    ensures o.configsDirectory != "" ==> r.configsDirectory == o.configsDirectory
    ensures o.configsDirectory == "" ==> r.configsDirectory == "configs"
    ensures o.cacheExpiryTime != 0 ==> r.cacheExpiryTime == o.cacheExpiryTime
    ensures o.cacheExpiryTime == 0 ==> r.cacheExpiryTime == 60000
    ensures o.configsResolver.Some? ==> r.configsResolver == o.configsResolver
    ensures o.configsResolver.None? ==> r.configsResolver == DefaultOptions().configsResolver
  {
    Options(
      if o.fetchData.Some? then o.fetchData else DefaultOptions().fetchData,
      if o.pathDelimiter != "" then o.pathDelimiter else DefaultOptions().pathDelimiter,
      if o.configsDirectory != "" then o.configsDirectory else DefaultOptions().configsDirectory,
      if o.cacheExpiryTime != 0 then o.cacheExpiryTime else DefaultOptions().cacheExpiryTime,
      if o.configsResolver.Some? then o.configsResolver else DefaultOptions().configsResolver)
  }

  /** Resetting falsy options twice is resetting them once. */
  lemma WithDefaultsIdempotent(o: Options)
    ensures WithDefaults(WithDefaults(o)) == WithDefaults(o)
  {
  }

  /** With no mutator, `create` keeps the defaults as they are. */
  lemma DefaultsAreTruthy()
    ensures Truthy(DefaultOptions())
    ensures WithDefaults(DefaultOptions()) == DefaultOptions()
  {
  }

  /** The default resolver names a `.yaml` file unless the environment ends in
      a slash (which would make `.yaml` a hidden file name of its own). */
  lemma DefaultResolverNamesYaml(env: string)
    requires env == "" || env[|env| - 1] != '/'
    ensures |ResolveByEnvironment(env)| == 1
    ensures ExtName(ResolveByEnvironment(env)[0]) == ".yaml"
  {
    var name := "config." + env;
    assert name[|name| - 1] != '/' by {
      if env == "" {
        assert name == "config.";
      } else {
        assert name[|name| - 1] == env[|env| - 1];
      }
    }
    assert IsExtension(".yaml");
    ExtNameOfName(name, ".yaml");
  }

  /** An environment ending in a slash makes the default file name a hidden
      `.yaml` file, which has no extension. */
  lemma DefaultResolverSlashEnvironment(env: string)
    requires env != "" && env[|env| - 1] == '/'
    ensures ExtName(ResolveByEnvironment(env)[0]) == ""
  {
    var dir := "config." + env;
    assert dir[|dir| - 1] == env[|env| - 1];
    assert IsExtension(".yaml");
    ExtNameHidden(dir, ".yaml");
  }
}
