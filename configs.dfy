/**
 * The `Configs` class: `create` defaults and validates the options and
 * returns an instance; `get` refreshes the cached mapping when it is stale
 * and answers a delimited-path lookup from it.
 */
module Facade {
  import opened Results
  import opened JsStrings
  import opened Values
  import opened Runtime
  import opened Errors
  import opened ConfigsOptions
  import opened FileValidation
  import opened TemplateMerge
  import opened PathLookup
  import opened CacheControl

  /** The refresh a stale `get` runs: fetch the templating data, then merge
      the files the resolver names for the current environment. */
  function Refresh(o: Options, host: Host, engine: Engine): Refreshed
    requires Truthy(o)
  {
    match o.fetchData.value(host)
    case Failure(e) => FetchFailed(e)
    case Success(data) =>
      match MergeFiles(Source(o.configsDirectory, data, host.fs, engine), map[], ResolvedFiles(o, host))
      case Failure(e) => LoadFailed(e)
      case Success(m) => Loaded(m)
  }

  /** What `get(key)` resolves to from cache state `s`: the lookup in the
      freshly merged mapping when a refresh is due, else in the cached one; a
      failed refresh rejects with its error. */
  function GetAnswer(s: CacheState, o: Options, host: Host, engine: Engine, key: string): Result<Value, string>
    requires Truthy(o)
  {
    if IsStale(s, o.cacheExpiryTime, host.now) then
      match Refresh(o, host, engine)
      case Loaded(m) => Success(Select(Object(m), key, o.pathDelimiter))
      case FetchFailed(e) => Failure(e)
      case LoadFailed(e) => Failure(e)
    else Success(Select(Object(s.value.value), key, o.pathDelimiter))
  }

  /** The cache state after `get`. */
  function GetState(s: CacheState, o: Options, host: Host, engine: Engine): CacheState
    requires Truthy(o)
  {
    AfterGet(s, o.cacheExpiryTime, host.now, Refresh(o, host, engine))
  }

  /** A successful `get` answers from the mapping the call leaves cached; an
      empty key answers with that whole mapping. A failing `get` is one whose
      refresh failed. */
  lemma GetAnswersFromCache(s: CacheState, o: Options, host: Host, engine: Engine, key: string)
    requires Truthy(o)
    ensures var r := GetAnswer(s, o, host, engine, key);
            var s1 := GetState(s, o, host, engine);
            && (r.Success? ==> s1.value.Some? && r.value == Select(Object(s1.value.value), key, o.pathDelimiter))
            && (r.Success? && key == "" ==> r.value == Object(s1.value.value))
            && (r.Failure? <==> IsStale(s, o.cacheExpiryTime, host.now) && !Refresh(o, host, engine).Loaded?)
  {
  }

  /** Two `get`s within the expiry time after a refresh read the same mapping:
      the second one neither refreshes nor changes anything. */
  lemma SecondGetWithinExpiryReuses(s: CacheState, o: Options, h1: Host, h2: Host, engine: Engine, k1: string, k2: string)
    requires Truthy(o)
    requires IsStale(s, o.cacheExpiryTime, h1.now) && Refresh(o, h1, engine).Loaded?
    requires h2.now <= h1.now + o.cacheExpiryTime
    ensures var s1 := GetState(s, o, h1, engine);
            && GetState(s1, o, h2, engine) == s1
            && GetAnswer(s1, o, h2, engine, k2) == Success(Select(Object(Refresh(o, h1, engine).data), k2, o.pathDelimiter))
  {
  }

  class Configs {
    const options: Options
    var value: Option<Data>
    var valueSetTime: int

    /** The cache fields as one value. */
    ghost function State(): CacheState
      reads this
    {
      CacheState(value, valueSetTime)
    }

    /** Every instance holds defaulted options. */
    ghost predicate Valid() {
      Truthy(options)
    }

    constructor (options: Options)
      requires Truthy(options)
      ensures Valid() && this.options == options && State() == Initial
    {
      this.options := options;
      value := None;
      valueSetTime := 0;
    }

    /** `Configs.create(fn)`: apply the caller's mutator to a copy of the
        defaults, reset every falsy option, check the directory and then each
        resolved file, and build the instance. */
    static method Create(mutator: Options -> Options, host: Host) returns (r: Result<Configs, ConfigError>)
      ensures var opt := WithDefaults(mutator(DefaultOptions()));
              && (r.Failure? <==> CheckOptions(opt, host).Fail?)
              && (r.Failure? ==> CheckOptions(opt, host) == Fail(r.error))
              && (r.Success? ==> fresh(r.value) && r.value.Valid() && r.value.options == opt
                                 && r.value.State() == Initial)
    {
      var opt := mutator(DefaultOptions());
      if opt.fetchData.None? {
        opt := opt.(fetchData := DefaultOptions().fetchData);
      }
      if opt.pathDelimiter == "" {
        opt := opt.(pathDelimiter := DefaultOptions().pathDelimiter);
      }
      if opt.configsDirectory == "" {
        opt := opt.(configsDirectory := DefaultOptions().configsDirectory);
      }
      if opt.cacheExpiryTime == 0 {
        opt := opt.(cacheExpiryTime := DefaultOptions().cacheExpiryTime);
      }
      if opt.configsResolver.None? {
        opt := opt.(configsResolver := DefaultOptions().configsResolver);
      }
      assert opt == WithDefaults(mutator(DefaultOptions()));

      if !host.fs.directoryExists(opt.configsDirectory) {
        return Failure(DirectoryError(opt.configsDirectory));
      }
      var resolvedFiles := opt.configsResolver.value(Environment(host.nodeEnv));
      var checked := ValidateFiles(opt.configsDirectory, resolvedFiles, host.fs);
      if checked.Fail? {
        return Failure(checked.error);
      }
      var c := new Configs(opt);
      return Success(c);
    }

    /** `get(key)` at the time `host.now`: refresh when stale, then look the
        key up in the cached mapping. */
    method Get(key: string, host: Host, engine: Engine) returns (r: Result<Value, string>)
      requires Valid()
      modifies this
      ensures State() == GetState(old(State()), options, host, engine)
      ensures r == GetAnswer(old(State()), options, host, engine, key)
    {
      var now := host.now;
      var expiryTime := valueSetTime + options.cacheExpiryTime;
      if value.None? || now > expiryTime {
        var data := options.fetchData.value(host);
        if data.Failure? {
          return Failure(data.error);
        }
        valueSetTime := now;
        var files := options.configsResolver.value(Environment(host.nodeEnv));
        var merged := MergeFiles(Source(options.configsDirectory, data.value, host.fs, engine), map[], files);
        if merged.Failure? {
          return Failure(merged.error);
        }
        value := Some(merged.value);
      }
      if key == "" {
        return Success(Object(value.value));
      }
      var segments := Split(key, options.pathDelimiter);
      return Success(LookupPath(Object(value.value), segments));
    }
  }
}
