/**
 * The checks `Configs.create` runs once the options are defaulted: the
 * configuration directory must exist, then every resolved file, in resolver
 * order, must exist and carry a `.yaml` or `.yml` extension. The first failure
 * is raised.
 */
module FileValidation {
  import opened Results
  import opened Runtime
  import opened NodePath
  import opened Errors
  import opened ConfigsOptions

  /** `['.yaml', '.yml'].includes(ext)`. */
  predicate SupportedExtension(ext: string) {
    ext == ".yaml" || ext == ".yml"
  }

  /** The file's extension is supported. */
  predicate IsSupported(file: string) {
    SupportedExtension(ExtName(file))
  }

  /** The file exists and has a supported extension. */
  predicate Passes(directory: string, file: string, fs: FileSystem) {
    fs.fileExists(directory, file) && IsSupported(file)
  }

  /** The check of one file: existence first, extension second. A missing
      file is a `FileError` whatever its extension; an existing file with an
      unsupported extension is a `ParserError` naming that extension. */
  function CheckFile(directory: string, file: string, fs: FileSystem): (r: Outcome<ConfigError>)
    ensures r.Pass? <==> Passes(directory, file, fs)
    ensures !fs.fileExists(directory, file) ==> r == Fail(FileError(file))
    ensures fs.fileExists(directory, file) && !IsSupported(file) ==> r == Fail(ParserError(ExtName(file)))
  {
    if !fs.fileExists(directory, file) then Fail(FileError(file))
    else if !IsSupported(file) then Fail(ParserError(ExtName(file)))
    else Pass
  }

  /** The position of the first element of `xs` that `ok` rejects, or `|xs|`
      when it accepts them all. */
  function FirstRejected<T>(ok: T -> bool, xs: seq<T>): (k: nat)
    ensures k <= |xs|
    ensures forall j :: 0 <= j < k ==> ok(xs[j])
    ensures k < |xs| ==> !ok(xs[k])
  {
    if xs == [] || !ok(xs[0]) then 0
    else 1 + FirstRejected(ok, xs[1..])
  }

  /** The position of the first file that fails its check, or the length of
      the list when all pass. */
  function FirstFailing(directory: string, files: seq<string>, fs: FileSystem): nat {
    FirstRejected(file => Passes(directory, file, fs), files)
  }

  /** The outcome of checking a file list in order: the error of its first
      failing file. */
  function CheckFiles(directory: string, files: seq<string>, fs: FileSystem): (r: Outcome<ConfigError>)
    ensures r.Pass? <==> forall i :: 0 <= i < |files| ==> Passes(directory, files[i], fs)
  {
    var k := FirstFailing(directory, files, fs);
    if k == |files| then Pass else CheckFile(directory, files[k], fs)
  }

  /** The files the resolver names for the current environment. */
  function ResolvedFiles(o: Options, host: Host): seq<string>
    requires o.configsResolver.Some?
  {
    o.configsResolver.value(Environment(host.nodeEnv))
  }

  /** What `create` raises, if anything, for defaulted options on a host. */
  function CheckOptions(o: Options, host: Host): (r: Outcome<ConfigError>)
    requires o.configsResolver.Some?
    ensures !host.fs.directoryExists(o.configsDirectory) ==> r == Fail(DirectoryError(o.configsDirectory))
    ensures r.Pass? <==>
      && host.fs.directoryExists(o.configsDirectory)
      && forall file :: file in ResolvedFiles(o, host) ==>
           host.fs.fileExists(o.configsDirectory, file) && IsSupported(file)
    ensures host.fs.directoryExists(o.configsDirectory) && r.Fail? ==>
      var files := ResolvedFiles(o, host);
      var k := FirstFailing(o.configsDirectory, files, host.fs);
      k < |files| && r == CheckFile(o.configsDirectory, files[k], host.fs)
  {
    if !host.fs.directoryExists(o.configsDirectory) then Fail(DirectoryError(o.configsDirectory))
    else CheckFiles(o.configsDirectory, ResolvedFiles(o, host), host.fs)
  }

  /** An empty file list passes once the directory exists. */
  lemma NoFilesPass(o: Options, host: Host)
    requires o.configsResolver.Some? && ResolvedFiles(o, host) == []
    ensures CheckOptions(o, host).Pass? <==> host.fs.directoryExists(o.configsDirectory)
  {
  }

  /** The `forEach` over the resolved files: throws at the first file that is
      missing or has an unsupported extension. */
  method ValidateFiles(directory: string, files: seq<string>, fs: FileSystem) returns (o: Outcome<ConfigError>)
    ensures o == CheckFiles(directory, files, fs)
  {
    var i := 0;
    while i < |files|
      invariant 0 <= i <= |files|
      invariant forall j :: 0 <= j < i ==> Passes(directory, files[j], fs)
    {
      var file := files[i];
      if !fs.fileExists(directory, file) {
        FailsAt(directory, files, fs, i);
        return Fail(FileError(file));
      }
      var ext := ExtName(file);
      if !SupportedExtension(ext) {
        FailsAt(directory, files, fs, i);
        return Fail(ParserError(ext));
      }
      i := i + 1;
    }
    AllPass(directory, files, fs);
    return Pass;
  }

  /** When every file before position `i` passes and the file at `i` does
      not, the list fails with that file's error. */
  lemma FailsAt(directory: string, files: seq<string>, fs: FileSystem, i: nat)
    requires i < |files| && !Passes(directory, files[i], fs)
    requires forall j :: 0 <= j < i ==> Passes(directory, files[j], fs)
    ensures CheckFiles(directory, files, fs) == CheckFile(directory, files[i], fs)
  {
    FirstRejectedAt(file => Passes(directory, file, fs), files, i);
  }

  /** The first rejected position is the one before which all are accepted
      and at which one is rejected. */
  lemma FirstRejectedAt<T>(ok: T -> bool, xs: seq<T>, i: nat)
    requires i < |xs| && !ok(xs[i])
    requires forall j :: 0 <= j < i ==> ok(xs[j])
    ensures FirstRejected(ok, xs) == i
  {
    var k := FirstRejected(ok, xs);
    assert k <= i;
    assert !ok(xs[k]);
  }

  /** When every file passes, the list passes. */
  lemma AllPass(directory: string, files: seq<string>, fs: FileSystem)
    requires forall j :: 0 <= j < |files| ==> Passes(directory, files[j], fs)
    ensures CheckFiles(directory, files, fs) == Pass
  {
  }

  /** An existing `.json` file (such as `config.invalid.json`) is rejected
      with a `ParserError` naming the extension. */
  lemma JsonFileRejected(directory: string, fs: FileSystem, name: string)
    requires name != [] && name[|name| - 1] != '/'
    requires fs.fileExists(directory, name + ".json")
    ensures CheckFile(directory, name + ".json", fs) == Fail(ParserError(".json"))
  {
    var file := name + ".json";
    assert IsExtension(".json");
    ExtNameOfName(name, ".json");
    assert !SupportedExtension(".json") by {
      assert ".json"[1] != ".yaml"[1] && ".json"[1] != ".yml"[1];
    }
  }
}
