/**
 * What the loader reads from its host at the moment of a call: the clock
 * (`Date.now()`), the `NODE_ENV` variable and the file system under the
 * application root.
 */
module Runtime {
  import opened Results

  /** The file system as the loader sees it, relative to the application root:
      existence of the configuration directory, existence of a file in it, and
      the UTF-8 text of a file (or the error reading it raises). */
  datatype FileSystem = FileSystem(
    directoryExists: string -> bool,
    fileExists: (string, string) -> bool,
    readFile: (string, string) -> Result<string, string>)

  /** A snapshot of the host: the time in milliseconds, `NODE_ENV` (absent when
      unset) and the file system. */
  datatype Host = Host(now: int, nodeEnv: Option<string>, fs: FileSystem)

  /** `process.env.NODE_ENV || 'development'`. */
  function Environment(nodeEnv: Option<string>): (env: string)
    ensures env != ""
    ensures nodeEnv.Some? && nodeEnv.value != "" ==> env == nodeEnv.value
    ensures (nodeEnv.None? || nodeEnv.value == "") ==> env == "development"
  {
    if nodeEnv.Some? && nodeEnv.value != "" then nodeEnv.value else "development"
  }
}
