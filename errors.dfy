/**
 * The construction-time errors `Configs.create` raises. Each source class
 * derives from `PackageError`, whose `name` is the class name; here they are
 * the variants of one datatype, each carrying what its message is about.
 */
module Errors {
  import opened JsStrings

  datatype ConfigError =
    | DirectoryError(directory: string)
    | FileError(file: string)
    | ParserError(extension: string)
  {
    /** The error's `name`: the name of the class that raised it. */
    function Name(): string {
      match this
      case DirectoryError(_) => "DirectoryError"
      case FileError(_) => "FileError"
      case ParserError(_) => "ParserError"
    }

    /** The error's `message`, as `create` builds it. */
    function Message(): string {
      match this
      case DirectoryError(directory) => "Directory " + directory + " does not exist"
      case FileError(file) => "Config file " + file + " does not exist"
      case ParserError(extension) =>
        "Unsupported file extension " + extension + ". Only .yaml and .yml are supported."
    }

    /** What the message is about: the directory, the file or the extension. */
    function Subject(): string {
      match this
      case DirectoryError(directory) => directory
      case FileError(file) => file
      case ParserError(extension) => extension
    }
  }

  /** Two errors share a name exactly when they are of the same kind, so a
      caller can tell the three apart by `name`. */
  lemma NameIdentifiesKind(e1: ConfigError, e2: ConfigError)
    ensures e1.Name() == e2.Name() <==>
            (e1.DirectoryError? && e2.DirectoryError?) || (e1.FileError? && e2.FileError?)
            || (e1.ParserError? && e2.ParserError?)
  {
    var d, f, p := "DirectoryError", "FileError", "ParserError";
    assert d[0] != f[0] && d[0] != p[0] && f[0] != p[0];
  }

  /** `part` occurs in `s`. */
  ghost predicate Mentions(s: string, part: string) {
    exists i :: OccursAt(s, part, i)
  }

  /** Every error's message names what it is about, right after its fixed
      opening words. */
  lemma MessageNamesSubject(e: ConfigError)
    ensures Mentions(e.Message(), e.Subject())
  {
    var m := e.Message();
    match e
    case DirectoryError(directory) =>
      assert OccursAt(m, directory, 10);
    case FileError(file) =>
      assert OccursAt(m, file, 12);
    case ParserError(extension) =>
      assert OccursAt(m, extension, 27);
  }
}
