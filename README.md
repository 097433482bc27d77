# configs — a Dafny model of the `Configs` loader

`Configs` (src/index.ts) is a layered configuration loader. `Configs.create(fn)`
copies the default options and runs the caller's mutator on the copy. It then
resets every option the mutator left falsy, checks that the configuration
directory exists, and checks that every file the resolver names for the
current `NODE_ENV` exists and has a `path.extname` of `.yaml` or `.yml`. `get(key)` refreshes
the cached mapping when it is absent or older than `cacheExpiryTime`. A
refresh fetches the templating data, then reads, renders, parses and
shallow-merges the files in order. `get` then answers a delimited-path lookup
from the cached mapping.

The model splits src/index.ts into modules by concern; errors.dfy stands for src/errors/*.ts:

| module | file | what it holds |
|---|---|---|
| `Results` | results.dfy | `Option`, `Result`, `Outcome` |
| `JsStrings` | jsstrings.dfy | JavaScript `split`, `join`, `parseInt` (including the `0x` prefix and the ECMAScript white-space set) and the decimal rendering of a non-negative integer |
| `NodePath` | nodepath.dfy | Node's POSIX `path.extname` |
| `Values` | values.dfy | the parsed value variants and object spread `{ ...v }` |
| `PathLookup` | pathlookup.dfy | the lookup fold of `get` |
| `Errors` | errors.dfy | `DirectoryError`, `FileError`, `ParserError` and their messages |
| `Runtime` | runtime.dfy | the host snapshot (clock, `NODE_ENV`, file system) and `NODE_ENV \|\| 'development'` |
| `ConfigsOptions` | options.dfy | the options, their defaults and the falsy-option reset |
| `FileValidation` | validation.dfy | the directory and per-file checks, with the `forEach` as a loop method |
| `TemplateMerge` | merge.dfy | the render → parse → spread → merge fold over the files |
| `CacheControl` | cache.dfy | the `value` / `valueSetTime` state machine |
| `Facade` | configs.dfy | the `Configs` class with `Create` and `Get`, and the specification of `get` |

I/O and the libraries become parameters:
- The clock, `NODE_ENV` and the file system are a `Host` value passed to each call.
- `fs.existsSync` becomes the `directoryExists` and `fileExists` predicates.
- `readFileAsync` becomes `readFile`, which may fail.
- `Mustache.render` and `YAML.parse` are the two functions of an `Engine`. Either may fail.
- `fetchData` is an option of type `Host -> Result<Data, string>`.
- The caller's mutator is a function `Options -> Options`, applied to the defaults.

`Configs` is a class. `value` and `valueSetTime` are fields that `Get` updates
in place. The `forEach` that throws at the first bad file is the loop of
`FileValidation.ValidateFiles`. The `reduce` folds in `get` are pure recursive
functions: `TemplateMerge.MergeFiles` for the merge and
`PathLookup.LookupPath` for the lookup.

Behaviour of the code as written, which the model keeps:
- A falsy option is reset, so `cacheExpiryTime = 0` becomes 60000 and `pathDelimiter = ''` becomes `'.'`.
- An empty list of resolved files passes validation.
- The freshness check is strict: at exactly `valueSetTime + cacheExpiryTime` the cached mapping is reused.
- `valueSetTime` is written after `fetchData` answers and before the files are read (src/index.ts:92-94). A file that then fails to read, render or parse leaves the old mapping paired with the new timestamp. A previously cached mapping is served until the next expiry. With nothing cached, the next `get` retries.
- A refresh calls the resolver again with the `NODE_ENV` current at that moment (src/index.ts:95). The files it reads are not re-validated.
- An array segment is read with `parseInt`, so `"1abc"`, `" 1"` and `"0x1"` all select element 1. `"-0"` selects element 0 and `"-1"` selects nothing.
- A segment applied to a string, number, boolean, `null` or `undefined` returns that value unchanged.
- Merging is top-level only: a later file replaces an earlier file's nested object whole. A parsed document that is not an object spreads as JavaScript does: a sequence or string gives index-named entries, and a scalar or `null` (an empty file) gives none.

The repository's tests (tests/index.spec.ts) are written against an older
interface than src/index.ts has. Where they disagree, the model follows
src/index.ts:
- The tests configure a `resolvers` list of `{ directory, env, files }` entries (tests/index.spec.ts:18-24). src/index.ts has no such option. It reads `configsDirectory` and a single `configsResolver` function (src/index.ts:24-30), so a `resolvers` setting has no effect.
- The tests expect `FileError('No config files provided for development env')` for an empty file list (tests/index.spec.ts:39-50). src/index.ts checks the resolved files one by one, so an empty list passes (`FileValidation.NoFilesPass`).
- The tests expect `ResolverError('Resolver not found')` from `create()` with no mutator (tests/index.spec.ts:53-56). src/index.ts never raises `ResolverError`. `create()` keeps the default resolver and validates the one file it names.
- The tests set `cacheExpiryTime = 0` (tests/index.spec.ts:16). src/index.ts treats 0 as falsy and resets it to 60000 (src/index.ts:50-51).

## Model

| member | source | states |
|---|---|---|
| `ConfigsOptions.DefaultOptions` | src/index.ts:24-30 | the default options: the empty-data source, delimiter `.`, directory `configs`, expiry 60000 ms and the resolver `config.<env>.yaml` |
| `ConfigsOptions.NoData` | src/index.ts:25 | the default `fetchData` answers with an empty mapping |
| `ConfigsOptions.ResolveByEnvironment` | src/index.ts:29 | the default resolver names the single file `config.<env>.yaml` |
| `ConfigsOptions.WithDefaults` | src/index.ts:44-53 | every option left falsy takes its default (`cacheExpiryTime` 0 becomes 60000, `''` delimiter becomes `'.'`), every truthy option is kept, the result has no falsy option, and truthy options pass through unchanged |
| `ConfigsOptions.WithDefaultsIdempotent` | src/index.ts:44-53 | resetting falsy options a second time changes nothing |
| `ConfigsOptions.DefaultsAreTruthy` | src/index.ts:24-30 | the defaults have no falsy option, so `create()` with no mutator keeps them |
| `ConfigsOptions.DefaultResolverNamesYaml` | src/index.ts:29 | the default resolver names one file, and its extension is `.yaml` unless the environment ends in a slash |
| `ConfigsOptions.DefaultResolverSlashEnvironment` | src/index.ts:29 | an environment ending in a slash makes the default file a hidden `.yaml` file with no extension |
| `Runtime.Environment` | src/index.ts:66 | the environment is `NODE_ENV` when set and non-empty, else `development`, and never empty |
| `NodePath.ExtName` | src/index.ts:77 | `path.extname` on POSIX: the extension of the last segment once trailing slashes are removed, from its last dot to its end; empty when the segment has no dot, starts with its only dot, or is `..`. Its results are bounded by `ExtNameShape` and computed exactly by `ExtNameOfName`, `ExtNameHidden` and `ExtNameNoDot` |
| `NodePath.ExtNameShape` | src/index.ts:77 | an extension is empty, or a dot followed by characters that are neither dots nor slashes |
| `NodePath.ExtNameOfName` | src/index.ts:77 | a non-empty name that does not end in a slash, followed by an extension (a dot and at least one character, none of them a dot or a slash), has exactly that extension |
| `NodePath.ExtNameHidden` | src/index.ts:77 | a directory prefix (empty or ending in a slash) followed by an extension names a hidden file such as `.yaml`, which has no extension |
| `NodePath.ExtNameNoDot` | src/index.ts:77 | a path without a dot has no extension |
| `Errors.ConfigError.Message` | src/index.ts:59-82 | the three messages `create` throws: `Directory <dir> does not exist`, `Config file <file> does not exist`, and `Unsupported file extension <ext>. Only .yaml and .yml are supported.` |
| `Errors.MessageNamesSubject` | src/index.ts:59-82 | every error's message contains what it is about: the directory, the file or the extension |
| `Errors.NameIdentifiesKind` | src/errors/package.error.ts:6 | an error's `name` is its class name, and two errors share a name exactly when they are of the same kind |
| `FileValidation.SupportedExtension` | src/index.ts:78 | an extension is supported exactly when it is `.yaml` or `.yml` |
| `FileValidation.ResolvedFiles` | src/index.ts:65-67 | the files the resolver names for `NODE_ENV \|\| 'development'`; a refresh calls it again in the same way (src/index.ts:95) |
| `FileValidation.CheckFile` | src/index.ts:69-82 | one file passes exactly when it exists and its extension is supported; a missing file fails with `FileError` naming the file whatever its extension, so existence is checked first; an existing file with an unsupported extension fails with `ParserError` naming that extension |
| `FileValidation.FirstRejected` | src/index.ts:68-83 | the position found is the first rejected file: all files before it pass and it fails, or all pass |
| `FileValidation.CheckFiles` | src/index.ts:68-83 | a file list passes exactly when every file exists with a `.yaml` or `.yml` extension |
| `FileValidation.CheckOptions` | src/index.ts:55-83 | a missing directory raises `DirectoryError` before any file is looked at; validation passes exactly when the directory exists and every resolved file exists with a supported extension; otherwise the error is that of the first failing file in resolver order |
| `FileValidation.FailsAt` | src/index.ts:68-83 | when every file before position `i` passes and the file at `i` does not, the whole list fails with that file's error |
| `FileValidation.NoFilesPass` | src/index.ts:65-83 | an empty resolved file list passes once the directory exists |
| `FileValidation.ValidateFiles` | src/index.ts:68-83 | the loop returns the outcome of checking the files in order, stopping at the first failure |
| `FileValidation.JsonFileRejected` | src/index.ts:76-82 | an existing file `name.json` (such as `config.invalid.json`) is rejected with a `ParserError` naming `.json` |
| `Facade.Configs.constructor` | src/index.ts:32-36 | a new instance holds the options, with no cached mapping and `valueSetTime` 0 |
| `Facade.Configs.Create` | src/index.ts:38-86 | `create` fails exactly when validation of the defaulted options fails, with its error; otherwise it returns a fresh instance holding the defaulted options and an empty cache |
| `Facade.Configs.Get` | src/index.ts:88-131 | the new cache state and the answer are those of the specification functions `GetState` and `GetAnswer` |
| `Facade.Refresh` | src/index.ts:92-114 | a due refresh: a failing `fetchData` ends it before anything changes; otherwise the files the resolver names for the current environment are merged, and the merge either fails or yields the new mapping |
| `Facade.GetAnswer` | src/index.ts:88-131 | the value `get(key)` resolves to: the lookup in the freshly merged mapping when a refresh is due and succeeds, the refresh's error when it fails, and the lookup in the cached mapping otherwise |
| `Facade.GetState` | src/index.ts:88-115 | the cache state `get` leaves: that of `AfterGet` with the refresh `Refresh` would run |
| `Facade.GetAnswersFromCache` | src/index.ts:88-131 | a successful `get` answers from the mapping the call leaves cached; the empty key answers with that whole mapping; `get` fails only when a due refresh fails |
| `Facade.SecondGetWithinExpiryReuses` | src/index.ts:89-115 | after a successful refresh, a `get` within the expiry time changes nothing and answers from the mapping that refresh built |
| `CacheControl.IsStale` | src/index.ts:89-91 | a refresh is due when no mapping is cached or the clock is strictly past `valueSetTime + cacheExpiryTime` |
| `CacheControl.AfterRefresh` | src/index.ts:92-114 | a failing `fetchData` changes nothing; a failing file keeps the old mapping with the new timestamp; a successful merge stores the mapping with the new timestamp |
| `CacheControl.AfterGet` | src/index.ts:89-115 | the state after `get`: unchanged when nothing is due, that of the refresh otherwise |
| `CacheControl.GetChangesStateOnlyWhenStale` | src/index.ts:89-115 | without a refresh neither field changes; a successful refresh stores the new mapping with the `now` read at the start of the call |
| `CacheControl.ReusedUntilExpiry` | src/index.ts:89-91 | after a refresh at `t1`, every `get` up to and including `t1 + cacheExpiryTime` reuses the cache |
| `CacheControl.RefreshedAfterExpiry` | src/index.ts:89-115 | after a refresh at `t1`, a `get` after `t1 + cacheExpiryTime` refreshes and stamps its own time |
| `CacheControl.CachedValueKept` | src/index.ts:91-115 | a cached mapping is never dropped |
| `CacheControl.FailedLoadDefersRetry` | src/index.ts:92-114 | a refresh whose files fail keeps the old mapping but moves `valueSetTime`; with a mapping cached no refresh happens until the next expiry, with none cached the next `get` refreshes |
| `TemplateMerge.LoadFile` | src/index.ts:97-113 | one file is read, rendered with the fetched data, parsed and spread, and the first of these steps to fail gives the error |
| `TemplateMerge.MergeLayers` | src/index.ts:96-114 | the shallow merge `{ ...acc, ...layer }` of the spread files, in order |
| `TemplateMerge.MergeFiles` | src/index.ts:94-114 | the fold succeeds exactly when every file reads, renders and parses; it then equals the shallow merge of the spread files in order; otherwise it fails with the error of the first failing file |
| `TemplateMerge.MergeKeys` | src/index.ts:113 | the merged keys are the start mapping's and every file's keys |
| `TemplateMerge.LaterLayerWins` | src/index.ts:113 | a key takes its value from the last file that defines it |
| `TemplateMerge.UntouchedKeySurvives` | src/index.ts:113 | a key no later file defines keeps its earlier value |
| `TemplateMerge.MergeAppend` | src/index.ts:96-114 | merging files in two runs is merging them all at once |
| `TemplateMerge.NestedObjectsReplacedWhole` | src/index.ts:113 | when two files define a key as an object, the later object replaces the earlier one whole |
| `Values.Spread` | src/index.ts:113 | `{ ...v }` for a parsed document: an object's entries, index-named entries for a sequence or a string, nothing for a number, boolean, `null` or `undefined` |
| `Values.IndexedEntriesAt` | src/index.ts:113 | spreading a sequence yields exactly one entry per index, named by its decimal rendering |
| `Values.SpreadArray` | src/index.ts:113 | a parsed sequence document spreads its elements under `"0"`, `"1"`, ... |
| `Values.SpreadScalar` | src/index.ts:113 | a parsed number, boolean, `null` or `undefined` document adds no key |
| `JsStrings.IndexOfSpec` | src/index.ts:119 | the delimiter search `split` uses finds the first occurrence at or after the start position, or reports that there is none |
| `JsStrings.Split` | src/index.ts:119 | a split on a non-empty delimiter has at least one piece; an empty delimiter gives one piece per character |
| `JsStrings.JoinSplit` | src/index.ts:119 | joining the pieces of a split with the delimiter gives back the key |
| `JsStrings.SplitPiecesFree` | src/index.ts:119 | no piece of a split contains the delimiter |
| `JsStrings.SplitJoin` | src/index.ts:119 | splitting a join gives back the pieces when the delimiter cannot start early inside a piece |
| `JsStrings.SplitJoinOneChar` | src/index.ts:119 | with a one-character delimiter that no piece contains, splitting a join gives back the pieces |
| `JsStrings.ParseInt` | src/index.ts:125 | `parseInt` with no radix: leading white space is skipped, an optional sign is read, `0x` or `0X` switches to radix 16, and the longest digit prefix is read; no digit gives `NaN`. `ParseIntDecimal`, `ParseIntDecimalPrefix`, `ParseIntNegative` and `ParseIntNotANumber` state its results |
| `JsStrings.TrimStart` | src/index.ts:125 | `parseInt`'s white-space skip removes a prefix and leaves no leading white space |
| `JsStrings.DigitPrefix` | src/index.ts:125 | the digits `parseInt` reads are the longest digit prefix |
| `JsStrings.Decimal` | src/index.ts:113 | the decimal rendering is a non-empty run of digits with no leading zero |
| `JsStrings.ParseIntDecimal` | src/index.ts:125 | `parseInt` inverts the decimal rendering |
| `JsStrings.ParseIntDecimalPrefix` | src/index.ts:125 | `parseInt` of a decimal number followed by text that starts with neither a digit nor `x` is that number |
| `JsStrings.ParseIntNegative` | src/index.ts:125 | a leading minus sign negates the number |
| `JsStrings.ParseIntNotANumber` | src/index.ts:125 | a string starting with a character that is not white space, a sign or a digit is `NaN` |
| `PathLookup.ArrayIndex` | src/index.ts:125 | the index an array segment selects: `parseInt` of the segment when that is an integer, -1 when it is `NaN` |
| `PathLookup.Step` | src/index.ts:120-129 | one step of the lookup: an object is indexed by property name, an array by `ArrayIndex` (`Undefined` when out of range), and any other value is returned unchanged |
| `PathLookup.LookupPath` | src/index.ts:119-130 | the `reduce` of `Step` over the segments, left to right |
| `PathLookup.Select` | src/index.ts:117-130 | `get`'s answer from the mapping: the whole mapping for the empty key, otherwise the lookup over the key split on the delimiter |
| `PathLookup.ArrayStepDecimal` | src/index.ts:124-126 | a decimal segment selects that array element, or `Undefined` past the end |
| `PathLookup.ArrayStepDecimalPrefix` | src/index.ts:124-126 | a segment that is a decimal number followed by other text selects the element of that number |
| `PathLookup.ArrayStepNegative` | src/index.ts:124-126 | a negative segment selects nothing in an array |
| `PathLookup.ArrayStepNotANumber` | src/index.ts:124-126 | a non-numeric segment (index -1) selects nothing in an array |
| `PathLookup.MissingPropertyIsUndefined` | src/index.ts:122-123 | a missing property reads as `Undefined`, and so does the rest of the path |
| `PathLookup.LookupPassesThrough` | src/index.ts:127-128 | a path continuing past a scalar, `null` or `undefined` returns that value |
| `PathLookup.LookupAppend` | src/index.ts:119-130 | looking up a path in two parts is looking up the second part in the result of the first |
| `PathLookup.LookupNested` | src/index.ts:119-123 | following a property chain through nested objects reaches the nested value |
| `PathLookup.SelectJoined` | src/index.ts:117-130 | a non-empty key joined from pieces the delimiter does not cut early is looked up piece by piece |
| `PathLookup.SelectJoinedOneChar` | src/index.ts:117-130 | the same for a one-character delimiter that no piece contains |
| `PathLookup.HappyPathTopLevel` | tests/index.spec.ts:129-149 | on the happy-path mapping the empty key returns the whole mapping and `name` returns `somename` |
| `PathLookup.HappyPathObject` | tests/index.spec.ts:181-184 | on the happy-path mapping `object` returns the whole nested object |
| `PathLookup.HappyPathNested` | tests/index.spec.ts:161-164 | on the happy-path mapping `prop1/prop2/prop3` returns `value3` |
| `PathLookup.HappyPathListItem` | tests/index.spec.ts:176-179 | on the happy-path mapping `prop5/0` returns `value5` |

## Left out

- Asynchrony and overlapping `get` calls. Each `get` runs to completion in the model, so two concurrent refreshes of a stale cache are not modelled.
- `app-root-path` and `path.join` are not modelled. Existence is a predicate on the configuration directory name, and on the directory name paired with a file name.
- `Mustache.render` (its `${{ }}` tags and disabled escaping) and `YAML.parse` are not modelled. They are the two functions of an `Engine`, and only their order and their failures are modelled.
- Numbers are not IEEE doubles. `cacheExpiryTime` and the clock are integers, so a `NaN` or fractional expiry time is not modelled.
- `JsStrings.ParseInt` returns exact integers where JavaScript rounds to a double above 2^53 or gives `Infinity`. Such values are beyond any array's length, so lookups give `Undefined` either way.
- `PathLookup.Step` on an object reads own properties only. Inherited properties such as `constructor` or `__proto__` are not modelled.
- Strings are sequences of Unicode scalar values, not UTF-16 code units. This matters only for splitting on an empty delimiter and for spreading a string document. `create` never leaves the delimiter empty.
- The caller's mutator and `configsResolver` are total functions in the model. In the source, either may throw. A throw from the mutator (src/index.ts:42) or from the resolver in `create` (src/index.ts:65) escapes `create` as an error that is not one of its own. A throw from the resolver in `get` (src/index.ts:95) rejects after `valueSetTime` has been stamped, as a failing file does. None of these paths is modelled.
- Options set to values outside their TypeScript types are not modelled. The one exception is a function-valued option set to a falsy value, which is `None`.
- `ExtensionError`, `FilesError` and `ResolverError` (src/errors/) are not modelled, because src/index.ts never raises them. The export list in src/errors/index.ts is not modelled either.
- The `as T` cast in `get` is not modelled. It performs no check, so the model's answer is the looked-up `Value` with no conversion.
- Facade.Configs.Get: in the source, results are shared by reference with the cache. `get('')` returns the cached object itself (src/index.ts:117), and a keyed `get` returns references into it (src/index.ts:123, :126). A caller that mutates a result changes what every later `get` within the expiry window answers. The model's values are immutable, so this aliasing is not captured. `Facade.SecondGetWithinExpiryReuses` holds only for callers that do not mutate what `get` returned.
- Facade.Configs.Create: in the source, the instance keeps the very options object it handed to the mutator (src/index.ts:41-42, :85). A mutator that keeps a reference can later write `cacheExpiryTime = 0` or `pathDelimiter = ''` into the live instance, bypassing the falsy-option reset. The model's options are an immutable value fixed at construction, so this aliasing is not captured, and `Truthy(options)` in `Valid()` assumes no such later write.
- `NodePath.ExtName` models the POSIX variant of `path.extname`. The Windows variant is not modelled.
