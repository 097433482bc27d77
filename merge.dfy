/**
 * The refresh pipeline of `get`: each resolved file, in order, is read,
 * rendered with the templating data, parsed, and spread over the accumulated
 * mapping (`{ ...acc, ...parsed }`), so a later file overrides the top-level
 * keys it defines and nested objects are replaced whole.
 */
module TemplateMerge {
  import opened Results
  import opened Values
  import opened Runtime

  /** The two libraries the pipeline calls: the template renderer (tags
      `${{ }}`, no escaping) and the YAML parser. Either may fail. */
  datatype Engine = Engine(
    render: (string, Data) -> Result<string, string>,
    parse: string -> Result<Value, string>)

  /** Everything a refresh reads files with: the configuration directory, the
      templating data fetched for this refresh, the file system and the
      libraries. */
  datatype Source = Source(directory: string, data: Data, fs: FileSystem, engine: Engine)

  /** Read, render, parse and spread one file. */
  function LoadFile(src: Source, file: string): Result<Data, string> {
    match src.fs.readFile(src.directory, file)
    case Failure(e) => Failure(e)
    case Success(content) =>
      match src.engine.render(content, src.data)
      case Failure(e) => Failure(e)
      case Success(text) =>
        match src.engine.parse(text)
        case Failure(e) => Failure(e)
        case Success(v) => Success(Spread(v))
  }

  /** The shallow merge of layers over `acc`, in order. */
  function MergeLayers(acc: Data, layers: seq<Data>): Data
    decreases |layers|
  {
    if layers == [] then acc else MergeLayers(acc + layers[0], layers[1..])
  }

  /** All files load. */
  ghost predicate AllLoad(src: Source, files: seq<string>) {
    forall i :: 0 <= i < |files| ==> LoadFile(src, files[i]).Success?
  }

  /** The spread mappings of files that all load. */
  function Layers(src: Source, files: seq<string>): (r: seq<Data>)
    requires AllLoad(src, files)
    ensures |r| == |files|
    ensures forall i :: 0 <= i < |files| ==> r[i] == LoadFile(src, files[i]).value
  {
    seq(|files|, i requires 0 <= i < |files| => LoadFile(src, files[i]).value)
  }

  /** The `reduce` over the resolved files: each step waits for the previous
      one, so the first file that fails stops the fold with its error. */
  function MergeFiles(src: Source, acc: Data, files: seq<string>): (r: Result<Data, string>)
    ensures r.Success? <==> AllLoad(src, files)
    ensures r.Success? ==> r.value == MergeLayers(acc, Layers(src, files))
    ensures r.Failure? ==> exists i :: 0 <= i < |files| && LoadFile(src, files[i]) == Failure(r.error)
                                       && forall j :: 0 <= j < i ==> LoadFile(src, files[j]).Success?
    decreases |files|
  {
    if files == [] then Success(acc)
    else
      match LoadFile(src, files[0])
      case Failure(e) => Failure(e)
      case Success(layer) =>
        var r := MergeFiles(src, acc + layer, files[1..]);
        assert AllLoad(src, files) <==> AllLoad(src, files[1..]) by {
          forall i | 1 <= i < |files| ensures files[i] == files[1..][i - 1] { }
        }
        assert r.Success? ==> Layers(src, files) == [layer] + Layers(src, files[1..]);
        assert r.Failure? ==> exists i :: 1 <= i < |files| && LoadFile(src, files[i]) == Failure(r.error)
                                          && forall j :: 0 <= j < i ==> LoadFile(src, files[j]).Success? by {
          if r.Failure? {
            var i :| 0 <= i < |files| - 1 && LoadFile(src, files[1..][i]) == Failure(r.error)
                     && forall j :: 0 <= j < i ==> LoadFile(src, files[1..][j]).Success?;
            assert files[1..][i] == files[i + 1];
            forall j | 0 <= j < i + 1 ensures LoadFile(src, files[j]).Success? {
              if j > 0 { assert files[j] == files[1..][j - 1]; }
            }
          }
        }
        r
  }

  /** The keys of a merge are the keys of the start mapping and of every layer. */
  lemma {:induction false} MergeKeys(acc: Data, layers: seq<Data>, k: string)
    ensures k in MergeLayers(acc, layers) <==> k in acc || exists j :: 0 <= j < |layers| && k in layers[j]
    decreases |layers|
  {
    if layers != [] {
      MergeKeys(acc + layers[0], layers[1..], k);
      if exists j :: 0 <= j < |layers| && k in layers[j] {
        var j :| 0 <= j < |layers| && k in layers[j];
        if j > 0 { assert layers[1..][j - 1] == layers[j]; }
      }
      if exists j :: 0 <= j < |layers| - 1 && k in layers[1..][j] {
        var j :| 0 <= j < |layers| - 1 && k in layers[1..][j];
        assert layers[j + 1] == layers[1..][j];
      }
    }
  }

  /** A key takes its value from the last layer that defines it. */
  lemma {:induction false} LaterLayerWins(acc: Data, layers: seq<Data>, k: string, j: nat)
    requires j < |layers| && k in layers[j]
    requires forall l :: j < l < |layers| ==> k !in layers[l]
    ensures k in MergeLayers(acc, layers) && MergeLayers(acc, layers)[k] == layers[j][k]
    decreases |layers|
  {
    var rest := layers[1..];
    forall l | 0 <= l < |rest| && j - 1 < l ensures k !in rest[l] {
      assert rest[l] == layers[l + 1];
    }
    if j == 0 {
      UntouchedKeySurvives(acc + layers[0], rest, k);
    } else {
      assert rest[j - 1] == layers[j];
      LaterLayerWins(acc + layers[0], rest, k, j - 1);
    }
  }

  /** A key that no layer defines keeps its value from the start mapping. */
  lemma {:induction false} UntouchedKeySurvives(acc: Data, layers: seq<Data>, k: string)
    requires k in acc
    requires forall l :: 0 <= l < |layers| ==> k !in layers[l]
    ensures k in MergeLayers(acc, layers) && MergeLayers(acc, layers)[k] == acc[k]
    decreases |layers|
  {
    if layers != [] {
      forall l | 0 <= l < |layers| - 1 ensures k !in layers[1..][l] {
        assert layers[1..][l] == layers[l + 1];
      }
      UntouchedKeySurvives(acc + layers[0], layers[1..], k);
    }
  }

  /** Merging two runs of layers in turn is merging them all at once. */
  lemma {:induction false} MergeAppend(acc: Data, a: seq<Data>, b: seq<Data>)
    ensures MergeLayers(acc, a + b) == MergeLayers(MergeLayers(acc, a), b)
    decreases |a|
  {
    if a == [] {
      assert a + b == b;
    } else {
      assert (a + b)[0] == a[0];
      assert (a + b)[1..] == a[1..] + b;
      MergeAppend(acc + a[0], a[1..], b);
    }
  }

  /** Two files that both define a key as an object: the merge keeps the
      later object as it is and does not combine their properties. */
  lemma NestedObjectsReplacedWhole(first: Data, second: Data, k: string)
    requires k in first && first[k].Object? && k in second && second[k].Object?
    ensures k in MergeLayers(map[], [first, second]) && MergeLayers(map[], [first, second])[k] == second[k]
  {
    LaterLayerWins(map[], [first, second], k, 1);
  }
}
