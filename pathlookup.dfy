/**
 * Delimited path lookup: `get(key)` splits a non-empty key on the configured
 * delimiter and walks the merged mapping one segment at a time, indexing
 * objects by property name and arrays by `parseInt` of the segment, and
 * passing every other value through unchanged.
 */
module PathLookup {
  import opened JsStrings
  import opened Values

  /** The array index a segment selects: `parseInt(segment)` when that is an
      integer, -1 otherwise. */
  function ArrayIndex(segment: string): int {
    match ParseInt(segment)
    case Int(n) => n
    case NaN => -1
  }

  /** One step of the lookup fold. */
  function Step(v: Value, segment: string): Value {
    match v
    case Object(fields) => if segment in fields then fields[segment] else Undefined
    case Array(items) =>
      var i := ArrayIndex(segment);
      if 0 <= i < |items| then items[i] else Undefined
    case _ => v
  }

  /** The lookup fold over the segments, left to right. */
  function LookupPath(v: Value, segments: seq<string>): Value
    decreases |segments|
  {
    if segments == [] then v else LookupPath(Step(v, segments[0]), segments[1..])
  }

  /** The value `get(key)` returns from `root` with the given delimiter: the
      whole of `root` for the empty key. */
  function Select(root: Value, key: string, delimiter: string): Value {
    if key == "" then root else LookupPath(root, Split(key, delimiter))
  }

  /** A decimal segment selects that element of an array, or `Undefined` past
      its end. */
  lemma ArrayStepDecimal(items: seq<Value>, n: nat)
    ensures Step(Array(items), Decimal(n)) == if n < |items| then items[n] else Undefined
  {
    ParseIntDecimal(n);
  }

  /** A segment that starts with a decimal number and continues with other
      text still selects that element (`parseInt` stops at the first
      non-digit). */
  lemma ArrayStepDecimalPrefix(items: seq<Value>, n: nat, rest: string)
    requires rest == [] || (!IsDigit(rest[0], 10) && rest[0] != 'x' && rest[0] != 'X')
    ensures Step(Array(items), Decimal(n) + rest) == if n < |items| then items[n] else Undefined
  {
    ParseIntDecimalPrefix(n, rest);
  }

  /** A negative segment selects nothing. */
  lemma ArrayStepNegative(items: seq<Value>, n: nat)
    requires n > 0
    ensures Step(Array(items), "-" + Decimal(n)) == Undefined
  {
    ParseIntNegative(n);
  }

  /** A segment that is not a number selects nothing in an array. */
  lemma ArrayStepNotANumber(items: seq<Value>, segment: string)
    requires |segment| > 0 && !IsStrWhiteSpace(segment[0]) && !IsDigit(segment[0], 10)
    requires segment[0] != '-' && segment[0] != '+'
    ensures Step(Array(items), segment) == Undefined
  {
    ParseIntNotANumber(segment);
  }

  /** A missing property reads as `Undefined`, and `Undefined` stays
      `Undefined` whatever follows. */
  lemma MissingPropertyIsUndefined(fields: map<string, Value>, segment: string, more: seq<string>)
    requires segment !in fields
    ensures LookupPath(Object(fields), [segment] + more) == Undefined
  {
    assert ([segment] + more)[1..] == more;
    LookupPassesThrough(Undefined, more);
  }

  /** Anything that is neither an object nor an array is returned unchanged
      by the rest of the path: a path that continues past a scalar yields that
      scalar. */
  lemma {:induction false} LookupPassesThrough(v: Value, segments: seq<string>)
    requires !v.Object? && !v.Array?
    ensures LookupPath(v, segments) == v
    decreases |segments|
  {
    if segments != [] {
      LookupPassesThrough(v, segments[1..]);
    }
  }

  /** Looking up a path in two parts is looking up the second part in the
      result of the first. */
  lemma {:induction false} LookupAppend(v: Value, a: seq<string>, b: seq<string>)
    ensures LookupPath(v, a + b) == LookupPath(LookupPath(v, a), b)
    decreases |a|
  {
    if a == [] {
      assert a + b == b;
    } else {
      assert (a + b)[0] == a[0];
      assert (a + b)[1..] == a[1..] + b;
      LookupAppend(Step(v, a[0]), a[1..], b);
    }
  }

  /** The value that nests `leaf` under the property chain `segments`. */
  function Nest(segments: seq<string>, leaf: Value): Value
    decreases |segments|
  {
    if segments == [] then leaf else Object(map[segments[0] := Nest(segments[1..], leaf)])
  }

  /** Following a property chain through nested objects reaches the leaf. */
  lemma {:induction false} LookupNested(segments: seq<string>, leaf: Value)
    ensures LookupPath(Nest(segments, leaf), segments) == leaf
    decreases |segments|
  {
    if segments != [] {
      LookupNested(segments[1..], leaf);
    }
  }

  /** A non-empty key joined from segments that the delimiter does not cut
      early is looked up segment by segment. */
  lemma SelectJoined(root: Value, segments: seq<string>, delimiter: string)
    requires |delimiter| > 0 && |segments| >= 1
    requires forall k :: 0 <= k < |segments| ==> NoEarlyOccurrence(segments[k], delimiter)
    requires Join(segments, delimiter) != ""
    ensures Select(root, Join(segments, delimiter), delimiter) == LookupPath(root, segments)
  {
    SplitJoin(segments, delimiter);
  }

  /** The same with a one-character delimiter that no segment contains, such
      as `.` or `/`. */
  lemma SelectJoinedOneChar(root: Value, segments: seq<string>, c: char)
    requires |segments| >= 1
    requires forall k :: 0 <= k < |segments| ==> c !in segments[k]
    requires Join(segments, [c]) != ""
    ensures Select(root, Join(segments, [c]), [c]) == LookupPath(root, segments)
  {
    SplitJoinOneChar(segments, c);
  }

  /** The mapping tests/index.spec.ts:131-143 expects `get()` to return. */
  function HappyPathValue(): Value {
    Object(map[
      "name" := Str("somename"),
      "description" := Str("someotherdescription"),
      "version" := Str("v1.2.3"),
      "prop1" := Nest(["prop2"], Object(map["prop3" := Str("value3"), "prop4" := Str("value4")])),
      "prop5" := Array([Str("value5"), Str("value6")]),
      "object" := Object(map["name" := Str("Shaddy Mansour")])])
  }

  /** The empty key answers with the whole mapping, and a top-level key with
      its value. */
  lemma HappyPathTopLevel()
    ensures Select(HappyPathValue(), "", "/") == HappyPathValue()
    ensures Select(HappyPathValue(), "name", "/") == Str("somename")
  {
    SelectJoinedOneChar(HappyPathValue(), ["name"], '/');
  }

  /** A top-level key holding an object answers with the whole object. */
  lemma HappyPathObject()
    ensures Select(HappyPathValue(), "object", "/") == Object(map["name" := Str("Shaddy Mansour")])
  {
    SelectJoinedOneChar(HappyPathValue(), ["object"], '/');
  }

  /** A `/`-delimited key walks nested objects. */
  lemma HappyPathNested()
    ensures Select(HappyPathValue(), "prop1/prop2/prop3", "/") == Str("value3")
  {
    var segments := ["prop1", "prop2", "prop3"];
    assert Join(segments, "/") == "prop1/prop2/prop3";
    SelectJoinedOneChar(HappyPathValue(), segments, '/');
  }

  /** A numeric segment indexes an array. */
  lemma HappyPathListItem()
    ensures Select(HappyPathValue(), "prop5/0", "/") == Str("value5")
  {
    var segments := ["prop5", "0"];
    assert Join(segments, "/") == "prop5/0";
    SelectJoinedOneChar(HappyPathValue(), segments, '/');
    assert Decimal(0) == "0";
    ArrayStepDecimal([Str("value5"), Str("value6")], 0);
  }
}
