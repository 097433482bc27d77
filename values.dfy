/**
 * The JSON-like values a parsed YAML document is made of, as the loader's
 * `Object.prototype.toString` switch tells them apart, and object spread
 * (`{ ...v }`), which is how a parsed document enters the merged mapping.
 */
module Values {
  import opened JsStrings

  /** A parsed configuration value. `Undefined` is what a missing property or
      an out-of-range index reads as. */
  datatype Value =
    | Object(fields: map<string, Value>)
    | Array(items: seq<Value>)
    | Str(s: string)
    | Num(n: real)
    | Bool(b: bool)
    | Null
    | Undefined

  /** A top-level configuration mapping. */
  type Data = map<string, Value>

  /** The entries `"0"`, `"1"`, ... that spreading an array-like value yields. */
  function IndexedEntries(items: seq<Value>): Data {
    if items == [] then map[]
    else IndexedEntries(items[..|items| - 1])[Decimal(|items| - 1) := items[|items| - 1]]
  }

  /** Distinct indexes have distinct decimal names. */
  lemma DecimalInjective(i: nat, j: nat)
    requires Decimal(i) == Decimal(j)
    ensures i == j
  {
    ParseIntDecimal(i);
    ParseIntDecimal(j);
  }

  /** Spreading a sequence gives exactly one entry per index, named by its
      decimal rendering. */
  lemma {:induction false} IndexedEntriesAt(items: seq<Value>, k: string)
    ensures k in IndexedEntries(items) <==> exists i :: 0 <= i < |items| && Decimal(i) == k
    ensures forall i :: 0 <= i < |items| && Decimal(i) == k ==> IndexedEntries(items)[k] == items[i]
  {
    if items != [] {
      var n := |items| - 1;
      var front := items[..n];
      IndexedEntriesAt(front, k);
      forall i | 0 <= i < |items| && Decimal(i) == k
        ensures k in IndexedEntries(items) && IndexedEntries(items)[k] == items[i]
      {
        if i < n {
          if Decimal(n) == k { DecimalInjective(i, n); }
          assert front[i] == items[i];
        }
      }
      if k in IndexedEntries(items) && k != Decimal(n) {
        var i :| 0 <= i < |front| && Decimal(i) == k;
        assert 0 <= i < |items|;
      }
    }
  }

  /** The characters of a string as one-character string values. */
  function Chars(s: string): (r: seq<Value>)
    ensures |r| == |s| && forall i :: 0 <= i < |s| ==> r[i] == Str([s[i]])
  {
    seq(|s|, i requires 0 <= i < |s| => Str([s[i]]))
  }

  /** The own enumerable properties `{ ...v }` copies: an object's fields, the
      indexed elements of an array or the characters of a string, and nothing
      for a number, a boolean, `null` or `undefined`. */
  function Spread(v: Value): Data {
    match v
    case Object(fields) => fields
    case Array(items) => IndexedEntries(items)
    case Str(s) => IndexedEntries(Chars(s))
    case _ => map[]
  }

  /** A parsed sequence document spreads into index-named entries. */
  lemma SpreadArray(items: seq<Value>, i: nat)
    requires i < |items|
    ensures Decimal(i) in Spread(Array(items)) && Spread(Array(items))[Decimal(i)] == items[i]
  {
    IndexedEntriesAt(items, Decimal(i));
  }

  /** A parsed scalar document (for example an empty file, which parses to
      `null`) contributes no entry. */
  lemma SpreadScalar(v: Value)
    requires v.Num? || v.Bool? || v.Null? || v.Undefined?
    ensures Spread(v) == map[]
  {
  }
}
