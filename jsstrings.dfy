/**
 * The JavaScript string built-ins the configuration loader relies on:
 * `String.prototype.split` and `Array.prototype.join` on a separator string,
 * `parseInt` with no radix argument, and the decimal rendering of a
 * non-negative integer (the property names an array or a string spreads into).
 */
module JsStrings {

  /** `d` occurs in `s` starting at index `j`. */
  predicate OccursAt(s: string, d: string, j: int) {
    0 <= j && j + |d| <= |s| && s[j..j + |d|] == d
  }

  /** `d` occurs nowhere in `s`. */
  ghost predicate Free(s: string, d: string) {
    forall j :: !OccursAt(s, d, j)
  }

  /** No occurrence of `d` starts inside `a` even when `d` follows `a`: a split
      on `d` then cuts `a + d + rest` right after `a`. For a one-character
      separator this is just "`a` does not contain it". */
  ghost predicate NoEarlyOccurrence(a: string, d: string) {
    forall j :: 0 <= j < |a| ==> !OccursAt(a + d, d, j)
  }

  /** `d` occurs in `s` at `from`, compared character by character. */
  predicate MatchesAt(s: string, d: string, from: nat)
    decreases |d|
  {
    d == [] || (from < |s| && s[from] == d[0] && MatchesAt(s, d[1..], from + 1))
  }

  /** The character-by-character comparison is the slice comparison. */
  lemma {:induction false} MatchesAtOccurs(s: string, d: string, from: nat)
    requires from + |d| <= |s|
    ensures MatchesAt(s, d, from) <==> OccursAt(s, d, from)
    decreases |d|
  {
    if d != [] {
      MatchesAtOccurs(s, d[1..], from + 1);
      assert s[from..from + |d|] == [s[from]] + s[from + 1..from + |d|];
      assert d == [d[0]] + d[1..];
    }
  }

  /** `s.indexOf(d, from)` for a non-empty `d`: the first occurrence at or
      after `from`, or -1 (`IndexOfSpec` states what it finds). */
  function IndexOf(s: string, d: string, from: nat): (r: int)
    requires |d| > 0
    ensures r == -1 || (from <= r && r + |d| <= |s|)
    decreases |s| - from
  {
    if from + |d| > |s| then -1
    else if MatchesAt(s, d, from) then from
    else IndexOf(s, d, from + 1)
  }

  /** `indexOf` finds an occurrence, and none occurs between `from` and what
      it finds (anywhere after `from` when it finds nothing). */
  lemma {:induction false} IndexOfSpec(s: string, d: string, from: nat)
    requires |d| > 0
    ensures var r := IndexOf(s, d, from);
            && (r == -1 || OccursAt(s, d, r))
            && forall j :: from <= j && (r == -1 || j < r) ==> !OccursAt(s, d, j)
    decreases |s| - from
  {
    if from + |d| <= |s| {
      MatchesAtOccurs(s, d, from);
      if !MatchesAt(s, d, from) {
        IndexOfSpec(s, d, from + 1);
      }
    }
  }

  /** `s.split(d)`: the pieces of `s` between occurrences of `d`, searched
      left to right, empty pieces kept; an empty separator splits into single
      characters. */
  function Split(s: string, d: string): (r: seq<string>)
    ensures |d| > 0 ==> |r| >= 1
    ensures |d| == 0 ==> |r| == |s|
  {
    if |d| == 0 then seq(|s|, i requires 0 <= i < |s| => [s[i]]) else SplitOn(s, d)
  }

  /** The split on a non-empty separator: cut at the first occurrence and go
      on after it. */
  function SplitOn(s: string, d: string): (r: seq<string>)
    requires |d| > 0
    ensures |r| >= 1
    decreases |s|
  {
    var i := IndexOf(s, d, 0);
    if i == -1 then [s] else [s[..i]] + SplitOn(s[i + |d|..], d)
  }

  /** `segs.join(d)`. */
  function Join(segs: seq<string>, d: string): string {
    if |segs| == 0 then ""
    else if |segs| == 1 then segs[0]
    else segs[0] + d + Join(segs[1..], d)
  }

  lemma JoinCons(a: string, rest: seq<string>, d: string)
    requires |rest| >= 1
    ensures Join([a] + rest, d) == a + d + Join(rest, d)
  {
    assert ([a] + rest)[1..] == rest;
  }

  /** With no occurrence of the separator the split is the whole string. */
  lemma SplitWhole(s: string, d: string)
    requires |d| > 0 && IndexOf(s, d, 0) == -1
    ensures SplitOn(s, d) == [s]
  {
  }

  /** The split cuts at the first occurrence and goes on after it. */
  lemma SplitCut(s: string, d: string, i: int)
    requires |d| > 0 && i == IndexOf(s, d, 0) && i != -1
    ensures 0 <= i && i + |d| <= |s|
    ensures SplitOn(s, d) == [s[..i]] + SplitOn(s[i + |d|..], d)
  {
  }

  /** A string is its part before an occurrence, the separator, and its part
      after. */
  lemma Recompose(s: string, d: string, i: int)
    requires OccursAt(s, d, i)
    ensures s[..i] + d + s[i + |d|..] == s
  {
    assert s == s[..i] + s[i..i + |d|] + s[i + |d|..];
  }

  /** Joining the pieces of a split with the same non-empty separator gives
      back the original string. */
  lemma {:induction false} JoinSplit(s: string, d: string)
    requires |d| > 0
    ensures Join(Split(s, d), d) == s
    decreases |s|
  {
    var i := IndexOf(s, d, 0);
    if i == -1 {
      SplitWhole(s, d);
    } else {
      SplitCut(s, d, i);
      var rest := s[i + |d|..];
      JoinSplit(rest, d);
      JoinCons(s[..i], SplitOn(rest, d), d);
      IndexOfSpec(s, d, 0);
      Recompose(s, d, i);
    }
  }

  /** No piece of a split on a non-empty separator contains the separator. */
  lemma {:induction false} SplitPiecesFree(s: string, d: string)
    requires |d| > 0
    ensures forall k :: 0 <= k < |Split(s, d)| ==> Free(Split(s, d)[k], d)
    decreases |s|
  {
    var i := IndexOf(s, d, 0);
    if i == -1 {
      SplitWhole(s, d);
      IndexOfSpec(s, d, 0);
      forall j ensures !OccursAt(s, d, j) {
        assert 0 <= j ==> !OccursAt(s, d, j);
      }
    } else {
      SplitCut(s, d, i);
      var rest := s[i + |d|..];
      var tail := SplitOn(rest, d);
      SplitPiecesFree(rest, d);
      PrefixFree(s, d, i);
      var r := Split(s, d);
      assert Split(rest, d) == tail;
      assert r == [s[..i]] + tail;
      forall k | 0 <= k < |r| ensures Free(r[k], d) {
        if k == 0 {
          assert r[k] == s[..i];
        } else {
          assert r[k] == tail[k - 1];
        }
      }
    }
  }

  /** The part before the first occurrence holds no occurrence. */
  lemma PrefixFree(s: string, d: string, i: int)
    requires |d| > 0 && i == IndexOf(s, d, 0) && i != -1
    ensures 0 <= i <= |s| && Free(s[..i], d)
  {
    IndexOfSpec(s, d, 0);
    forall j ensures !OccursAt(s[..i], d, j) {
      if 0 <= j && j + |d| <= i {
        assert !OccursAt(s, d, j);
        assert s[..i][j..j + |d|] == s[j..j + |d|];
      }
    }
  }

  /** The first occurrence is unique: a position where `d` occurs with no
      earlier occurrence is what `indexOf` finds. */
  lemma IndexOfFirst(s: string, d: string, p: int)
    requires |d| > 0 && OccursAt(s, d, p)
    requires forall j :: 0 <= j < p ==> !OccursAt(s, d, j)
    ensures IndexOf(s, d, 0) == p
  {
    IndexOfSpec(s, d, 0);
  }

  /** A piece that lets no occurrence start early is not cut when it stands
      alone. */
  lemma LastPiece(a: string, d: string)
    requires |d| > 0 && NoEarlyOccurrence(a, d)
    ensures SplitOn(a, d) == [a]
  {
    forall j | 0 <= j && j + |d| <= |a| ensures !OccursAt(a, d, j) {
      assert !OccursAt(a + d, d, j);
      assert (a + d)[j..j + |d|] == a[j..j + |d|];
    }
    IndexOfSpec(a, d, 0);
    SplitWhole(a, d);
  }

  /** A piece that lets no occurrence start early is cut right after it. */
  lemma FirstPiece(a: string, d: string, rest: string)
    requires |d| > 0 && NoEarlyOccurrence(a, d)
    ensures SplitOn(a + d + rest, d) == [a] + SplitOn(rest, d)
  {
    var s := a + d + rest;
    assert OccursAt(s, d, |a|) by {
      assert s[|a|..|a| + |d|] == d;
    }
    forall j | 0 <= j < |a| ensures !OccursAt(s, d, j) {
      assert !OccursAt(a + d, d, j);
      assert j + |d| <= |a + d|;
      assert s[j..j + |d|] == (a + d)[j..j + |d|];
    }
    IndexOfFirst(s, d, |a|);
    SplitCut(s, d, |a|);
    assert s[..|a|] == a;
    assert s[|a| + |d|..] == rest;
  }

  /** Splitting a join gives back the pieces, provided no piece lets the
      separator start early. */
  lemma {:induction false} SplitJoin(segs: seq<string>, d: string)
    requires |d| > 0 && |segs| >= 1
    requires forall k :: 0 <= k < |segs| ==> NoEarlyOccurrence(segs[k], d)
    ensures Split(Join(segs, d), d) == segs
  {
    var a := segs[0];
    assert NoEarlyOccurrence(a, d);
    if |segs| == 1 {
      LastPiece(a, d);
    } else {
      var rest := Join(segs[1..], d);
      assert Join(segs, d) == a + d + rest;
      FirstPiece(a, d, rest);
      SplitJoin(segs[1..], d);
      assert segs == [a] + segs[1..];
    }
  }

  /** With a one-character separator, "no piece contains it" is enough for
      a join to split back into its pieces. */
  lemma SplitJoinOneChar(segs: seq<string>, c: char)
    requires |segs| >= 1
    requires forall k :: 0 <= k < |segs| ==> c !in segs[k]
    ensures Split(Join(segs, [c]), [c]) == segs
  {
    forall k | 0 <= k < |segs| ensures NoEarlyOccurrence(segs[k], [c]) {
      var a := segs[k];
      forall j | 0 <= j < |a| ensures !OccursAt(a + [c], [c], j) {
        assert (a + [c])[j..j + 1] == [a[j]];
      }
    }
    SplitJoin(segs, [c]);
  }

  // ---------------------------------------------------------------------
  // parseInt

  /** The result of `parseInt`: an integer or `NaN`. */
  datatype ParsedInt = NaN | Int(value: int)

  /** The characters `parseInt` skips at the start of its argument: the
      ECMAScript WhiteSpace and LineTerminator code points. */
  predicate IsStrWhiteSpace(c: char) {
    ('\t' <= c <= '\r') || c == ' ' || c == '\U{A0}' || c == '\U{1680}'
    || ('\U{2000}' <= c <= '\U{200A}') || c == '\U{2028}' || c == '\U{2029}'
    || c == '\U{202F}' || c == '\U{205F}' || c == '\U{3000}' || c == '\U{FEFF}'
  }

  /** `s` without its leading white space. */
  function TrimStart(s: string): (r: string)
    ensures |r| <= |s| && r == s[|s| - |r|..]
    ensures r == [] || !IsStrWhiteSpace(r[0])
    ensures forall i :: 0 <= i < |s| - |r| ==> IsStrWhiteSpace(s[i])
  {
    if s != [] && IsStrWhiteSpace(s[0]) then TrimStart(s[1..]) else s
  }

  /** The value of `c` as a digit of radix up to 36, or -1. */
  function DigitValue(c: char): int {
    if '0' <= c <= '9' then c as int - '0' as int
    else if 'a' <= c <= 'z' then c as int - 'a' as int + 10
    else if 'A' <= c <= 'Z' then c as int - 'A' as int + 10
    else -1
  }

  predicate IsDigit(c: char, radix: nat) {
    0 <= DigitValue(c) < radix
  }

  /** The longest prefix of `s` made of digits of `radix`. */
  function DigitPrefix(s: string, radix: nat): (r: string)
    ensures |r| <= |s| && r == s[..|r|]
    ensures forall i :: 0 <= i < |r| ==> IsDigit(r[i], radix)
    ensures |r| == |s| || !IsDigit(s[|r|], radix)
  {
    if s != [] && IsDigit(s[0], radix) then [s[0]] + DigitPrefix(s[1..], radix) else []
  }

  /** The integer the digits `ds` denote in `radix`, most significant first. */
  function DigitsValue(ds: string, radix: nat): int {
    if ds == [] then 0
    else DigitsValue(ds[..|ds| - 1], radix) * radix + DigitValue(ds[|ds| - 1])
  }

  /** The number denoted by the longest digit prefix of `w`, or `NaN` when
      `w` does not start with a digit of `radix`. */
  function ParseDigits(w: string, radix: nat): ParsedInt {
    var ds := DigitPrefix(w, radix);
    if ds == [] then NaN else Int(DigitsValue(ds, radix))
  }

  /** The unsigned part: radix 16 after a `0x` or `0X` prefix, else radix 10. */
  function ParseMagnitude(u: string): ParsedInt {
    if |u| >= 2 && u[0] == '0' && (u[1] == 'x' || u[1] == 'X') then ParseDigits(u[2..], 16)
    else ParseDigits(u, 10)
  }

  /** An optional sign followed by the unsigned part. */
  function ParseSigned(t: string): ParsedInt {
    if |t| > 0 && t[0] == '-' then
      match ParseMagnitude(t[1..])
      case NaN => NaN
      case Int(m) => Int(-m)
    else if |t| > 0 && t[0] == '+' then ParseMagnitude(t[1..])
    else ParseMagnitude(t)
  }

  /** `parseInt(s)` with no radix: skip leading white space, take an optional
      sign, switch to radix 16 after `0x`/`0X`, then read the longest digit
      prefix; no digit at all gives `NaN`. */
  function ParseInt(s: string): ParsedInt {
    ParseSigned(TrimStart(s))
  }

  // ---------------------------------------------------------------------
  // Decimal rendering

  function DigitChar(d: nat): (c: char)
    requires d < 10
    ensures '0' <= c <= '9' && DigitValue(c) == d
  {
    (d + '0' as int) as char
  }

  /** `String(n)` for a non-negative integer: its decimal digits, without
      leading zeros. */
  function Decimal(n: nat): (r: string)
    ensures |r| >= 1
    ensures forall i :: 0 <= i < |r| ==> '0' <= r[i] <= '9'
    ensures r[0] == '0' <==> n == 0
  {
    if n < 10 then [DigitChar(n)] else Decimal(n / 10) + [DigitChar(n % 10)]
  }

  lemma {:induction false} DecimalValue(n: nat)
    ensures DigitsValue(Decimal(n), 10) == n
  {
    if n >= 10 {
      DecimalValue(n / 10);
      var r := Decimal(n);
      assert r[..|r| - 1] == Decimal(n / 10);
    }
  }

  lemma {:induction false} DigitPrefixOfDigits(ds: string, rest: string, radix: nat)
    requires forall i :: 0 <= i < |ds| ==> IsDigit(ds[i], radix)
    requires rest == [] || !IsDigit(rest[0], radix)
    ensures DigitPrefix(ds + rest, radix) == ds
  {
    if ds != [] {
      assert (ds + rest)[1..] == ds[1..] + rest;
      DigitPrefixOfDigits(ds[1..], rest, radix);
    }
  }

  /** The unsigned part of a decimal number followed by a character that is
      neither a digit nor an `x` is that number. */
  lemma MagnitudeDecimalPrefix(n: nat, rest: string)
    requires rest == [] || (!IsDigit(rest[0], 10) && rest[0] != 'x' && rest[0] != 'X')
    ensures ParseMagnitude(Decimal(n) + rest) == Int(n)
  {
    var u := Decimal(n) + rest;
    if |u| >= 2 && u[0] == '0' {
      assert Decimal(n)[0] == '0';
      assert |Decimal(n)| == 1;
      assert u[1] == rest[0];
    }
    DigitPrefixOfDigits(Decimal(n), rest, 10);
    DecimalValue(n);
  }

  /** `parseInt` reads the digits of a decimal number and stops at the first
      character that is neither a digit nor the `x` of a `0x` prefix. */
  lemma ParseIntDecimalPrefix(n: nat, rest: string)
    requires rest == [] || (!IsDigit(rest[0], 10) && rest[0] != 'x' && rest[0] != 'X')
    ensures ParseInt(Decimal(n) + rest) == Int(n)
  {
    var s := Decimal(n) + rest;
    assert s[0] == Decimal(n)[0];
    UnsignedParse(s);
    MagnitudeDecimalPrefix(n, rest);
  }

  /** A string that starts with a decimal digit is read as an unsigned
      number. */
  lemma UnsignedParse(s: string)
    requires s != [] && '0' <= s[0] <= '9'
    ensures ParseInt(s) == ParseMagnitude(s)
  {
    assert !IsStrWhiteSpace(s[0]);
    assert TrimStart(s) == s;
    assert ParseSigned(s) == ParseMagnitude(s);
  }

  /** `parseInt` inverts the decimal rendering of a non-negative integer. */
  lemma ParseIntDecimal(n: nat)
    ensures ParseInt(Decimal(n)) == Int(n)
  {
    ParseIntDecimalPrefix(n, []);
    assert Decimal(n) + [] == Decimal(n);
  }

  /** A minus sign in front of a decimal number negates it. */
  lemma ParseIntNegative(n: nat)
    ensures ParseInt("-" + Decimal(n)) == Int(-(n as int))
  {
    var s := "-" + Decimal(n);
    assert TrimStart(s) == s;
    assert s[1..] == Decimal(n) + [];
    MagnitudeDecimalPrefix(n, []);
  }

  /** A string whose first character is neither white space, a sign nor a
      decimal digit is not a number. */
  lemma ParseIntNotANumber(s: string)
    requires |s| > 0 && !IsStrWhiteSpace(s[0]) && !IsDigit(s[0], 10)
    requires s[0] != '-' && s[0] != '+'
    ensures ParseInt(s) == NaN
  {
    assert TrimStart(s) == s;
  }
}
