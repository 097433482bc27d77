/**
 * Node's POSIX `path.extname`, the only part of the `path` module whose
 * result the loader inspects: the extension of the last path segment, from
 * its last dot to its end, ignoring trailing slashes; empty when that segment
 * has no dot, starts with its only dot (`.yaml`), or is `..`.
 */
module NodePath {

  /** `p` without its trailing slashes. */
  function TrimTrailingSlashes(p: string): (r: string)
    ensures |r| <= |p| && (r == [] || r[|r| - 1] != '/')
  {
    if p != [] && p[|p| - 1] == '/' then TrimTrailingSlashes(p[..|p| - 1]) else p
  }

  /** The index of the last `c` in `s`, or -1. */
  function LastIndexOf(s: string, c: char): (r: int)
    ensures -1 <= r < |s|
    ensures r >= 0 ==> s[r] == c
  {
    if s == [] then -1
    else if s[|s| - 1] == c then |s| - 1
    else LastIndexOf(s[..|s| - 1], c)
  }

  /** The part of `p` after its last slash. */
  function LastSegment(p: string): string {
    var k := LastIndexOf(p, '/');
    p[k + 1..]
  }

  /** The extension of one path segment: from its last dot, unless that dot
      is its first character or the segment is `..`. */
  function SegmentExt(seg: string): string {
    var dot := LastIndexOf(seg, '.');
    if dot <= 0 || (|seg| == 2 && seg[0] == '.' && seg[1] == '.') then "" else seg[dot..]
  }

  /** `path.extname(p)`. */
  function ExtName(p: string): string {
    SegmentExt(LastSegment(TrimTrailingSlashes(p)))
  }

  /** Trimming removes slashes only, and only at the end. */
  lemma {:induction false} TrimTrailingSlashesSpec(p: string)
    ensures var r := TrimTrailingSlashes(p);
            && r == p[..|r|]
            && forall i :: |r| <= i < |p| ==> p[i] == '/'
  {
    if p != [] && p[|p| - 1] == '/' {
      var q := p[..|p| - 1];
      TrimTrailingSlashesSpec(q);
      var r := TrimTrailingSlashes(q);
      assert TrimTrailingSlashes(p) == r;
      assert q[..|r|] == p[..|r|];
      forall i | |r| <= i < |p| ensures p[i] == '/' {
        if i < |q| {
          assert q[i] == p[i];
        }
      }
    }
  }

  /** No `c` follows the last `c`. */
  lemma {:induction false} LastIndexOfSpec(s: string, c: char)
    ensures forall i :: LastIndexOf(s, c) < i < |s| ==> s[i] != c
  {
    if s != [] && s[|s| - 1] != c {
      LastIndexOfSpec(s[..|s| - 1], c);
    }
  }

  /** The last segment is a suffix of the path without slashes. */
  lemma LastSegmentSpec(p: string)
    ensures var r := LastSegment(p);
            && |r| <= |p| && r == p[|p| - |r|..]
            && forall i :: 0 <= i < |r| ==> r[i] != '/'
  {
    LastIndexOfSpec(p, '/');
  }

  /** An extension is empty, or a dot followed by characters that are
      neither dots nor slashes. */
  lemma ExtNameShape(p: string)
    ensures var r := ExtName(p);
            && (r == [] || r[0] == '.')
            && (forall i :: 0 <= i < |r| ==> r[i] != '/')
            && (forall i :: 0 < i < |r| ==> r[i] != '.')
  {
    var t := TrimTrailingSlashes(p);
    var seg := LastSegment(t);
    LastSegmentSpec(t);
    SegmentExtShape(seg);
    assert ExtName(p) == SegmentExt(seg);
  }

  /** The extension of a segment without slashes is empty, or a dot followed
      by characters that are neither dots nor slashes. */
  lemma SegmentExtShape(seg: string)
    requires forall i :: 0 <= i < |seg| ==> seg[i] != '/'
    ensures var r := SegmentExt(seg);
            && (r == [] || r[0] == '.')
            && (forall i :: 0 <= i < |r| ==> r[i] != '/')
            && (forall i :: 0 < i < |r| ==> r[i] != '.')
  {
    var dot := LastIndexOf(seg, '.');
    LastIndexOfSpec(seg, '.');
    var r := SegmentExt(seg);
    if r != [] {
      forall i | 0 <= i < |r| ensures r[i] == seg[dot + i] {
      }
    }
  }

  lemma {:induction false} LastIndexOfAppend(s: string, t: string, c: char)
    requires c !in t
    ensures LastIndexOf(s + t, c) == LastIndexOf(s, c)
  {
    if t == [] {
      assert s + t == s;
    } else {
      var u := s + t;
      assert u[|u| - 1] == t[|t| - 1];
      assert u[..|u| - 1] == s + t[..|t| - 1];
      assert c !in t[..|t| - 1];
      LastIndexOfAppend(s, t[..|t| - 1], c);
    }
  }

  lemma {:induction false} LastIndexOfAbsent(s: string, c: char)
    requires forall i :: 0 <= i < |s| ==> s[i] != c
    ensures LastIndexOf(s, c) == -1
  {
    if s != [] {
      LastIndexOfAbsent(s[..|s| - 1], c);
    }
  }

  /** Text without slashes extends the last segment. */
  lemma LastSegmentAppend(a: string, b: string)
    requires '/' !in b
    ensures LastSegment(a + b) == LastSegment(a) + b
  {
    LastIndexOfAppend(a, b, '/');
    var k := LastIndexOf(a, '/');
    assert (a + b)[k + 1..] == a[k + 1..] + b;
  }

  /** `ext` is a possible extension: a dot followed by at least one
      character, none of them a dot or a slash. */
  predicate IsExtension(ext: string) {
    |ext| >= 2 && ext[0] == '.' && forall i :: 1 <= i < |ext| ==> ext[i] != '.' && ext[i] != '/'
  }

  /** A name that does not end in a slash, followed by an extension, has
      that extension. */
  lemma ExtNameOfName(name: string, ext: string)
    requires name != [] && name[|name| - 1] != '/'
    requires IsExtension(ext)
    ensures ExtName(name + ext) == ext
  {
    var p := name + ext;
    assert p[|p| - 1] == ext[|ext| - 1];
    NameKeepsTrailing(p);
    assert '/' !in ext;
    LastSegmentAppend(name, ext);
    assert LastIndexOf(name, '/') < |name| - 1;
    SegmentExtOfName(LastSegment(name), ext);
  }

  /** A path not ending in a slash has no trailing slashes to trim. */
  lemma NameKeepsTrailing(p: string)
    requires p != [] && p[|p| - 1] != '/'
    ensures TrimTrailingSlashes(p) == p
  {
  }

  /** A non-empty segment followed by an extension has that extension. */
  lemma SegmentExtOfName(front: string, ext: string)
    requires front != [] && IsExtension(ext)
    ensures SegmentExt(front + ext) == ext
  {
    var seg := front + ext;
    var head := front + ext[..1];
    assert seg == head + ext[1..];
    assert '.' !in ext[1..];
    LastIndexOfAppend(head, ext[1..], '.');
    assert LastIndexOf(head, '.') == |front|;
    assert seg[|front|..] == ext;
  }

  /** A directory prefix (empty or ending in a slash) has an empty last segment. */
  lemma LastSegmentOfDirectory(dir: string)
    requires dir == [] || dir[|dir| - 1] == '/'
    ensures LastSegment(dir) == []
  {
    if dir != [] {
      assert LastIndexOf(dir, '/') == |dir| - 1;
    }
  }

  /** After a prefix with an empty last segment, text without slashes is the
      whole last segment. */
  lemma LastSegmentAfterDirectory(dir: string, b: string)
    requires LastSegment(dir) == []
    requires '/' !in b
    ensures LastSegment(dir + b) == b
  {
    LastSegmentAppend(dir, b);
    assert [] + b == b;
  }

  /** A directory prefix (empty or ending in a slash) followed by an
      extension names a hidden file such as `.yaml`, which has no extension. */
  lemma ExtNameHidden(dir: string, ext: string)
    requires dir == [] || dir[|dir| - 1] == '/'
    requires IsExtension(ext)
    ensures ExtName(dir + ext) == ""
  {
    var p := dir + ext;
    assert p[|p| - 1] == ext[|ext| - 1];
    NameKeepsTrailing(p);
    assert '/' !in ext;
    LastSegmentOfDirectory(dir);
    LastSegmentAfterDirectory(dir, ext);
    SegmentExtHidden(ext);
  }

  /** An extension standing alone as a segment has no extension. */
  lemma SegmentExtHidden(ext: string)
    requires IsExtension(ext)
    ensures SegmentExt(ext) == ""
  {
    assert ext == ext[..1] + ext[1..];
    assert '.' !in ext[1..];
    LastIndexOfAppend(ext[..1], ext[1..], '.');
  }

  /** A path with no dot has no extension. */
  lemma ExtNameNoDot(p: string)
    requires forall i :: 0 <= i < |p| ==> p[i] != '.'
    ensures ExtName(p) == ""
  {
    var t := TrimTrailingSlashes(p);
    TrimTrailingSlashesSpec(p);
    forall i | 0 <= i < |t| ensures t[i] != '.' {
      assert t[i] == p[i];
    }
    var seg := LastSegment(t);
    LastSegmentSpec(t);
    forall i | 0 <= i < |seg| ensures seg[i] != '.' {
      assert seg[i] == t[|t| - |seg| + i];
    }
    LastIndexOfAbsent(seg, '.');
  }
}
