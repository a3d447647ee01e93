/**
 * Node's `path` module on POSIX, for the operations the extension uses:
 * `isAbsolute`, `basename`, `extname`, `resolve` (as a list of segments) and
 * `relative`.
 */
module PosixPath {
  import opened Js

  predicate IsAbsolute(p: string)
  {
    |p| > 0 && p[0] == '/'
  }

  /** The index of the last `c` in `s`. */
  function LastIndex(s: string, c: char): (r: nat)
    requires c in s
    ensures r < |s| && s[r] == c && c !in s[r + 1..]
  {
    if s[|s| - 1] == c then |s| - 1
    else
      assert s[..|s| - 1][..] == s[..|s| - 1] && c in s[..|s| - 1];
      var r := LastIndex(s[..|s| - 1], c);
      assert s[r + 1..] == s[..|s| - 1][r + 1..] + [s[|s| - 1]];
      r
  }

  function StripTrailingSlashes(p: string): (r: string)
    ensures |r| <= |p| && r == p[..|r|]
    ensures r == [] || r[|r| - 1] != '/'
    ensures forall i :: |r| <= i < |p| ==> p[i] == '/'
  {
    if p != [] && p[|p| - 1] == '/' then StripTrailingSlashes(p[..|p| - 1]) else p
  }

  /** The characters after the last `/` of `q`, all of `q` when it has none. */
  function LastSegment(q: string): (r: string)
    ensures '/' !in r
    ensures '/' !in q ==> r == q
  {
    if q == [] || q[|q| - 1] == '/' then []
    else
      var r := LastSegment(q[..|q| - 1]) + [q[|q| - 1]];
      assert q[..|q| - 1] + [q[|q| - 1]] == q;
      r
  }

  /** `path.basename(p)`: the last segment, trailing slashes ignored. */
  function Basename(p: string): (r: string)
  {
    LastSegment(StripTrailingSlashes(p))
  }

  /**
   * The extension of a final segment `b`: from its last `.` on; empty when it
   * has no `.`, when its only `.` is its first character, or when it is `..`.
   */
  function SegmentExt(b: string): (r: string)
  {
    if '.' !in b then []
    else
      var d := LastIndex(b, '.');
      if d == 0 || b == ".." then []
      else
        assert b[d..][1..] == b[d + 1..];
        b[d..]
  }

  /** `path.extname(p)`: the extension of the last segment. */
  function ExtName(p: string): string
  {
    SegmentExt(Basename(p))
  }

  /** A segment ends in a dotted extension exactly when that is its extension. */
  lemma SegmentExtIs(b: string, ext: string)
    requires |ext| >= 1 && ext[0] == '.' && '.' !in ext[1..] && ext != "."
    ensures SegmentExt(b) == ext <==> (|b| > |ext| && b[|b| - |ext|..] == ext)
  {
    if |b| > |ext| && b[|b| - |ext|..] == ext {
      var d := |b| - |ext|;
      assert b[d] == '.';
      var l := LastIndex(b, '.');
      assert b[d + 1..] == ext[1..];
      assert l == d;
      assert b != "..";
    }
  }

  /** A file name ends in one of a set of dotted extensions exactly when `extname` yields it. */
  lemma ExtNameOfName(name: string, ext: string)
    requires '/' !in name
    requires |ext| >= 1 && ext[0] == '.' && '.' !in ext[1..] && ext != "."
    ensures ExtName(name) == ext <==> (|name| > |ext| && name[|name| - |ext|..] == ext)
  {
    assert Basename(name) == name;
    SegmentExtIs(name, ext);
  }

  /** A segment `resolve` can leave in a path. */
  predicate IsNormalSegment(x: string)
  {
    x != "" && x != "." && x != ".." && '/' !in x
  }

  predicate AllNormal(segs: seq<string>)
  {
    forall i :: 0 <= i < |segs| ==> IsNormalSegment(segs[i])
  }

  /** `resolve`'s normalisation: skip empty and `.` parts, let `..` drop the last segment (never above the root). */
  function Normalize(parts: seq<string>, acc: seq<string>): (r: seq<string>)
    requires AllNormal(acc)
    requires forall i :: 0 <= i < |parts| ==> '/' !in parts[i]
    ensures AllNormal(r)
    decreases |parts|
  {
    if parts == [] then acc
    else
      var x := parts[0];
      var next := if x == "" || x == "." then acc
                  else if x == ".." then (if acc == [] then [] else acc[..|acc| - 1])
                  else acc + [x];
      Normalize(parts[1..], next)
  }

  /** The segments of `path.resolve(p)`, read from the root. */
  function Segments(p: string): (r: seq<string>)
    ensures AllNormal(r)
  {
    Normalize(Split(p, '/'), [])
  }

  function CommonPrefixLength(a: seq<string>, b: seq<string>): (n: nat)
    ensures n <= |a| && n <= |b| && a[..n] == b[..n]
    ensures n < |a| && n < |b| ==> a[n] != b[n]
  {
    if a == [] || b == [] || a[0] != b[0] then 0
    else
      var n := 1 + CommonPrefixLength(a[1..], b[1..]);
      assert a[..n] == [a[0]] + a[1..][..n - 1];
      assert b[..n] == [b[0]] + b[1..][..n - 1];
      n
  }

  function Repeat(x: string, n: nat): (r: seq<string>)
    ensures |r| == n && forall i :: 0 <= i < n ==> r[i] == x
  {
    if n == 0 then [] else [x] + Repeat(x, n - 1)
  }

  /** One `..` per segment of `from` below the common prefix, then the rest of `to`. */
  function RelativeSegments(from: seq<string>, to: seq<string>): seq<string>
  {
    var c := CommonPrefixLength(from, to);
    Repeat("..", |from| - c) + to[c..]
  }

  /** `path.relative(from, to)` of two absolute paths. */
  function Relative(from: string, to: string): string
  {
    Join(RelativeSegments(Segments(from), Segments(to)), '/')
  }

  lemma {:induction false} NormalizeAppend(xs: seq<string>, ys: seq<string>, acc: seq<string>)
    requires AllNormal(acc)
    requires forall i :: 0 <= i < |xs| ==> '/' !in xs[i]
    requires forall i :: 0 <= i < |ys| ==> '/' !in ys[i]
    ensures Normalize(xs + ys, acc) == Normalize(ys, Normalize(xs, acc))
    decreases |xs|
  {
    if xs == [] {
      assert xs + ys == ys;
    } else {
      assert (xs + ys)[1..] == xs[1..] + ys;
      var x := xs[0];
      var next := if x == "" || x == "." then acc
                  else if x == ".." then (if acc == [] then [] else acc[..|acc| - 1])
                  else acc + [x];
      NormalizeAppend(xs[1..], ys, next);
    }
  }

  lemma {:induction false} NormalizeUpward(n: nat, acc: seq<string>)
    requires AllNormal(acc) && n <= |acc|
    ensures Normalize(Repeat("..", n), acc) == acc[..|acc| - n]
    decreases n
  {
    if n > 0 {
      assert Repeat("..", n)[1..] == Repeat("..", n - 1);
      NormalizeUpward(n - 1, acc[..|acc| - 1]);
      assert acc[..|acc| - 1][..|acc| - 1 - (n - 1)] == acc[..|acc| - n];
    }
  }

  lemma {:induction false} NormalizeDownward(segs: seq<string>, acc: seq<string>)
    requires AllNormal(acc) && AllNormal(segs)
    ensures Normalize(segs, acc) == acc + segs
    decreases |segs|
  {
    if segs != [] {
      NormalizeDownward(segs[1..], acc + [segs[0]]);
      assert acc + [segs[0]] + segs[1..] == acc + segs;
    }
  }

  /** Walking the relative segments from `from` arrives at `to`. */
  lemma RelativeSegmentsReach(from: seq<string>, to: seq<string>)
    requires AllNormal(from) && AllNormal(to)
    ensures Normalize(RelativeSegments(from, to), from) == to
  {
    var c := CommonPrefixLength(from, to);
    PartsNormal(to, c);
    ClimbThenDescend(from, to[..c], to[c..]);
    PrefixAndRest(to, c);
  }

  lemma PartsNormal(segs: seq<string>, c: nat)
    requires AllNormal(segs) && c <= |segs|
    ensures AllNormal(segs[..c]) && AllNormal(segs[c..])
  {
    forall i | 0 <= i < |segs| - c ensures IsNormalSegment(segs[c..][i]) {
      assert segs[c..][i] == segs[c + i];
    }
    forall i | 0 <= i < c ensures IsNormalSegment(segs[..c][i]) {
      assert segs[..c][i] == segs[i];
    }
  }

  /** From a path below the common prefix `p`, climbing to `p` and walking down `q` reaches `p + q`. */
  lemma ClimbThenDescend(from: seq<string>, p: seq<string>, q: seq<string>)
    requires AllNormal(from) && AllNormal(p) && AllNormal(q)
    requires |p| <= |from| && from[..|p|] == p
    ensures Normalize(Repeat("..", |from| - |p|) + q, from) == p + q
  {
    var up := Repeat("..", |from| - |p|);
    NormalizeAppend(up, q, from);
    NormalizeUpward(|from| - |p|, from);
    NormalizeDownward(q, p);
  }

  lemma PrefixAndRest<T>(s: seq<T>, c: nat)
    requires c <= |s|
    ensures s[..c] + s[c..] == s
  {
  }

  /** `resolve(root + '/' + relative(root, p))` names the same path as `resolve(p)`. */
  lemma RelativeResolvesBack(root: string, p: string)
    ensures Segments(root + "/" + Relative(root, p)) == Segments(p)
  {
    var f, t := Segments(root), Segments(p);
    var rel := RelativeSegments(f, t);
    RelativeSegmentsSlashFree(f, t);
    SplitAround(root, Relative(root, p), '/');
    NormalizeAppend(Split(root, '/'), Split(Join(rel, '/'), '/'), []);
    NormalizeJoined(rel, f);
    RelativeSegmentsReach(f, t);
  }

  lemma RelativeSegmentsSlashFree(from: seq<string>, to: seq<string>)
    requires AllNormal(from) && AllNormal(to)
    ensures forall i :: 0 <= i < |RelativeSegments(from, to)| ==> '/' !in RelativeSegments(from, to)[i]
  {
    var c := CommonPrefixLength(from, to);
    var rel := RelativeSegments(from, to);
    forall i | 0 <= i < |rel| ensures '/' !in rel[i] {
      if i >= |from| - c {
        assert rel[i] == to[c + (i - (|from| - c))];
      }
    }
  }

  /** Splitting the joined segments again and normalising is normalising the segments. */
  lemma NormalizeJoined(rel: seq<string>, acc: seq<string>)
    requires AllNormal(acc)
    requires forall i :: 0 <= i < |rel| ==> '/' !in rel[i]
    ensures Normalize(Split(Join(rel, '/'), '/'), acc) == Normalize(rel, acc)
  {
    if rel == [] {
      assert Split(Join(rel, '/'), '/') == [""];
    } else {
      SplitJoin(rel, '/');
    }
  }

  /** Normalising keeps only segments taken from the parts or the accumulator. */
  lemma {:induction false} NormalizeAvoids(parts: seq<string>, acc: seq<string>, c: char)
    requires AllNormal(acc)
    requires forall i :: 0 <= i < |parts| ==> '/' !in parts[i]
    requires forall i :: 0 <= i < |parts| ==> c !in parts[i]
    requires forall i :: 0 <= i < |acc| ==> c !in acc[i]
    ensures forall i :: 0 <= i < |Normalize(parts, acc)| ==> c !in Normalize(parts, acc)[i]
    decreases |parts|
  {
    if parts != [] {
      var x := parts[0];
      var next := if x == "" || x == "." then acc
                  else if x == ".." then (if acc == [] then [] else acc[..|acc| - 1])
                  else acc + [x];
      assert forall i :: 0 <= i < |next| ==> c !in next[i] by {
        if x != "" && x != "." && x != ".." {
          assert forall i :: 0 <= i < |acc| ==> next[i] == acc[i];
        } else if x == ".." && acc != [] {
          assert forall i :: 0 <= i < |next| ==> next[i] == acc[i];
        }
      }
      NormalizeAvoids(parts[1..], next, c);
    }
  }

  /** A character other than `/` that a path lacks is in none of its segments. */
  lemma SegmentsAvoid(p: string, c: char)
    requires c !in p
    ensures forall i :: 0 <= i < |Segments(p)| ==> c !in Segments(p)[i]
  {
    SplitAvoids(p, '/', c);
    NormalizeAvoids(Split(p, '/'), [], c);
  }

  /** A character other than `/` and `.` that the target lacks is not in the relative path. */
  lemma RelativeAvoids(from: string, to: string, c: char)
    requires c != '/' && c != '.' && c !in to
    ensures c !in Relative(from, to)
  {
    var f, t := Segments(from), Segments(to);
    var n := CommonPrefixLength(f, t);
    var rel := RelativeSegments(f, t);
    SegmentsAvoid(to, c);
    forall i | 0 <= i < |rel| ensures c !in rel[i] {
      if i >= |f| - n {
        assert rel[i] == t[n + (i - (|f| - n))];
      } else {
        assert rel[i] == "..";
      }
    }
    JoinAvoids(rel, '/', c);
  }

  /** `p` is `root` or lies below it. */
  predicate IsWithin(root: seq<string>, p: seq<string>)
  {
    |root| <= |p| && p[..|root|] == root
  }

  /** `p` is the directory that holds `root`. */
  predicate IsParentOf(p: seq<string>, root: seq<string>)
  {
    |root| >= 1 && p == root[..|root| - 1]
  }

  lemma CommonPrefixOfWithin(f: seq<string>, t: seq<string>)
    requires IsWithin(f, t)
    ensures CommonPrefixLength(f, t) == |f|
  {
    assert forall i :: 0 <= i < |f| ==> f[i] == t[..|f|][i];
  }

  lemma CommonPrefixOfParent(f: seq<string>, t: seq<string>)
    requires IsParentOf(t, f)
    ensures CommonPrefixLength(f, t) == |t|
  {
    assert forall i :: 0 <= i < |t| ==> t[i] == f[..|f| - 1][i];
  }

  /**
   * The relative path from `from` to `to` starts by climbing and then names
   * something exactly when `to` is neither within `from` nor its parent.
   */
  lemma RelativeClimbsOut(f: seq<string>, t: seq<string>)
    requires AllNormal(f) && AllNormal(t)
    ensures var rel := RelativeSegments(f, t);
      (|rel| >= 2 && rel[0] == "..") <==> !IsWithin(f, t) && !IsParentOf(t, f)
  {
    var c := CommonPrefixLength(f, t);
    var rel := RelativeSegments(f, t);
    assert |rel| == (|f| - c) + (|t| - c);
    assert c == |f| ==> IsWithin(f, t);
    assert c == |t| && |f| - c == 1 ==> IsParentOf(t, f) by {
      if c == |t| {
        assert t == t[..c];
      }
    }
    assert |f| - c >= 1 ==> rel[0] == "..";
    assert |f| - c == 0 && |rel| >= 1 ==> rel[0] == t[c];
    if IsWithin(f, t) {
      CommonPrefixOfWithin(f, t);
    }
    if IsParentOf(t, f) {
      CommonPrefixOfParent(f, t);
    }
  }

  lemma NoSlashNoParentPrefix(x: string)
    requires '/' !in x
    ensures !StartsWith(x, "../")
  {
    if |x| >= 3 {
      assert x[2] != '/';
      assert x[..3][2] == x[2];
    }
  }

  lemma ParentPrefixOfHead(head: string, rest: string)
    requires '/' !in head
    ensures StartsWith(head + "/" + rest, "../") <==> head == ".."
  {
    var s := head + "/" + rest;
    assert s[|head|] == '/';
    assert forall i :: 0 <= i < |head| ==> s[i] == head[i];
    if StartsWith(s, "../") {
      assert s[0] == '.' && s[1] == '.' && s[2] == '/';
      assert |head| <= 2;
      assert |head| >= 2;
      assert head == s[..2];
    }
    if head == ".." {
      assert s[..3] == "../";
    }
  }

  /**
   * A `/`-joined path starts with `../` exactly when it has a second part and its
   * first part is `..`.
   */
  lemma JoinStartsWithParent(parts: seq<string>)
    requires forall i :: 0 <= i < |parts| ==> '/' !in parts[i]
    ensures StartsWith(Join(parts, '/'), "../") <==> (|parts| >= 2 && parts[0] == "..")
  {
    if |parts| >= 2 {
      assert Join(parts, '/') == parts[0] + "/" + Join(parts[1..], '/');
      ParentPrefixOfHead(parts[0], Join(parts[1..], '/'));
    } else if |parts| == 1 {
      NoSlashNoParentPrefix(parts[0]);
    }
  }
}
