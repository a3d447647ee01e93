/**
 * The JavaScript string and number primitives the extension's decision rules
 * rely on, stated over `seq<char>`: the `\s` / `trim()` whitespace set,
 * `toLowerCase` on ASCII, `split` on one character, `startsWith`,
 * `replace(/c/g, ...)`, `parseInt` without a radix and `Number.prototype.toString`.
 */
module Js {

  datatype Option<+T> = None | Some(value: T)

  /** ECMAScript WhiteSpace and LineTerminator: what `\s` matches and what `trim()` removes. */
  predicate IsSpace(c: char)
  {
    c == '\t' || c == '\n' || c == '\U{000B}' || c == '\U{000C}' || c == '\r' || c == ' '
    || c == '\U{00A0}' || c == '\U{1680}' || ('\U{2000}' <= c <= '\U{200A}')
    || c == '\U{2028}' || c == '\U{2029}' || c == '\U{202F}' || c == '\U{205F}'
    || c == '\U{3000}' || c == '\U{FEFF}'
  }

  /** The characters a regular-expression `.` refuses to match. */
  predicate IsLineTerminator(c: char)
  {
    c == '\n' || c == '\r' || c == '\U{2028}' || c == '\U{2029}'
  }

  predicate IsDigit(c: char)
  {
    '0' <= c <= '9'
  }

  predicate AllSpaces(s: string)
  {
    forall i :: 0 <= i < |s| ==> IsSpace(s[i])
  }

  predicate NoLineTerminator(s: string)
  {
    forall i :: 0 <= i < |s| ==> !IsLineTerminator(s[i])
  }

  predicate StartsWith(s: string, prefix: string)
  {
    |prefix| <= |s| && s[..|prefix|] == prefix
  }

  /** `s.includes(t)`, also what a regular expression without metacharacters tests. */
  predicate Contains(s: string, t: string)
  {
    exists i :: 0 <= i <= |s| && StartsWith(s[i..], t)
  }

  function AsciiLower(c: char): (r: char)
    ensures 'A' <= c <= 'Z' ==> r as int == c as int + 32
    ensures !('A' <= c <= 'Z') ==> r == c
  {
    if 'A' <= c <= 'Z' then (c as int + 32) as char else c
  }

  /** `toLowerCase()`, restricted to the ASCII letters. */
  function ToLower(s: string): (r: string)
    ensures |r| == |s|
    ensures forall i :: 0 <= i < |s| ==> r[i] == AsciiLower(s[i])
  {
    seq(|s|, i requires 0 <= i < |s| => AsciiLower(s[i]))
  }

  /**
   * Equality under the `i` flag of a non-Unicode regular expression, for a
   * pattern made of ASCII characters: ASCII letters match either case and no
   * non-ASCII character canonicalises to an ASCII one.
   */
  predicate CaseInsensitiveEqual(a: string, b: string)
  {
    |a| == |b| && forall i :: 0 <= i < |a| ==> AsciiLower(a[i]) == AsciiLower(b[i])
  }

  /** `trimStart()`: the suffix left after dropping the leading whitespace. */
  function TrimStart(s: string): (r: string)
    ensures |r| <= |s| && r == s[|s| - |r|..]
    ensures r == [] || !IsSpace(r[0])
  {
    if s != [] && IsSpace(s[0]) then TrimStart(s[1..]) else s
  }

  /** `trimEnd()`: the prefix left after dropping the trailing whitespace. */
  function TrimEnd(s: string): (r: string)
    ensures |r| <= |s| && r == s[..|r|]
    ensures r == [] || !IsSpace(r[|r| - 1])
  {
    if s != [] && IsSpace(s[|s| - 1]) then TrimEnd(s[..|s| - 1]) else s
  }

  /** `trimStart()` removes whitespace only. */
  lemma {:induction false} TrimStartDropsSpaces(s: string)
    ensures AllSpaces(s[..|s| - |TrimStart(s)|])
    decreases |s|
  {
    if s != [] && IsSpace(s[0]) {
      TrimStartDropsSpaces(s[1..]);
      var n := |s| - |TrimStart(s)|;
      assert s[..n] == [s[0]] + s[1..][..n - 1];
    }
  }

  /** `trimEnd()` removes whitespace only. */
  lemma {:induction false} TrimEndDropsSpaces(s: string)
    ensures AllSpaces(s[|TrimEnd(s)|..])
    decreases |s|
  {
    if s != [] && IsSpace(s[|s| - 1]) {
      TrimEndDropsSpaces(s[..|s| - 1]);
      var n := |TrimEnd(s)|;
      assert s[n..] == s[..|s| - 1][n..] + [s[|s| - 1]];
    }
  }

  /** `trim()`: both ends' whitespace removed. */
  function Trim(s: string): (r: string)
    ensures |r| <= |s|
    ensures r == [] || (!IsSpace(r[0]) && !IsSpace(r[|r| - 1]))
  {
    TrimEnd(TrimStart(s))
  }

  /**
   * What `trim()` leaves is the infix of `s` starting at `k`, with only
   * whitespace before and after it.
   */
  lemma TrimIsInfix(s: string) returns (k: nat)
    ensures k + |Trim(s)| <= |s| && s[k..k + |Trim(s)|] == Trim(s)
    ensures AllSpaces(s[..k]) && AllSpaces(s[k + |Trim(s)|..])
  {
    var t := TrimStart(s);
    var r := TrimEnd(t);
    TrimStartDropsSpaces(s);
    TrimEndDropsSpaces(t);
    k := |s| - |t|;
    InfixParts(s, t, r);
  }

  lemma InfixParts(s: string, t: string, r: string)
    requires |t| <= |s| && t == s[|s| - |t|..] && AllSpaces(s[..|s| - |t|])
    requires |r| <= |t| && r == t[..|r|] && AllSpaces(t[|r|..])
    ensures s[|s| - |t|..|s| - |t| + |r|] == r && AllSpaces(s[|s| - |t| + |r|..])
  {
    var k := |s| - |t|;
    assert s[k..k + |r|] == t[..|r|];
    assert s[k + |r|..] == t[|r|..];
  }

  lemma TrimOfUnpadded(s: string)
    requires s == [] || (!IsSpace(s[0]) && !IsSpace(s[|s| - 1]))
    ensures Trim(s) == s
  {
  }

  /** Trimming twice is trimming once. */
  lemma TrimIdempotent(s: string)
    ensures Trim(Trim(s)) == Trim(s)
  {
    TrimOfUnpadded(Trim(s));
  }

  /** `s.substr(n)` for a non-negative start: empty once the start passes the end. */
  function Drop(s: string, n: nat): (r: string)
    ensures |s| <= n ==> r == []
    ensures n < |s| ==> r == s[n..]
  {
    if |s| <= n then [] else s[n..]
  }

  /** The index of the first `c` in `s`. */
  function FirstIndex(s: string, c: char): (r: nat)
    requires c in s
    ensures r < |s| && s[r] == c && c !in s[..r]
  {
    if s[0] == c then 0 else FirstIndex(s[1..], c) + 1
  }

  /** `parts.join(sep)`. */
  function Join(parts: seq<string>, sep: char): string
  {
    if parts == [] then []
    else if |parts| == 1 then parts[0]
    else parts[0] + [sep] + Join(parts[1..], sep)
  }

  /** `s.split(sep)` for a one-character separator: never empty, and no part holds the separator. */
  function Split(s: string, sep: char): (r: seq<string>)
    ensures |r| >= 1
    ensures forall i :: 0 <= i < |r| ==> sep !in r[i]
    decreases |s|
  {
    if sep !in s then [s]
    else
      var k := FirstIndex(s, sep);
      [s[..k]] + Split(s[k + 1..], sep)
  }

  /** Joining the parts of a split gives the string back. */
  lemma {:induction false} JoinSplit(s: string, sep: char)
    ensures Join(Split(s, sep), sep) == s
    decreases |s|
  {
    if sep in s {
      var k := FirstIndex(s, sep);
      JoinSplit(s[k + 1..], sep);
      assert Split(s, sep)[1..] == Split(s[k + 1..], sep);
      assert s == s[..k] + [sep] + s[k + 1..];
    }
  }

  /** Splitting is the inverse of joining parts that do not contain the separator. */
  lemma {:induction false} SplitJoin(parts: seq<string>, sep: char)
    requires |parts| >= 1
    requires forall i :: 0 <= i < |parts| ==> sep !in parts[i]
    ensures Split(Join(parts, sep), sep) == parts
    decreases |parts|
  {
    if |parts| == 1 {
    } else {
      var s := Join(parts, sep);
      var tail := Join(parts[1..], sep);
      assert s == parts[0] + [sep] + tail;
      assert sep in s by { assert s[|parts[0]|] == sep; }
      var k := FirstIndex(s, sep);
      assert s[..|parts[0]|] == parts[0];
      assert k == |parts[0]|;
      assert s[..k] == parts[0];
      assert s[k + 1..] == tail;
      SplitJoin(parts[1..], sep);
    }
  }

  lemma {:induction false} JoinAppend(xs: seq<string>, ys: seq<string>, sep: char)
    requires xs != [] && ys != []
    ensures Join(xs + ys, sep) == Join(xs, sep) + [sep] + Join(ys, sep)
    decreases |xs|
  {
    if |xs| == 1 {
      assert (xs + ys)[1..] == ys;
    } else {
      assert (xs + ys)[1..] == xs[1..] + ys;
      JoinAppend(xs[1..], ys, sep);
    }
  }

  /** Splitting a string whose first separator follows `a`. */
  lemma SplitCons(a: string, b: string, sep: char)
    requires sep !in a
    ensures Split(a + [sep] + b, sep) == [a] + Split(b, sep)
  {
    var s := a + [sep] + b;
    assert s[|a|] == sep;
    var k := FirstIndex(s, sep);
    assert s[..|a|] == a;
    assert k == |a|;
    assert s[..k] == a;
    assert s[k + 1..] == b;
  }

  /** Splitting at a separator placed between two strings splits each of them. */
  lemma SplitAround(a: string, b: string, sep: char)
    ensures Split(a + [sep] + b, sep) == Split(a, sep) + Split(b, sep)
  {
    var xs, ys := Split(a, sep), Split(b, sep);
    JoinSplit(a, sep);
    JoinSplit(b, sep);
    JoinAppend(xs, ys, sep);
    SplitJoin(xs + ys, sep);
  }

  /** The parts of a split hold no character the string does not hold. */
  lemma {:induction false} SplitAvoids(s: string, sep: char, c: char)
    requires c !in s
    ensures forall i :: 0 <= i < |Split(s, sep)| ==> c !in Split(s, sep)[i]
    decreases |s|
  {
    if sep in s {
      var k := FirstIndex(s, sep);
      SplitAvoids(s[k + 1..], sep, c);
      assert Split(s, sep) == [s[..k]] + Split(s[k + 1..], sep);
      assert forall x :: x in s[..k] ==> x in s;
    }
  }

  /** Joining parts that avoid a character, with another separator, avoids it too. */
  lemma {:induction false} JoinAvoids(parts: seq<string>, sep: char, c: char)
    requires c != sep
    requires forall i :: 0 <= i < |parts| ==> c !in parts[i]
    ensures c !in Join(parts, sep)
    decreases |parts|
  {
    if |parts| > 1 {
      JoinAvoids(parts[1..], sep, c);
    }
  }

  /** `s.replace(/from/g, to)` for single characters. */
  function ReplaceAll(s: string, from: char, to: char): (r: string)
    ensures |r| == |s|
    ensures forall i :: 0 <= i < |s| ==> r[i] == (if s[i] == from then to else s[i])
  {
    seq(|s|, i requires 0 <= i < |s| => if s[i] == from then to else s[i])
  }

  /** Replacing a character that does not occur changes nothing. */
  lemma ReplaceAllAbsent(s: string, from: char, to: char)
    requires from !in s
    ensures ReplaceAll(s, from, to) == s
  {
    assert forall i :: 0 <= i < |s| ==> s[i] != from;
  }

  /** `s.replace(/c/g, '')`: `s` with every `c` removed, order kept. */
  function RemoveAll(s: string, c: char): (r: string)
    ensures c !in r
    ensures |r| <= |s|
    ensures c !in s ==> r == s
  {
    if s == [] then [] else (if s[0] == c then [] else [s[0]]) + RemoveAll(s[1..], c)
  }

  /** `s.replace(/c/g, '')` distributes over concatenation. */
  lemma {:induction false} RemoveAllAppend(a: string, b: string, c: char)
    ensures RemoveAll(a + b, c) == RemoveAll(a, c) + RemoveAll(b, c)
    decreases |a|
  {
    if a == [] {
      assert a + b == b;
    } else {
      assert (a + b)[0] == a[0];
      assert (a + b)[1..] == a[1..] + b;
      RemoveAllAppend(a[1..], b, c);
    }
  }

  function DigitValue(c: char): (r: nat)
    requires IsDigit(c)
    ensures r < 10
  {
    c as int - '0' as int
  }

  predicate IsHexDigit(c: char)
  {
    IsDigit(c) || ('a' <= c <= 'f') || ('A' <= c <= 'F')
  }

  function HexValue(c: char): (r: nat)
    requires IsHexDigit(c)
    ensures r < 16
  {
    if IsDigit(c) then DigitValue(c)
    else if 'a' <= c <= 'f' then c as int - 'a' as int + 10
    else c as int - 'A' as int + 10
  }

  /** The length of the longest prefix of `s` made of digits of the radix (10 or 16). */
  function DigitRun(s: string, hex: bool): (n: nat)
    ensures n <= |s|
    ensures forall i :: 0 <= i < n ==> (if hex then IsHexDigit(s[i]) else IsDigit(s[i]))
    ensures n < |s| ==> !(if hex then IsHexDigit(s[n]) else IsDigit(s[n]))
  {
    if s != [] && (if hex then IsHexDigit(s[0]) else IsDigit(s[0])) then 1 + DigitRun(s[1..], hex) else 0
  }

  /** The value of a run of digits, most significant first. */
  function DigitsValue(s: string, hex: bool): nat
    requires forall i :: 0 <= i < |s| ==> (if hex then IsHexDigit(s[i]) else IsDigit(s[i]))
  {
    if s == [] then 0
    else
      var radix := if hex then 16 else 10;
      var d := if hex then HexValue(s[|s| - 1]) else DigitValue(s[|s| - 1]);
      DigitsValue(s[..|s| - 1], hex) * radix + d
  }

  /**
   * `parseInt(s)` with no radix: leading whitespace is skipped, one sign is
   * accepted, a `0x`/`0X` prefix selects hexadecimal, then the longest run of
   * digits is read. `None` stands for `NaN` (no digit at all).
   */
  function ParseInt(s: string): (r: Option<int>)
    ensures r.Some? ==> exists k :: 0 <= k < |s| && (IsDigit(s[k]) || IsHexDigit(s[k]))
  {
    var t := TrimStart(s);
    var negative := t != [] && t[0] == '-';
    var u := if t != [] && (t[0] == '-' || t[0] == '+') then t[1..] else t;
    var hex := |u| >= 2 && u[0] == '0' && (u[1] == 'x' || u[1] == 'X');
    var v := if hex then u[2..] else u;
    var n := DigitRun(v, hex);
    if n == 0 then None
    else
      assert v[0] == s[|s| - |v|];
      var value: int := DigitsValue(v[..n], hex);
      Some(if negative then -value else value)
  }

  function DigitChar(d: nat): (c: char)
    requires d < 10
    ensures IsDigit(c) && DigitValue(c) == d
  {
    ('0' as int + d) as char
  }

  /** `n.toString()` for a non-negative integer: its decimal digits, no leading zero. */
  function NatToString(n: nat): (r: string)
    ensures |r| >= 1
    ensures forall i :: 0 <= i < |r| ==> IsDigit(r[i])
    ensures |r| > 1 ==> r[0] != '0'
    ensures DigitsValue(r, false) == n
  {
    if n < 10 then [DigitChar(n)]
    else
      var r := NatToString(n / 10) + [DigitChar(n % 10)];
      assert r[..|r| - 1] == NatToString(n / 10);
      r
  }

  /** `parseInt` reads back what `toString` wrote. */
  lemma ParseIntOfNatToString(n: nat)
    ensures ParseInt(NatToString(n)) == Some(n)
  {
    var s := NatToString(n);
    assert !IsSpace(s[0]) && s[0] != '-' && s[0] != '+';
    assert TrimStart(s) == s;
    assert !(|s| >= 2 && s[0] == '0');
    assert DigitRun(s, false) == |s|;
    assert s[..|s|] == s;
  }

  /** The concatenation of a sequence of strings, in order. */
  function Concat(chunks: seq<string>): string
  {
    if chunks == [] then [] else Concat(chunks[..|chunks| - 1]) + chunks[|chunks| - 1]
  }

  lemma ConcatLength(chunks: seq<string>, k: nat)
    requires k < |chunks|
    ensures Concat(chunks[..k + 1]) == Concat(chunks[..k]) + chunks[k]
  {
    assert chunks[..k + 1][..k] == chunks[..k];
  }
}
