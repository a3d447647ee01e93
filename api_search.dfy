/**
 * The API-file sniffer of `extension/src/features/api-search.ts`: which
 * directory entries are candidate API files, how the first 50 characters of
 * a file are classified (OAS in JSON, OAS in YAML, RAML 0.8 or 1.0), and
 * which candidates the search reports.
 *
 * The two regular expressions are modelled twice: as scanners (`SwaggerJsonAt`,
 * `OasYamlAt`) that decide a match at one start position, and as declarative
 * match predicates over witness positions; lemmas prove the two agree, and
 * `FirstMatch` picks the leftmost start as `String.prototype.match` does.
 */
module ApiSearch {
  import opened Js
  import opened PosixPath
  import opened Sequences

  /** `{ type, contentType }` of the source: `typeName` is the detected kind and version. */
  datatype ApiFormat = ApiFormat(typeName: string, contentType: string)

  /** How many characters of a file the sniffer reads. */
  const WindowSize: nat := 50

  const JsonContentType := "application/json"
  const YamlContentType := "application/yaml"
  const RamlContentType := "application/raml"

  const ApiExtensions: seq<string> := [".raml", ".yaml", ".json"]
  const IgnoredNames: seq<string> := ["__macosx", "exchange.json", ".ds_store", "art_config.yaml", "art.yaml"]

  /** The literal `"swagger"` the JSON rule looks for, quotes included. */
  const SwaggerKey := "\"swagger\""

  /**
   * The text the sniffer inspects: a 50-byte zero-filled buffer of which the
   * file fills the front, decoded one character per byte.
   */
  function Window(content: string): (w: string)
    ensures |w| == WindowSize
  {
    if |content| >= WindowSize then content[..WindowSize]
    else content + seq(WindowSize - |content|, _ => '\0')
  }

  /** The window holds the file's first characters, then zeros. */
  lemma WindowContents(content: string)
    ensures forall i :: 0 <= i < WindowSize ==> Window(content)[i] == (if i < |content| then content[i] else '\0')
  {
  }

  // ---------------------------------------------------------------------------
  // Scanning helpers

  /** The end of the run of whitespace starting at `j`. */
  function SkipSpaces(d: string, j: nat): (k: nat)
    requires j <= |d|
    ensures j <= k <= |d|
    ensures forall t :: j <= t < k ==> IsSpace(d[t])
    ensures k < |d| ==> !IsSpace(d[k])
    decreases |d| - j
  {
    if j < |d| && IsSpace(d[j]) then SkipSpaces(d, j + 1) else j
  }

  /** A run of whitespace followed by a non-space is the one `SkipSpaces` finds. */
  lemma SkipSpacesUnique(d: string, j: nat, k: nat)
    requires j <= k < |d|
    requires forall t :: j <= t < k ==> IsSpace(d[t])
    requires !IsSpace(d[k])
    ensures SkipSpaces(d, j) == k
  {
  }

  /** The first line terminator at or after `j`, or the end of `d`. */
  function LineEnd(d: string, j: nat): (e: nat)
    requires j <= |d|
    ensures j <= e <= |d|
    ensures forall t :: j <= t < e ==> !IsLineTerminator(d[t])
    ensures e < |d| ==> IsLineTerminator(d[e])
    decreases |d| - j
  {
    if j == |d| || IsLineTerminator(d[j]) then j else LineEnd(d, j + 1)
  }

  /** The last `"` in `d[lo..hi]`. */
  function LastQuote(d: string, lo: nat, hi: nat): (r: Option<nat>)
    requires lo <= hi <= |d|
    ensures r.Some? ==> lo <= r.value < hi && d[r.value] == '"' && forall t :: r.value < t < hi ==> d[t] != '"'
    ensures r.None? ==> forall t :: lo <= t < hi ==> d[t] != '"'
    decreases hi - lo
  {
    if lo == hi then None
    else if d[hi - 1] == '"' then Some(hi - 1)
    else LastQuote(d, lo, hi - 1)
  }

  /**
   * `d.match(re)` where `at(d, j)` is the capture of a match of `re` starting at
   * `j`: the leftmost start that matches decides.
   */
  function FirstMatch(d: string, i: nat, at: (string, nat) -> Option<string>): Option<string>
    decreases |d| + 1 - i
  {
    if i > |d| then None
    else match at(d, i)
      case Some(c) => Some(c)
      case None => FirstMatch(d, i + 1, at)
  }

  /** `match` yields nothing exactly when no start matches. */
  lemma {:induction false} FirstMatchNone(d: string, i: nat, at: (string, nat) -> Option<string>)
    ensures FirstMatch(d, i, at).None? <==> forall j :: i <= j <= |d| ==> at(d, j).None?
    decreases |d| + 1 - i
  {
    if i <= |d| {
      FirstMatchNone(d, i + 1, at);
    }
  }

  /** What `match` yields comes from a start before which no start matches. */
  lemma {:induction false} FirstMatchFound(d: string, i: nat, at: (string, nat) -> Option<string>) returns (j: nat)
    requires FirstMatch(d, i, at).Some?
    ensures i <= j <= |d| && at(d, j) == FirstMatch(d, i, at)
    ensures forall j' :: i <= j' < j ==> at(d, j').None?
    decreases |d| + 1 - i
  {
    if at(d, i).Some? {
      j := i;
    } else {
      j := FirstMatchFound(d, i + 1, at);
    }
  }

  /** The leftmost start that matches gives what `match` yields. */
  lemma {:induction false} FirstMatchAt(d: string, i: nat, at: (string, nat) -> Option<string>, j: nat)
    requires i <= j <= |d| && at(d, j).Some?
    requires forall j' :: i <= j' < j ==> at(d, j').None?
    ensures FirstMatch(d, i, at) == at(d, j)
    decreases j - i
  {
    if i < j {
      FirstMatchAt(d, i + 1, at, j);
    }
  }

  // ---------------------------------------------------------------------------
  // OAS 1/2 in JSON:  /"swagger"(?:\s*)?:(?:\s*)"(.*)"/im

  /**
   * `"(.*)"` from the opening quote at `m`: `.` stops at a line terminator and
   * `*` is greedy, so the closing quote is the last one before the line ends.
   */
  ghost predicate GreedyQuote(d: string, m: nat, e: nat)
  {
    m < e < |d|
    && (forall t :: m < t < e ==> !IsLineTerminator(d[t])) && d[e] == '"'
    && (forall t :: e < t < |d| && (forall u :: m < u < t ==> !IsLineTerminator(d[u])) ==> d[t] != '"')
  }

  /** The scanner's closing quote for the opening quote at `m`. */
  function ClosingQuote(d: string, m: nat): (r: Option<nat>)
    requires m < |d|
  {
    LastQuote(d, m + 1, LineEnd(d, m + 1))
  }

  lemma ClosingQuoteIs(d: string, m: nat, e: nat)
    requires GreedyQuote(d, m, e)
    ensures ClosingQuote(d, m) == Some(e)
  {
    var l := LineEnd(d, m + 1);
    assert e < l;
    forall t | e < t < l ensures d[t] != '"' {
      assert forall u :: m < u < t ==> !IsLineTerminator(d[u]);
    }
    LastQuoteIs(d, m + 1, l, e);
  }

  lemma ClosingQuoteSound(d: string, m: nat)
    requires m < |d| && ClosingQuote(d, m).Some?
    ensures GreedyQuote(d, m, ClosingQuote(d, m).value)
  {
  }

  /** A quote after which the range has no quote is the last one. */
  lemma {:induction false} LastQuoteIs(d: string, lo: nat, hi: nat, e: nat)
    requires lo <= e < hi <= |d| && d[e] == '"'
    requires forall t :: e < t < hi ==> d[t] != '"'
    ensures LastQuote(d, lo, hi) == Some(e)
    decreases hi - lo
  {
    if hi - 1 != e {
      LastQuoteIs(d, lo, hi - 1, e);
    }
  }

  /** The capture of a match of the JSON rule starting at `i`, if one starts there. */
  function SwaggerJsonAt(d: string, i: nat): Option<string>
  {
    if i + 9 > |d| || !CaseInsensitiveEqual(d[i..i + 9], SwaggerKey) then None
    else AfterSwaggerKey(d, i + 9)
  }

  /** `(?:\s*)?:` and what follows, from just after the key. */
  function AfterSwaggerKey(d: string, j: nat): Option<string>
    requires j <= |d|
  {
    var k := SkipSpaces(d, j);
    if k == |d| || d[k] != ':' then None else AfterSwaggerColon(d, k + 1)
  }

  /** `(?:\s*)"(.*)"`, from just after the colon. */
  function AfterSwaggerColon(d: string, j: nat): Option<string>
    requires j <= |d|
  {
    var m := SkipSpaces(d, j);
    if m == |d| || d[m] != '"' then None
    else match ClosingQuote(d, m)
      case None => None
      case Some(e) => Some(d[m + 1..e])
  }

  /**
   * The JSON rule matches `d` from `i` with `:` at `k`, the opening quote at `m`
   * and the closing quote at `e`.
   */
  ghost predicate SwaggerJsonMatch(d: string, i: nat, k: nat, m: nat, e: nat)
  {
    i + 9 <= k < m < |d|
    && CaseInsensitiveEqual(d[i..i + 9], SwaggerKey)
    && (forall t :: i + 9 <= t < k ==> IsSpace(d[t])) && d[k] == ':'
    && (forall t :: k < t < m ==> IsSpace(d[t])) && d[m] == '"'
    && GreedyQuote(d, m, e)
  }

  ghost predicate SwaggerJsonMatchesAt(d: string, i: nat)
  {
    exists k: nat, m: nat, e: nat :: SwaggerJsonMatch(d, i, k, m, e)
  }

  /** The group `d.match(/"swagger"(?:\s*)?:(?:\s*)"(.*)"/im)[1]`: that of the leftmost match. */
  ghost predicate SwaggerJsonCapture(d: string, cap: string)
  {
    exists i: nat, k: nat, m: nat, e: nat :: SwaggerJsonMatch(d, i, k, m, e) && cap == d[m + 1..e]
      && forall j: nat :: j < i ==> !SwaggerJsonMatchesAt(d, j)
  }

  lemma SwaggerJsonAtComplete(d: string, i: nat, k: nat, m: nat, e: nat)
    requires SwaggerJsonMatch(d, i, k, m, e)
    ensures SwaggerJsonAt(d, i) == Some(d[m + 1..e])
  {
    AfterSwaggerKeyComplete(d, i + 9, k, m, e);
  }

  lemma AfterSwaggerKeyComplete(d: string, j: nat, k: nat, m: nat, e: nat)
    requires j <= k < m < |d| && d[k] == ':' && d[m] == '"'
    requires forall t :: j <= t < k ==> IsSpace(d[t])
    requires forall t :: k < t < m ==> IsSpace(d[t])
    requires GreedyQuote(d, m, e)
    ensures AfterSwaggerKey(d, j) == Some(d[m + 1..e])
  {
    SkipSpacesUnique(d, j, k);
    AfterSwaggerColonComplete(d, k + 1, m, e);
  }

  lemma AfterSwaggerColonComplete(d: string, j: nat, m: nat, e: nat)
    requires j <= m < |d| && d[m] == '"'
    requires forall t :: j <= t < m ==> IsSpace(d[t])
    requires GreedyQuote(d, m, e)
    ensures AfterSwaggerColon(d, j) == Some(d[m + 1..e])
  {
    SkipSpacesUnique(d, j, m);
    ClosingQuoteIs(d, m, e);
  }

  lemma SwaggerJsonAtSound(d: string, i: nat) returns (k: nat, m: nat, e: nat)
    requires SwaggerJsonAt(d, i).Some?
    ensures SwaggerJsonMatch(d, i, k, m, e) && SwaggerJsonAt(d, i) == Some(d[m + 1..e])
  {
    k := SkipSpaces(d, i + 9);
    m := SkipSpaces(d, k + 1);
    e := ClosingQuote(d, m).value;
    ClosingQuoteSound(d, m);
  }

  /** The scanner answers at a start exactly when the JSON rule matches there. */
  lemma SwaggerJsonAtMeans(d: string, j: nat)
    ensures SwaggerJsonAt(d, j).Some? <==> SwaggerJsonMatchesAt(d, j)
  {
    if SwaggerJsonAt(d, j).Some? {
      var k, m, e := SwaggerJsonAtSound(d, j);
    }
    if SwaggerJsonMatchesAt(d, j) {
      var k: nat, m: nat, e: nat :| SwaggerJsonMatch(d, j, k, m, e);
      SwaggerJsonAtComplete(d, j, k, m, e);
    }
  }

  lemma SearchSwaggerJsonNone(d: string)
    ensures FirstMatch(d, 0, SwaggerJsonAt).None? <==> forall j: nat :: j <= |d| ==> !SwaggerJsonMatchesAt(d, j)
  {
    FirstMatchNone(d, 0, SwaggerJsonAt);
    forall j: nat {
      SwaggerJsonAtMeans(d, j);
    }
  }

  lemma SearchSwaggerJsonSound(d: string, cap: string)
    requires FirstMatch(d, 0, SwaggerJsonAt) == Some(cap)
    ensures SwaggerJsonCapture(d, cap)
  {
    var i := FirstMatchFound(d, 0, SwaggerJsonAt);
    var k, m, e := SwaggerJsonAtSound(d, i);
    forall j: nat | j < i
      ensures !SwaggerJsonMatchesAt(d, j)
    {
      SwaggerJsonAtMeans(d, j);
    }
  }

  lemma SearchSwaggerJsonComplete(d: string, cap: string)
    requires SwaggerJsonCapture(d, cap)
    ensures FirstMatch(d, 0, SwaggerJsonAt) == Some(cap)
  {
    var i: nat, k: nat, m: nat, e: nat :| SwaggerJsonMatch(d, i, k, m, e) && cap == d[m + 1..e]
      && forall j: nat :: j < i ==> !SwaggerJsonMatchesAt(d, j);
    SwaggerJsonAtComplete(d, i, k, m, e);
    forall j': nat | j' < i
      ensures SwaggerJsonAt(d, j').None?
    {
      SwaggerJsonAtMeans(d, j');
    }
    FirstMatchAt(d, 0, SwaggerJsonAt, i);
  }

  /** The scanner finds exactly the capture of the JSON rule, and nothing when it matches nowhere. */
  lemma SearchSwaggerJsonIsMatch(d: string)
    ensures FirstMatch(d, 0, SwaggerJsonAt).None? <==> forall j: nat :: j <= |d| ==> !SwaggerJsonMatchesAt(d, j)
    ensures forall cap :: FirstMatch(d, 0, SwaggerJsonAt) == Some(cap) <==> SwaggerJsonCapture(d, cap)
  {
    SearchSwaggerJsonNone(d);
    forall cap | FirstMatch(d, 0, SwaggerJsonAt) == Some(cap) {
      SearchSwaggerJsonSound(d, cap);
    }
    forall cap | SwaggerJsonCapture(d, cap) {
      SearchSwaggerJsonComplete(d, cap);
    }
  }

  // ---------------------------------------------------------------------------
  // OAS in YAML:  /(?:openapi|swagger)[^\s*]?:(?:\s*)("|')?(\d\.\d)("|')?/im

  predicate IsQuote(c: char)
  {
    c == '"' || c == '\''
  }

  /** The part of the YAML rule after the key: `:` at `q`, spaces up to `s`, an optional quote, the version at `v`. */
  ghost predicate VersionTail(d: string, q: nat, s: nat, v: nat)
  {
    q < s <= v && v + 3 <= |d|
    && d[q] == ':' && (forall t :: q < t < s ==> IsSpace(d[t]))
    && (v == s || (v == s + 1 && IsQuote(d[s])))
    && IsDigit(d[v]) && d[v + 1] == '.' && IsDigit(d[v + 2])
  }

  /** The version captured after a colon at `q`. */
  function VersionAt(d: string, q: nat): Option<string>
  {
    if q >= |d| || d[q] != ':' then None
    else
      var s := SkipSpaces(d, q + 1);
      var v := if s < |d| && IsQuote(d[s]) then s + 1 else s;
      if v + 3 <= |d| && IsDigit(d[v]) && d[v + 1] == '.' && IsDigit(d[v + 2]) then Some(d[v..v + 3]) else None
  }

  lemma VersionAtComplete(d: string, q: nat, s: nat, v: nat)
    requires VersionTail(d, q, s, v)
    ensures VersionAt(d, q) == Some(d[v..v + 3])
  {
    SkipSpacesUnique(d, q + 1, s);
  }

  lemma VersionAtSound(d: string, q: nat) returns (s: nat, v: nat)
    requires VersionAt(d, q).Some?
    ensures VersionTail(d, q, s, v) && VersionAt(d, q) == Some(d[v..v + 3])
  {
    s := SkipSpaces(d, q + 1);
    v := if s < |d| && IsQuote(d[s]) then s + 1 else s;
  }

  predicate IsOasKey(d: string, i: nat)
  {
    i + 7 <= |d| && (CaseInsensitiveEqual(d[i..i + 7], "openapi") || CaseInsensitiveEqual(d[i..i + 7], "swagger"))
  }

  /**
   * The capture of a match of the YAML rule starting at `i`. `[^\s*]?` first
   * tries to take one character, and falls back to taking none.
   */
  function OasYamlAt(d: string, i: nat): Option<string>
  {
    if !IsOasKey(d, i) then None
    else if i + 7 < |d| && !IsSpace(d[i + 7]) && d[i + 7] != '*' && VersionAt(d, i + 8).Some? then VersionAt(d, i + 8)
    else VersionAt(d, i + 7)
  }

  /** The YAML rule matches `d` from `i`, with its colon at `q`, and captures the version at `v`. */
  ghost predicate OasYamlMatch(d: string, i: nat, q: nat, s: nat, v: nat)
  {
    IsOasKey(d, i) && VersionTail(d, q, s, v)
    && (q == i + 7 || (q == i + 8 && !IsSpace(d[i + 7]) && d[i + 7] != '*'))
  }

  ghost predicate OasYamlMatchesAt(d: string, i: nat)
  {
    exists q: nat, s: nat, v: nat :: OasYamlMatch(d, i, q, s, v)
  }

  /** The group `d.match(/(?:openapi|swagger)[^\s*]?:(?:\s*)("|')?(\d\.\d)("|')?/im)[2]`. */
  ghost predicate OasYamlCapture(d: string, ver: string)
  {
    exists i: nat, q: nat, s: nat, v: nat :: OasYamlMatch(d, i, q, s, v) && ver == d[v..v + 3]
      && forall j: nat :: j < i ==> !OasYamlMatchesAt(d, j)
  }

  lemma OasYamlAtComplete(d: string, i: nat, q: nat, s: nat, v: nat)
    requires OasYamlMatch(d, i, q, s, v)
    ensures OasYamlAt(d, i) == Some(d[v..v + 3])
  {
    VersionAtComplete(d, q, s, v);
    if q == i + 7 {
      assert d[i + 8] != ':' by {
        if s > i + 8 {
          assert IsSpace(d[i + 8]);
        }
      }
    }
  }

  lemma OasYamlAtSound(d: string, i: nat) returns (q: nat, s: nat, v: nat)
    requires OasYamlAt(d, i).Some?
    ensures OasYamlMatch(d, i, q, s, v) && OasYamlAt(d, i) == Some(d[v..v + 3])
  {
    q := if i + 7 < |d| && !IsSpace(d[i + 7]) && d[i + 7] != '*' && VersionAt(d, i + 8).Some? then i + 8 else i + 7;
    s, v := VersionAtSound(d, q);
  }

  /** The scanner answers at a start exactly when the YAML rule matches there. */
  lemma OasYamlAtMeans(d: string, j: nat)
    ensures OasYamlAt(d, j).Some? <==> OasYamlMatchesAt(d, j)
  {
    if OasYamlAt(d, j).Some? {
      var q, s, v := OasYamlAtSound(d, j);
    }
    if OasYamlMatchesAt(d, j) {
      var q: nat, s: nat, v: nat :| OasYamlMatch(d, j, q, s, v);
      OasYamlAtComplete(d, j, q, s, v);
    }
  }

  lemma SearchOasYamlNone(d: string)
    ensures FirstMatch(d, 0, OasYamlAt).None? <==> forall j: nat :: j <= |d| ==> !OasYamlMatchesAt(d, j)
  {
    FirstMatchNone(d, 0, OasYamlAt);
    forall j: nat {
      OasYamlAtMeans(d, j);
    }
  }

  lemma SearchOasYamlSound(d: string, ver: string)
    requires FirstMatch(d, 0, OasYamlAt) == Some(ver)
    ensures OasYamlCapture(d, ver)
  {
    var i := FirstMatchFound(d, 0, OasYamlAt);
    var q, s, v := OasYamlAtSound(d, i);
    forall j: nat | j < i
      ensures !OasYamlMatchesAt(d, j)
    {
      OasYamlAtMeans(d, j);
    }
  }

  lemma SearchOasYamlComplete(d: string, ver: string)
    requires OasYamlCapture(d, ver)
    ensures FirstMatch(d, 0, OasYamlAt) == Some(ver)
  {
    var i: nat, q: nat, s: nat, v: nat :| OasYamlMatch(d, i, q, s, v) && ver == d[v..v + 3]
      && forall j: nat :: j < i ==> !OasYamlMatchesAt(d, j);
    OasYamlAtComplete(d, i, q, s, v);
    forall j': nat | j' < i
      ensures OasYamlAt(d, j').None?
    {
      OasYamlAtMeans(d, j');
    }
    FirstMatchAt(d, 0, OasYamlAt, i);
  }

  /** The scanner finds exactly the capture of the YAML rule, and nothing when it matches nowhere. */
  lemma SearchOasYamlIsMatch(d: string)
    ensures FirstMatch(d, 0, OasYamlAt).None? <==> forall j: nat :: j <= |d| ==> !OasYamlMatchesAt(d, j)
    ensures forall ver :: FirstMatch(d, 0, OasYamlAt) == Some(ver) <==> OasYamlCapture(d, ver)
  {
    SearchOasYamlNone(d);
    forall ver | FirstMatch(d, 0, OasYamlAt) == Some(ver) {
      SearchOasYamlSound(d, ver);
    }
    forall ver | OasYamlCapture(d, ver) {
      SearchOasYamlComplete(d, ver);
    }
  }

  // ---------------------------------------------------------------------------
  // Classification

  /** `data.split('\n')[0].substr(2).trim()`: the first line without its `#%` marker. */
  function RamlHeader(data: string): string
  {
    Trim(Drop(Split(data, '\n')[0], 2))
  }

  /** `data[0] === '{'`. */
  predicate IsJsonText(data: string)
  {
    data != [] && data[0] == '{'
  }

  /** The JSON branch: OAS with the trimmed capture as version, or nothing. */
  function JsonFormat(cap: Option<string>): Option<ApiFormat>
  {
    match cap
    case None => None
    case Some(v) => Some(ApiFormat("OAS " + Trim(v), JsonContentType))
  }

  /** The other branch: OAS in YAML if the YAML rule matched, else the RAML header rules. */
  function OtherFormat(ver: Option<string>, header: string): Option<ApiFormat>
  {
    match ver
    case Some(v) => Some(ApiFormat("OAS " + Trim(v), YamlContentType))
    case None =>
      if header == [] || !StartsWith(header, "RAML ") then None
      else if header == "RAML 0.8" then Some(ApiFormat(header, RamlContentType))
      else if StartsWith(header, "RAML 1.0") then Some(ApiFormat("RAML 1.0", RamlContentType))
      else None
  }

  /** The three rules of `_readApiType`, in order, applied to the trimmed text. */
  function Classify(data: string): Option<ApiFormat>
  {
    if IsJsonText(data) then JsonFormat(FirstMatch(data, 0, SwaggerJsonAt))
    else OtherFormat(FirstMatch(data, 0, OasYamlAt), RamlHeader(data))
  }

  /** `_readApiType` applied to the characters read from the file: only their trimmed text is classified. */
  function ReadApiType(window: string): Option<ApiFormat>
  {
    Classify(Trim(window))
  }

  /** Leading and trailing whitespace never changes the classification. */
  lemma ReadApiTypeOfTrimmed(window: string)
    ensures ReadApiType(Trim(window)) == ReadApiType(window)
  {
    TrimIdempotent(window);
  }

  lemma OtherFormatKinds(ver: Option<string>, header: string)
    ensures OtherFormat(ver, header).Some? ==> OtherFormat(ver, header).value.contentType in {YamlContentType, RamlContentType}
    ensures OtherFormat(ver, header).Some? && OtherFormat(ver, header).value.contentType == RamlContentType ==>
      OtherFormat(ver, header).value.typeName in {"RAML 0.8", "RAML 1.0"} && StartsWith(header, OtherFormat(ver, header).value.typeName)
  {
    if ver.None? && header == "RAML 0.8" {
      assert header[..8] == header;
    }
  }

  /**
   * A result is one of the three content types; JSON exactly for text starting
   * with `{`; RAML only as version 0.8 or 1.0, named by a prefix of the header.
   */
  lemma ClassifyKinds(data: string)
    ensures Classify(data).Some? ==> Classify(data).value.contentType in {JsonContentType, YamlContentType, RamlContentType}
    ensures (Classify(data).Some? && Classify(data).value.contentType == JsonContentType)
            <==> (IsJsonText(data) && Classify(data).Some?)
    ensures Classify(data).Some? && Classify(data).value.contentType == RamlContentType ==>
      Classify(data).value.typeName in {"RAML 0.8", "RAML 1.0"} && StartsWith(RamlHeader(data), Classify(data).value.typeName)
  {
    if !IsJsonText(data) {
      OtherFormatKinds(FirstMatch(data, 0, OasYamlAt), RamlHeader(data));
    }
  }

  /**
   * A text starting with `{` is OAS in JSON exactly when the JSON rule matches;
   * the version is its trimmed capture; the YAML and RAML rules play no part.
   */
  lemma ClassifyJson(data: string)
    requires IsJsonText(data)
    ensures Classify(data).None? <==> forall j: nat :: j <= |data| ==> !SwaggerJsonMatchesAt(data, j)
    ensures forall cap :: SwaggerJsonCapture(data, cap) ==> Classify(data) == Some(ApiFormat("OAS " + Trim(cap), JsonContentType))
  {
    SearchSwaggerJsonNone(data);
    forall cap | SwaggerJsonCapture(data, cap)
      ensures Classify(data) == Some(ApiFormat("OAS " + Trim(cap), JsonContentType))
    {
      SearchSwaggerJsonComplete(data, cap);
    }
  }

  /** Any other text the YAML rule matches is OAS in YAML, versioned by the digits it captured. */
  lemma ClassifyYaml(data: string, ver: string)
    requires !IsJsonText(data)
    requires OasYamlCapture(data, ver)
    ensures |ver| == 3 && IsDigit(ver[0]) && ver[1] == '.' && IsDigit(ver[2])
    ensures Classify(data) == Some(ApiFormat("OAS " + ver, YamlContentType))
  {
    SearchOasYamlComplete(data, ver);
    YamlVersionShape(data, ver);
    TrimOfUnpadded(ver);
  }

  /** The version the YAML rule captures is one digit, a dot and one digit. */
  lemma YamlVersionShape(d: string, ver: string)
    requires FirstMatch(d, 0, OasYamlAt) == Some(ver)
    ensures |ver| == 3 && IsDigit(ver[0]) && ver[1] == '.' && IsDigit(ver[2])
  {
    var i := FirstMatchFound(d, 0, OasYamlAt);
    var q, s, v := OasYamlAtSound(d, i);
    assert ver == d[v..v + 3];
  }

  /** Text neither rule matches is RAML exactly when its first line, past two characters, reads `RAML 0.8` or starts with `RAML 1.0`. */
  lemma ClassifyRaml(data: string)
    requires !IsJsonText(data)
    requires forall j: nat :: j <= |data| ==> !OasYamlMatchesAt(data, j)
    ensures RamlHeader(data) == "RAML 0.8" ==> Classify(data) == Some(ApiFormat("RAML 0.8", RamlContentType))
    ensures StartsWith(RamlHeader(data), "RAML 1.0") ==> Classify(data) == Some(ApiFormat("RAML 1.0", RamlContentType))
    ensures RamlHeader(data) != "RAML 0.8" && !StartsWith(RamlHeader(data), "RAML 1.0") ==> Classify(data).None?
  {
    SearchOasYamlNone(data);
    RamlRules(RamlHeader(data));
  }

  lemma RamlRules(h: string)
    ensures h == "RAML 0.8" ==> OtherFormat(None, h) == Some(ApiFormat("RAML 0.8", RamlContentType))
    ensures StartsWith(h, "RAML 1.0") ==> OtherFormat(None, h) == Some(ApiFormat("RAML 1.0", RamlContentType))
    ensures h != "RAML 0.8" && !StartsWith(h, "RAML 1.0") ==> OtherFormat(None, h).None?
  {
    if StartsWith(h, "RAML 1.0") {
      assert h[..8] == "RAML 1.0";
      assert h[..5] == h[..8][..5] == "RAML ";
      assert h[5] == h[..8][5] == '1';
      assert h != "RAML 0.8";
    }
  }

  /** What the sniffer makes of a file's content. */
  function SniffContent(content: string): Option<ApiFormat>
  {
    ReadApiType(Window(content))
  }

  // ---------------------------------------------------------------------------
  // Candidates and the search

  /** A directory entry that `findApiFile` keeps: not ignored, and `.raml`, `.yaml` or `.json` in any case. */
  predicate IsCandidate(item: string)
  {
    var lower := ToLower(item);
    lower !in IgnoredNames && ExtName(lower) in ApiExtensions
  }

  /** For a file name, being a candidate is having a name, then one of the three extensions, in any case. */
  lemma CandidateByName(item: string)
    requires '/' !in item
    ensures IsCandidate(item) <==> (ToLower(item) !in IgnoredNames
                                    && exists e :: e in ApiExtensions && |item| > |e| && ToLower(item)[|item| - |e|..] == e)
  {
    var lower := ToLower(item);
    assert forall i :: 0 <= i < |lower| ==> (lower[i] == '/' <==> item[i] == '/');
    assert '/' !in lower;
    forall e | e in ApiExtensions
      ensures ExtName(lower) == e <==> (|lower| > |e| && lower[|lower| - |e|..] == e)
    {
      ExtNameOfName(lower, e);
    }
  }

  /** The `for` loop of `findApiFile`. */
  method CollectCandidates(items: seq<string>) returns (files: seq<string>)
    ensures files == Filter(items, IsCandidate)
  {
    files := [];
    for i := 0 to |items|
      invariant files == Filter(items[..i], IsCandidate)
    {
      assert items[..i + 1][..i] == items[..i];
      var item := items[i];
      var lower := ToLower(item);
      if lower in IgnoredNames {
        continue;
      }
      var ext := ExtName(lower);
      if ext in ApiExtensions {
        files := files + [item];
      }
    }
    assert items[..|items|] == items;
  }

  /** `_readApiType` found a format in the content. */
  predicate IsApiText(content: string)
  {
    SniffContent(content).Some?
  }

  /**
   * A readable file whose content `sniff` accepts; `disk` holds the readable
   * files' contents. The search passes `IsApiText` as `sniff`; the loops below
   * are proved for any sniffer.
   */
  predicate IsApiContent(disk: map<string, string>, sniff: string -> bool, file: string)
  {
    file in disk && sniff(disk[file])
  }

  /** The files of `files` that sniff as API files, in order. */
  function ApiFilesAmong(files: seq<string>, disk: map<string, string>, sniff: string -> bool): seq<string>
  {
    Filter(files, f => IsApiContent(disk, sniff, f))
  }

  lemma ApiFilesAmongStep(files: seq<string>, i: nat, disk: map<string, string>, sniff: string -> bool)
    requires i < |files|
    ensures ApiFilesAmong(files[..i + 1], disk, sniff)
      == ApiFilesAmong(files[..i], disk, sniff) + (if IsApiContent(disk, sniff, files[i]) then [files[i]] else [])
  {
    assert files[..i + 1][..i] == files[..i];
  }

  lemma ReadableStep(files: seq<string>, i: nat, disk: map<string, string>)
    requires i < |files| && files[i] in disk
    requires forall j :: 0 <= j < i ==> files[j] in disk
    ensures forall j :: 0 <= j < i + 1 ==> files[j] in disk
  {
  }

  /** The position of the first file that cannot be read, or the length when all can. */
  function FirstUnreadable(files: seq<string>, disk: map<string, string>): (k: nat)
    ensures k <= |files| && (k < |files| ==> files[k] !in disk)
    ensures forall j :: 0 <= j < k ==> files[j] in disk
  {
    if files == [] then 0
    else if files[0] !in disk then 0
    else 1 + FirstUnreadable(files[1..], disk)
  }

  lemma {:induction false} FirstUnreadableAt(files: seq<string>, disk: map<string, string>, i: nat)
    requires i < |files| && files[i] !in disk
    requires forall j :: 0 <= j < i ==> files[j] in disk
    ensures FirstUnreadable(files, disk) == i
    decreases i
  {
    if i > 0 {
      FirstUnreadableAt(files[1..], disk, i - 1);
    }
  }

  /** What `_findWebApiFile` yields: the API files, or the first file it could not read. */
  datatype Sniffed = Sniffed(apiFiles: seq<string>) | ReadFailed(file: string)

  /** `_findWebApiFile`: sniffs every file in order; a file that cannot be opened aborts the search. */
  method FindWebApiFile(files: seq<string>, disk: map<string, string>, sniff: string -> bool) returns (r: Sniffed)
    ensures r.Sniffed? <==> forall j :: 0 <= j < |files| ==> files[j] in disk
    ensures r.Sniffed? ==> r.apiFiles == ApiFilesAmong(files, disk, sniff)
    ensures r.ReadFailed? ==> FirstUnreadable(files, disk) < |files| && r.file == files[FirstUnreadable(files, disk)]
  {
    var results := [];
    for i := 0 to |files|
      invariant forall j :: 0 <= j < i ==> files[j] in disk
      invariant results == ApiFilesAmong(files[..i], disk, sniff)
    {
      var file := files[i];
      if file !in disk {
        FirstUnreadableAt(files, disk, i);
        return ReadFailed(file);
      }
      ApiFilesAmongStep(files, i, disk, sniff);
      ReadableStep(files, i, disk);
      var isApi := sniff(disk[file]);
      if isApi {
        results := results + [file];
      }
    }
    assert files[..|files|] == files;
    return Sniffed(results);
  }

  /** What `findApiFile` yields: `undefined` when no entry is a candidate. */
  datatype SearchResult = NoCandidates | Found(files: seq<string>) | ReadError(file: string)

  /** The candidates are exactly the entries that pass the name filter. */
  lemma CandidateMembership(items: seq<string>)
    ensures forall x :: x in Filter(items, IsCandidate) <==> x in items && IsCandidate(x)
  {
    forall x {
      FilterMembership(items, IsCandidate, x);
    }
  }

  /** Every candidate is readable exactly when every entry of the candidate list is. */
  lemma CandidatesReadable(items: seq<string>, disk: map<string, string>)
    ensures (forall j :: 0 <= j < |Filter(items, IsCandidate)| ==> Filter(items, IsCandidate)[j] in disk)
      <==> (forall x :: x in items && IsCandidate(x) ==> x in disk)
  {
    FilterEvery(items, IsCandidate, f => f in disk);
  }

  /** The API files among the candidates: the entries that are candidates and sniff as API files, in order. */
  lemma ApiCandidates(items: seq<string>, disk: map<string, string>, sniff: string -> bool)
    ensures var list := ApiFilesAmong(Filter(items, IsCandidate), disk, sniff);
      IsSubsequence(list, items)
      && forall x :: x in list <==> x in items && IsCandidate(x) && IsApiContent(disk, sniff, x)
  {
    var keep := f => IsCandidate(f) && IsApiContent(disk, sniff, f);
    FilterFilter(items, IsCandidate, f => IsApiContent(disk, sniff, f), keep);
    FilterIsSubsequence(items, keep);
    forall x {
      FilterMembership(items, keep, x);
    }
  }

  /** `findApiFile` over the entries of the working directory. */
  method FindApiFile(items: seq<string>, disk: map<string, string>) returns (r: SearchResult)
    ensures r.NoCandidates? <==> forall x :: x in items ==> !IsCandidate(x)
    ensures r.Found? <==> ((exists x :: x in items && IsCandidate(x))
                           && forall x :: x in items && IsCandidate(x) ==> x in disk)
    ensures r.Found? ==> forall x :: x in r.files <==> x in items && IsCandidate(x) && IsApiContent(disk, IsApiText, x)
    ensures r.Found? ==> r.files == ApiFilesAmong(Filter(items, IsCandidate), disk, IsApiText)
    ensures r.Found? ==> IsSubsequence(r.files, items)
    ensures r.ReadError? ==> r.file in items && IsCandidate(r.file) && r.file !in disk
    ensures r.ReadError? ==> var candidates := Filter(items, IsCandidate);
      FirstUnreadable(candidates, disk) < |candidates| && r.file == candidates[FirstUnreadable(candidates, disk)]
  {
    var files := CollectCandidates(items);
    CandidateMembership(items);
    if files == [] {
      assert forall x :: x in items ==> !IsCandidate(x);
      return NoCandidates;
    }
    assert files[0] in items && IsCandidate(files[0]);
    CandidatesReadable(items, disk);
    var sniffed := FindWebApiFile(files, disk, IsApiText);
    match sniffed {
      case ReadFailed(f) =>
        r := ReadError(f);
      case Sniffed(list) =>
        ApiCandidates(items, disk, IsApiText);
        r := Found(list);
    }
  }
}
