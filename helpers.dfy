/**
 * The start-up probes of `extension/src/helpers.ts`: both collect the stderr
 * of a `java` process chunk by chunk and decide once the stream ends.
 */
module Helpers {
  import opened Js

  const JavaTooOldMessage := "Java 1.8+ or OpenJDK 8+ is required to run the language server."
  const JavaMissingMessage := "Java was not detected. Please download and install Java 1.8+ or OpenJDK 8+."
  const ConnectException := "java.net.ConnectException"
  const JarErrorPrefix := "An error occurred when loading the jar file: "

  /** The `data` handler: the buffer is the chunks concatenated in arrival order. */
  method CollectStderr(chunks: seq<string>) returns (buffer: string)
    ensures buffer == Concat(chunks)
  {
    buffer := "";
    var i := 0;
    while i < |chunks|
      invariant 0 <= i <= |chunks|
      invariant buffer == Concat(chunks[..i])
    {
      ConcatLength(chunks, i);
      buffer := buffer + chunks[i];
      i := i + 1;
    }
    assert chunks[..i] == chunks;
  }

  /** How the `end` handler of `checkJava` settles its promise. */
  datatype JavaCheck =
    | JavaAccepted
    | JavaRejected(message: string)
    /** The handler throws before resolving (`split(' ')[2]` is undefined). */
    | JavaUnsettled

  /** `new RegExp('(java|openjdk) version').test(data)`, case-sensitive. */
  predicate MentionsJava(data: string)
  {
    Contains(data, "java version") || Contains(data, "openjdk version")
  }

  /**
   * The version token: the third space-separated word with every `"` removed,
   * or `''` when Java is not mentioned. `None` when there is no third word.
   */
  function VersionToken(data: string): (r: Option<string>)
    ensures r.Some? ==> '"' !in r.value
    ensures r.None? <==> MentionsJava(data) && |Split(data, ' ')| < 3
    ensures !MentionsJava(data) ==> r == Some("")
  {
    if !MentionsJava(data) then Some("")
    else
      var words := Split(data, ' ');
      if |words| < 3 then None else Some(RemoveAll(words[2], '"'))
  }

  /** `parseInt(major) === 1 && parseInt(minor) < 8`; a missing `minor` parses to `NaN`. */
  predicate IsPreJava8(token: string)
  {
    var parts := Split(token, '.');
    ParseInt(parts[0]) == Some(1) && |parts| >= 2 && ParseInt(parts[1]).Some? && ParseInt(parts[1]).value < 8
  }

  /** The decision `checkJava` makes on the whole stderr text. */
  function CheckJava(data: string): (r: JavaCheck)
    ensures r == JavaRejected(JavaMissingMessage) <==> VersionToken(data) == Some("")
    ensures r == JavaUnsettled <==> VersionToken(data).None?
    ensures r == JavaRejected(JavaTooOldMessage)
        <==> (VersionToken(data).Some? && VersionToken(data).value != "" && IsPreJava8(VersionToken(data).value))
  {
    match VersionToken(data)
    case None => JavaUnsettled
    case Some(token) =>
      if token == "" then JavaRejected(JavaMissingMessage)
      else if IsPreJava8(token) then JavaRejected(JavaTooOldMessage)
      else JavaAccepted
  }

  /** The probe as a whole: the decision is taken on the concatenated stream. */
  method CheckJavaStream(chunks: seq<string>) returns (r: JavaCheck)
    ensures r == CheckJava(Concat(chunks))
  {
    var data := CollectStderr(chunks);
    r := CheckJava(data);
  }

  /** Text that does not mention Java is always "not detected". */
  lemma NoJavaMentioned(data: string)
    requires !MentionsJava(data)
    ensures CheckJava(data) == JavaRejected(JavaMissingMessage)
  {
  }

  /** Any version whose major part does not parse to 1 passes the gate. */
  lemma ModernMajorAccepted(data: string)
    requires VersionToken(data).Some? && VersionToken(data).value != ""
    requires ParseInt(Split(VersionToken(data).value, '.')[0]) != Some(1)
    ensures CheckJava(data) == JavaAccepted
  {
  }

  /**
   * The version token of a text whose first three space-separated words are
   * `first`, `second` and `word`: `word` without its quotes.
   */
  lemma VersionTokenOfWords(first: string, second: string, word: string, rest: string)
    requires ' ' !in first && ' ' !in second && ' ' !in word
    requires MentionsJava(first + [' '] + (second + [' '] + (word + [' '] + rest)))
    ensures VersionToken(first + [' '] + (second + [' '] + (word + [' '] + rest))) == Some(RemoveAll(word, '"'))
  {
    SplitCons(first, second + [' '] + (word + [' '] + rest), ' ');
    SplitCons(second, word + [' '] + rest, ' ');
    SplitCons(word, rest, ' ');
  }

  /** The gate reads the first two dot-separated parts of the token. */
  lemma PreJava8Parts(major: string, minor: string, more: string)
    requires '.' !in major && '.' !in minor
    ensures IsPreJava8(major + ['.'] + (minor + ['.'] + more))
        <==> (ParseInt(major) == Some(1) && ParseInt(minor).Some? && ParseInt(minor).value < 8)
  {
    SplitCons(major, minor + ['.'] + more, '.');
    SplitCons(minor, more, '.');
  }

  /** A version written `<major>.<minor>.<more>`, read part by part. */
  lemma PreJava8Of(token: string, major: nat, minor: nat, more: string)
    requires token == NatToString(major) + ['.'] + (NatToString(minor) + ['.'] + more)
    ensures IsPreJava8(token) <==> major == 1 && minor < 8
  {
    PreJava8Parts(NatToString(major), NatToString(minor), more);
    ParseIntOfNatToString(major);
    ParseIntOfNatToString(minor);
  }

  /** Java 1.7 is turned away. */
  lemma Java7Rejected()
    ensures IsPreJava8("1.7.0_80")
  {
    assert NatToString(1) == "1" && NatToString(7) == "7";
    PreJava8Of("1.7.0_80", 1, 7, "0_80");
  }

  /** Java 1.8 is the oldest runtime accepted. */
  lemma Java8Accepted()
    ensures !IsPreJava8("1.8.0_292")
  {
    assert NatToString(1) == "1" && NatToString(8) == "8";
    PreJava8Of("1.8.0_292", 1, 8, "0_292");
  }

  /** OpenJDK 11 passes the gate. */
  lemma OpenJdk11Accepted()
    ensures !IsPreJava8("11.0.2")
  {
    assert NatToString(11) == "11" && NatToString(0) == "0";
    PreJava8Of("11.0.2", 11, 0, "2");
  }

  /** OpenJDK 17, whose version has no minor part, passes the gate. */
  lemma OpenJdk17Accepted()
    ensures !IsPreJava8("17")
  {
    assert Split("17", '.') == ["17"];
  }

  /** `data.slice(0, 'java.net.ConnectException'.length)` */
  function SlicePrefix(data: string, n: nat): (r: string)
    ensures |r| <= n && |r| <= |data| && r == data[..|r|]
  {
    if |data| <= n then data else data[..n]
  }

  /**
   * `checkJarFile`: the jar loads when the server dies for want of a client
   * (`java.net.ConnectException`); any other output is shown as an error.
   * `None` stands for `true`, `Some(message)` for `false` with that message.
   */
  function CheckJarFile(data: string): (r: Option<string>)
    ensures r.None? <==> StartsWith(data, ConnectException)
    ensures r.Some? ==> r.value == JarErrorPrefix + data
  {
    if SlicePrefix(data, |ConnectException|) == ConnectException then None
    else Some(JarErrorPrefix + data)
  }

  method CheckJarStream(chunks: seq<string>) returns (r: Option<string>)
    ensures r == CheckJarFile(Concat(chunks))
  {
    var data := CollectStderr(chunks);
    r := CheckJarFile(data);
  }
}
