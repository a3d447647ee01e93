/**
 * The free functions of `extension/src/extension.ts`: the root API file
 * registry kept in `<root>/exchange.json`, the conversion pickers, the
 * reaction to renamed and deleted files, the re-validation of open documents
 * and the arguments the language server is spawned with.
 */
module Extension {
  import opened Js
  import opened PosixPath
  import opened Sequences
  import opened ServerTypes
  import opened Host
  import opened StatusBars

  const RestartLanguageServer := "ac.management.restart"
  const ConfigFile := "exchange.json"
  const SelectFile := "Select file"
  const OutsideWorkspaceMessage := "The root API file cannot be outside the current workspace root."
  const MultipleRootsMessage := "There are multiple root API files in the workspace root. Please select a root API file manually."
  const RootNotSetMessage := "The root API file is not set for this workspace. Would you like to set the root API file?"
  const Raml08Message := "Conversion from RAML 0.8 is not supported."
  const NoWorkspaceMessage := "Failed to set the root API file: no workspace currently opened."

  function AutoSelectedMessage(rootFile: string): string
  {
    "The \"" + rootFile + "\" has been automatically selected as a root API file."
  }

  /** `path.join(workspaceRoot, configFile)`; `join`'s normalisation is not applied. */
  function ConfigPath(root: string): string
  {
    root + "/" + ConfigFile
  }

  // ------------------------------------------------------------------
  // The root API file path (writeMainApiFile)
  // ------------------------------------------------------------------

  datatype MainPath = Accepted(main: string) | OutsideWorkspace

  /**
   * The `main` value stored for a chosen file: an absolute path becomes
   * relative to the root with `\` turned into `/`, and is refused when it then
   * starts with `../`; any other path is stored as given.
   */
  function MainPathFor(root: string, filePath: string): (r: MainPath)
    ensures !IsAbsolute(filePath) ==> r == Accepted(filePath)
    ensures r == OutsideWorkspace ==> IsAbsolute(filePath)
  {
    if !IsAbsolute(filePath) then Accepted(filePath)
    else
      var main := ReplaceAll(Relative(root, filePath), '\\', '/');
      if StartsWith(main, "../") then OutsideWorkspace else Accepted(main)
  }

  /**
   * For an absolute path without backslashes, the file is refused exactly
   * when it is neither inside the root nor the root's own parent directory.
   */
  lemma MainPathOutside(root: string, filePath: string)
    requires IsAbsolute(filePath) && '\\' !in filePath
    ensures MainPathFor(root, filePath) == OutsideWorkspace
        <==> !IsWithin(Segments(root), Segments(filePath)) && !IsParentOf(Segments(filePath), Segments(root))
  {
    var rel := RelativeSegments(Segments(root), Segments(filePath));
    RelativeAvoids(root, filePath, '\\');
    ReplaceAllAbsent(Relative(root, filePath), '\\', '/');
    RelativeSegmentsSlashFree(Segments(root), Segments(filePath));
    JoinStartsWithParent(rel);
    RelativeClimbsOut(Segments(root), Segments(filePath));
  }

  /** The root's parent directory slips through the `../` test and is stored as `..`. */
  lemma MainPathOfRootParent(root: string, filePath: string)
    requires IsAbsolute(filePath) && IsParentOf(Segments(filePath), Segments(root))
    ensures MainPathFor(root, filePath) == Accepted("..")
  {
    var f, t := Segments(root), Segments(filePath);
    CommonPrefixOfParent(f, t);
    assert RelativeSegments(f, t) == [".."];
    assert Relative(root, filePath) == "..";
    ReplaceAllAbsent("..", '\\', '/');
  }

  /** A stored relative path, joined to the root again, names the chosen file. */
  lemma MainPathResolves(root: string, filePath: string)
    requires IsAbsolute(filePath) && '\\' !in filePath
    requires MainPathFor(root, filePath).Accepted?
    ensures Segments(root + "/" + MainPathFor(root, filePath).main) == Segments(filePath)
  {
    RelativeAvoids(root, filePath, '\\');
    ReplaceAllAbsent(Relative(root, filePath), '\\', '/');
    RelativeResolvesBack(root, filePath);
  }

  /** What `writeMainApiFile` asks of the host. */
  function WriteCalls(root: string, filePath: string): (r: seq<HostCall>)
    ensures MainPathFor(root, filePath) == OutsideWorkspace ==> r == [ShowError(OutsideWorkspaceMessage)]
    ensures MainPathFor(root, filePath).Accepted? ==>
      r == [WriteConfig(ConfigPath(root), MainPathFor(root, filePath).main), ExecuteCommand(RestartLanguageServer)]
  {
    match MainPathFor(root, filePath)
    case OutsideWorkspace => [ShowError(OutsideWorkspaceMessage)]
    case Accepted(main) => [WriteConfig(ConfigPath(root), main), ExecuteCommand(RestartLanguageServer)]
  }

  /** The main-file label after `writeMainApiFile`: unchanged on refusal. */
  function WrittenLabel(root: string, filePath: string, current: string): string
  {
    match MainPathFor(root, filePath)
    case OutsideWorkspace => current
    case Accepted(main) => MainFileText(Some(main))
  }

  /**
   * The label `writeMainApiFile` and `readMainApiFile` actually produce: they
   * pass an already prefixed text to a bar whose `updateText` prefixes again.
   */
  function AsWrittenLabel(shown: string): string
  {
    MainFileText(Some(FileCodeIcon + shown))
  }

  /** The as-written label carries the icon twice, so it never equals the intended one. */
  lemma AsWrittenLabelDoubled(shown: string)
    ensures AsWrittenLabel(shown) == FileCodeIcon + FileCodeIcon + shown
    ensures AsWrittenLabel(shown) != MainFileText(Some(shown))
    ensures AsWrittenLabel(NoRootApiFile) != MainFileText(None)
  {
    assert |AsWrittenLabel(shown)| == 2 * |FileCodeIcon| + |shown|;
    assert |MainFileText(Some(shown))| <= |FileCodeIcon| + |shown| + |NoRootApiFile|;
    if shown != "" {
      assert |MainFileText(Some(shown))| == |FileCodeIcon| + |shown|;
    }
    assert |AsWrittenLabel(NoRootApiFile)| == 2 * |FileCodeIcon| + |NoRootApiFile|;
  }

  // ------------------------------------------------------------------
  // Choosing the root API file (checkMainApiFile)
  // ------------------------------------------------------------------

  /** What auto-detection decides over the candidates `findApiFiles` returned. */
  datatype RootChoice =
    | NoAction
    | ManualSelection
    | AutoSelect(rootFile: string)
    /** `writeMainApiFile(root, undefined)`: `path.isAbsolute` throws a `TypeError`. */
    | Throws

  /** The decision as written: an empty array is truthy, so `candidates[0]` is read. */
  function AutoDetectAsWritten(candidates: Option<seq<string>>): (r: RootChoice)
    ensures candidates.None? ==> r == NoAction
    ensures candidates.Some? && |candidates.value| > 1 ==> r == ManualSelection
    ensures candidates.Some? && |candidates.value| == 1 ==> r == AutoSelect(candidates.value[0])
  {
    match candidates
    case None => NoAction
    case Some(files) =>
      if |files| > 1 then ManualSelection
      else if |files| == 1 then AutoSelect(files[0])
      else Throws
  }

  /** The decision with zero candidates treated as none, as the policy intends. */
  function AutoDetect(candidates: Option<seq<string>>): (r: RootChoice)
    ensures r != Throws
    ensures r.AutoSelect? <==> candidates.Some? && |candidates.value| == 1
    ensures r.AutoSelect? ==> r.rootFile == candidates.value[0]
    ensures r == ManualSelection <==> candidates.Some? && |candidates.value| > 1
  {
    match candidates
    case None => NoAction
    case Some(files) =>
      if |files| > 1 then ManualSelection
      else if |files| == 1 then AutoSelect(files[0])
      else NoAction
  }

  /** The two agree except on an empty candidate list, where the code as written throws. */
  lemma AutoDetectEmptyCandidates(candidates: Option<seq<string>>)
    ensures AutoDetectAsWritten(candidates) != AutoDetect(candidates) <==> candidates == Some([])
    ensures AutoDetectAsWritten(Some([])) == Throws && AutoDetect(Some([])) == NoAction
  {
  }

  /** `openMainApiSelection`: the dialog, then a write when a file was picked. */
  function SelectionCalls(root: string, picked: Option<string>): seq<HostCall>
  {
    [OpenMainFileDialog] + (if picked.Some? then WriteCalls(root, picked.value) else [])
  }

  /** The file `checkMainApiFile` hands to `writeMainApiFile`, if any. */
  function ChosenFile(autoDetect: bool, candidates: Option<seq<string>>, selection: bool, picked: Option<string>): Option<string>
  {
    if autoDetect then
      match AutoDetect(candidates)
      case AutoSelect(f) => Some(f)
      case ManualSelection => if selection then picked else None
      case _ => None
    else if selection then picked
    else None
  }

  /**
   * What `checkMainApiFile` asks of the host; `selection` is whether the user
   * pressed "Select file", `picked` the file the dialog returned.
   */
  function CheckCalls(root: string, autoDetect: bool, candidates: Option<seq<string>>, selection: bool, picked: Option<string>): seq<HostCall>
  {
    if autoDetect then
      match AutoDetect(candidates)
      case AutoSelect(f) => WriteCalls(root, f) + [ShowInfo(AutoSelectedMessage(f), [])]
      case ManualSelection => PromptCalls(MultipleRootsMessage, root, selection, picked)
      case _ => []
    else
      PromptCalls(RootNotSetMessage, root, selection, picked)
  }

  /** A message offering "Select file", then the dialog when the user accepts. */
  function PromptCalls(message: string, root: string, selection: bool, picked: Option<string>): seq<HostCall>
  {
    [ShowInfo(message, [SelectFile])] + (if selection then SelectionCalls(root, picked) else [])
  }

  /** With auto-detection and no candidates nothing happens. */
  lemma CheckWithoutCandidates(root: string, candidates: Option<seq<string>>, selection: bool, picked: Option<string>)
    requires candidates.None? || candidates == Some([])
    ensures CheckCalls(root, true, candidates, selection, picked) == []
    ensures ChosenFile(true, candidates, selection, picked) == None
  {
  }

  /** With several candidates nothing is written unless the user picks a file by hand. */
  lemma CheckNeverGuesses(root: string, files: seq<string>, selection: bool, picked: Option<string>)
    requires |files| > 1
    ensures ChosenFile(true, Some(files), selection, picked) == (if selection then picked else None)
    ensures CheckCalls(root, true, Some(files), selection, picked)[0] == ShowInfo(MultipleRootsMessage, [SelectFile])
    ensures !selection ==> CheckCalls(root, true, Some(files), selection, picked) == [ShowInfo(MultipleRootsMessage, [SelectFile])]
  {
  }

  /** A single candidate, a plain file name, is written as is and announced. */
  lemma CheckSingleCandidate(root: string, file: string, selection: bool, picked: Option<string>)
    requires !IsAbsolute(file)
    ensures ChosenFile(true, Some([file]), selection, picked) == Some(file)
    ensures CheckCalls(root, true, Some([file]), selection, picked)
         == [WriteConfig(ConfigPath(root), file), ExecuteCommand(RestartLanguageServer), ShowInfo(AutoSelectedMessage(file), [])]
  {
  }

  /** Without auto-detection the user is only asked. */
  lemma CheckOnlyPrompts(root: string, candidates: Option<seq<string>>, selection: bool, picked: Option<string>)
    ensures CheckCalls(root, false, candidates, selection, picked)[0] == ShowInfo(RootNotSetMessage, [SelectFile])
    ensures !selection ==> CheckCalls(root, false, candidates, selection, picked) == [ShowInfo(RootNotSetMessage, [SelectFile])]
    ensures !selection ==> ChosenFile(false, candidates, selection, picked) == None
  {
  }

  /** What `exchange.json` yielded: unreadable, or its `main` value. */
  datatype ConfigContents = Unreadable | Readable(main: Option<string>)

  // ------------------------------------------------------------------
  // Conversion pickers (showTargetFormatPick, showTargetSyntaxPick)
  // ------------------------------------------------------------------

  /** The target formats offered for a source of type `sourceType`; `None` when conversion is refused. */
  function TargetFormats(sourceType: string): (r: Option<seq<ConversionFormat>>)
    ensures r.None? <==> sourceType == FormatName(Raml08)
  {
    if sourceType == FormatName(Raml08) then None
    else if sourceType == FormatName(Raml10) then Some([Oas20, Oas30])
    else Some([Oas20, Oas30, Raml10])
  }

  /**
   * The offered targets are OAS 2.0 and OAS 3.0, in that order, followed by
   * RAML 1.0 unless the source already is RAML 1.0; nothing is offered twice.
   */
  lemma TargetFormatsOffered(sourceType: string, f: ConversionFormat)
    requires TargetFormats(sourceType).Some?
    ensures TargetFormats(sourceType).value[..2] == [Oas20, Oas30]
    ensures f in TargetFormats(sourceType).value
        <==> f == Oas20 || f == Oas30 || (f == Raml10 && sourceType != FormatName(Raml10))
    ensures forall i, j :: (0 <= i < j < |TargetFormats(sourceType).value|
        ==> TargetFormats(sourceType).value[i] != TargetFormats(sourceType).value[j])
  {
  }

  /** The syntax step: fixed for a RAML target, otherwise a list to pick from. */
  datatype SyntaxPick = FixedSyntax(syntax: ConversionSyntax) | OfferSyntaxes(syntaxes: seq<ConversionSyntax>)

  /** Whether `toSyntax` survives the filter of `showTargetSyntaxPick`. */
  predicate KeepsSyntax(fromFormat: string, fromSyntax: string, toFormat: ConversionFormat, toSyntax: ConversionSyntax)
  {
    !(fromFormat == FormatName(toFormat) && SyntaxName(toSyntax) == fromSyntax)
  }

  function TargetSyntaxes(fromFormat: string, fromSyntax: string, toFormat: ConversionFormat): (r: SyntaxPick)
    ensures toFormat == Raml10 <==> r == FixedSyntax(Raml)
    ensures r.OfferSyntaxes? ==> IsSubsequence(r.syntaxes, [Json, Yaml])
  {
    if toFormat == Raml10 then FixedSyntax(Raml)
    else
      FilterIsSubsequence([Json, Yaml], s => KeepsSyntax(fromFormat, fromSyntax, toFormat, s));
      OfferSyntaxes(Filter([Json, Yaml], s => KeepsSyntax(fromFormat, fromSyntax, toFormat, s)))
  }

  /**
   * JSON and YAML are offered except the source syntax when the format stays
   * the same; the list is never empty.
   */
  lemma TargetSyntaxesOffered(fromFormat: string, fromSyntax: string, toFormat: ConversionFormat, s: ConversionSyntax)
    requires toFormat != Raml10
    ensures TargetSyntaxes(fromFormat, fromSyntax, toFormat).OfferSyntaxes?
    ensures s in TargetSyntaxes(fromFormat, fromSyntax, toFormat).syntaxes
        <==> s != Raml && !(fromFormat == FormatName(toFormat) && SyntaxName(s) == fromSyntax)
    ensures |TargetSyntaxes(fromFormat, fromSyntax, toFormat).syntaxes| >= 1
  {
    var keep := (x: ConversionSyntax) => KeepsSyntax(fromFormat, fromSyntax, toFormat, x);
    FilterMembership([Json, Yaml], keep, s);
    if fromSyntax == "json" {
      FilterMembership([Json, Yaml], keep, Yaml);
    } else {
      FilterMembership([Json, Yaml], keep, Json);
    }
  }

  /** Whatever the user picks in both steps, the conversion never yields the source's own format and syntax. */
  lemma ConversionChangesSomething(fromFormat: string, fromSyntax: string, toFormat: ConversionFormat, s: ConversionSyntax)
    requires TargetFormats(fromFormat).Some? && toFormat in TargetFormats(fromFormat).value
    requires TargetSyntaxes(fromFormat, fromSyntax, toFormat) == FixedSyntax(s)
          || (TargetSyntaxes(fromFormat, fromSyntax, toFormat).OfferSyntaxes?
              && s in TargetSyntaxes(fromFormat, fromSyntax, toFormat).syntaxes)
    ensures !(FormatName(toFormat) == fromFormat && SyntaxName(s) == fromSyntax)
  {
    if toFormat != Raml10 {
      TargetSyntaxesOffered(fromFormat, fromSyntax, toFormat, s);
    }
  }

  /** `window.showQuickPick(items)`: the item at the index the user chose, `None` when dismissed. */
  function QuickPick<T>(items: seq<T>, choice: Option<nat>): (r: Option<T>)
    ensures r.Some? ==> r.value in items
  {
    if choice.Some? && choice.value < |items| then Some(items[choice.value]) else None
  }

  /** `showTargetSyntaxPick`, with the quick pick's answer as `choice`. */
  method ShowTargetSyntaxPick(fromFormat: string, fromSyntax: string, toFormat: ConversionFormat, choice: Option<nat>)
    returns (r: Option<ConversionSyntax>)
    ensures toFormat == Raml10 ==> r == Some(Raml)
    ensures toFormat != Raml10 ==> r == QuickPick(TargetSyntaxes(fromFormat, fromSyntax, toFormat).syntaxes, choice)
    ensures toFormat != Raml10 && r.Some? ==> r.value != Raml && KeepsSyntax(fromFormat, fromSyntax, toFormat, r.value)
  {
    match TargetSyntaxes(fromFormat, fromSyntax, toFormat)
    case FixedSyntax(s) =>
      r := Some(s);
    case OfferSyntaxes(syntaxes) =>
      r := QuickPick(syntaxes, choice);
      if r.Some? {
        TargetSyntaxesOffered(fromFormat, fromSyntax, toFormat, r.value);
      }
  }

  // ------------------------------------------------------------------
  // Rename edits (autoRenameRefs)
  // ------------------------------------------------------------------

  /** The replace operations one `documentChanges` entry contributes. */
  function ChangeReplaces(change: DocumentChange): (r: seq<Replace>)
    ensures change.ResourceOperation? ==> r == []
    ensures change.TextDocumentEdit? ==> |r| == |change.edits|
    ensures change.TextDocumentEdit? ==>
      forall i :: 0 <= i < |r| ==> r[i] == Replace(change.uri, change.edits[i].range, change.edits[i].newText)
  {
    match change
    case ResourceOperation(_) => []
    case TextDocumentEdit(uri, edits) =>
      seq(|edits|, i requires 0 <= i < |edits| => Replace(uri, edits[i].range, edits[i].newText))
  }

  /** The `WorkspaceEdit` built from a list of document changes. */
  function FlattenEdits(changes: seq<DocumentChange>): seq<Replace>
  {
    if changes == [] then [] else FlattenEdits(changes[..|changes| - 1]) + ChangeReplaces(changes[|changes| - 1])
  }

  lemma FlattenEditsStep(changes: seq<DocumentChange>, i: nat)
    requires i < |changes|
    ensures FlattenEdits(changes[..i + 1]) == FlattenEdits(changes[..i]) + ChangeReplaces(changes[i])
  {
    assert changes[..i + 1][..i] == changes[..i];
  }

  /** Flattening takes one change at a time. */
  lemma FlattenEditsSnoc(changes: seq<DocumentChange>, change: DocumentChange)
    ensures FlattenEdits(changes + [change]) == FlattenEdits(changes) + ChangeReplaces(change)
  {
    assert (changes + [change])[..|changes|] == changes;
  }

  predicate IsTextEdit(c: DocumentChange)
  {
    c.TextDocumentEdit?
  }

  /** Resource operations (the entries with a `kind`) contribute nothing. */
  lemma {:induction false} FlattenEditsIgnoresResources(changes: seq<DocumentChange>)
    ensures FlattenEdits(changes) == FlattenEdits(Filter(changes, IsTextEdit))
    decreases |changes|
  {
    if changes != [] {
      var init := changes[..|changes| - 1];
      var last := changes[|changes| - 1];
      FlattenEditsIgnoresResources(init);
      var kept := Filter(init, IsTextEdit);
      assert FlattenEdits(changes) == FlattenEdits(init) + ChangeReplaces(last);
      if IsTextEdit(last) {
        assert Filter(changes, IsTextEdit) == kept + [last];
        FlattenEditsSnoc(kept, last);
      } else {
        assert Filter(changes, IsTextEdit) == kept;
      }
    }
  }

  /** The loop of `autoRenameRefs` that fills one `WorkspaceEdit`. */
  method BuildWorkspaceEdit(changes: seq<DocumentChange>) returns (we: seq<Replace>)
    ensures we == FlattenEdits(changes)
  {
    we := [];
    var i := 0;
    while i < |changes|
      invariant 0 <= i <= |changes|
      invariant we == FlattenEdits(changes[..i])
    {
      FlattenEditsStep(changes, i);
      var documentChange := changes[i];
      if documentChange.TextDocumentEdit? {
        var edits := documentChange.edits;
        var j := 0;
        while j < |edits|
          invariant 0 <= j <= |edits|
          invariant we == FlattenEdits(changes[..i]) + ChangeReplaces(documentChange)[..j]
        {
          assert ChangeReplaces(documentChange)[..j + 1] == ChangeReplaces(documentChange)[..j] + [ChangeReplaces(documentChange)[j]];
          we := we + [Replace(documentChange.uri, edits[j].range, edits[j].newText)];
          j := j + 1;
        }
        assert ChangeReplaces(documentChange)[..j] == ChangeReplaces(documentChange);
      }
      i := i + 1;
    }
    assert changes[..i] == changes;
  }

  /** The `documentChanges` of the server's answer to the rename request for `file`. */
  function ChangesFor(respond: FileRename -> RenameFileResponse, file: FileRename): Option<seq<DocumentChange>>
  {
    respond(file).edits.documentChanges
  }

  /** The index of the first renamed file whose answer has no `documentChanges`. */
  function FirstWithoutChanges(renames: seq<FileRename>, respond: FileRename -> RenameFileResponse): (k: nat)
    ensures k <= |renames|
    ensures forall j :: 0 <= j < k ==> ChangesFor(respond, renames[j]).Some?
    ensures k < |renames| ==> ChangesFor(respond, renames[k]).None?
  {
    if renames == [] || ChangesFor(respond, renames[0]).None? then 0
    else 1 + FirstWithoutChanges(renames[1..], respond)
  }

  /**
   * What one renamed file costs: the request and, when the answer has
   * changes, the edit and a save. The edit's promise is not awaited, so the
   * save always follows.
   */
  function RenameStep(file: FileRename, respond: FileRename -> RenameFileResponse): seq<HostCall>
  {
    [RenameFileRequest(file.oldUri, file.newUri)]
    + match ChangesFor(respond, file)
      case None => []
      case Some(changes) => [ApplyEdit(FlattenEdits(changes)), SaveAll]
  }

  function RenamesUpTo(renames: seq<FileRename>, n: nat, respond: FileRename -> RenameFileResponse): seq<HostCall>
    requires n <= |renames|
  {
    if n == 0 then [] else RenamesUpTo(renames, n - 1, respond) + RenameStep(renames[n - 1], respond)
  }

  /**
   * How many renamed files `autoRenameRefs` gets to: all of them, or those up
   * to and including the first whose answer has no changes.
   */
  function RenamesReached(renames: seq<FileRename>, respond: FileRename -> RenameFileResponse): (n: nat)
    ensures n <= |renames|
    ensures forall j :: 0 <= j < n - 1 ==> ChangesFor(respond, renames[j]).Some?
    ensures n < |renames| ==> n >= 1 && ChangesFor(respond, renames[n - 1]).None?
    ensures n == |renames| <==> forall j :: 0 <= j < |renames| - 1 ==> ChangesFor(respond, renames[j]).Some?
  {
    var k := FirstWithoutChanges(renames, respond);
    if k < |renames| then k + 1 else k
  }

  /** What `autoRenameRefs` asks of the host, with `respond` for the server's answers. */
  function RenameCalls(renames: seq<FileRename>, respond: FileRename -> RenameFileResponse): seq<HostCall>
  {
    RenamesUpTo(renames, RenamesReached(renames, respond), respond)
  }

  predicate IsRenameRequest(c: HostCall)
  {
    c.RenameFileRequest?
  }

  /** The rename requests for the first `n` files, in order. */
  function RequestsUpTo(renames: seq<FileRename>, n: nat): (r: seq<HostCall>)
    requires n <= |renames|
    ensures |r| == n
    ensures forall j :: 0 <= j < n ==> r[j] == RenameFileRequest(renames[j].oldUri, renames[j].newUri)
  {
    if n == 0 then [] else RequestsUpTo(renames, n - 1) + [RenameFileRequest(renames[n - 1].oldUri, renames[n - 1].newUri)]
  }

  /** A file's calls hold exactly one rename request, for that file. */
  lemma StepRequestsOnce(file: FileRename, respond: FileRename -> RenameFileResponse)
    ensures Filter(RenameStep(file, respond), IsRenameRequest) == [RenameFileRequest(file.oldUri, file.newUri)]
  {
    var request := RenameFileRequest(file.oldUri, file.newUri);
    assert [request][..0] == [];
    assert Filter([request], IsRenameRequest) == [request];
    match ChangesFor(respond, file)
    case None =>
      assert RenameStep(file, respond) == [request];
    case Some(changes) =>
      var edit := ApplyEdit(FlattenEdits(changes));
      FilterAppend([request], [edit, SaveAll], IsRenameRequest);
      assert [edit, SaveAll][..1] == [edit] && [edit][..0] == [];
      assert Filter([edit, SaveAll], IsRenameRequest) == [];
  }

  lemma {:induction false} RequestsOfRenamesUpTo(renames: seq<FileRename>, n: nat, respond: FileRename -> RenameFileResponse)
    requires n <= |renames|
    ensures Filter(RenamesUpTo(renames, n, respond), IsRenameRequest) == RequestsUpTo(renames, n)
    decreases n
  {
    if n > 0 {
      RequestsOfRenamesUpTo(renames, n - 1, respond);
      FilterAppend(RenamesUpTo(renames, n - 1, respond), RenameStep(renames[n - 1], respond), IsRenameRequest);
      StepRequestsOnce(renames[n - 1], respond);
    }
  }

  /**
   * Each file is requested once, in order, up to and including the first
   * whose answer has no changes; no later file is requested.
   */
  lemma RenameRequestsStopAtMissingChanges(renames: seq<FileRename>, respond: FileRename -> RenameFileResponse)
    ensures Filter(RenameCalls(renames, respond), IsRenameRequest) == RequestsUpTo(renames, RenamesReached(renames, respond))
  {
    RequestsOfRenamesUpTo(renames, RenamesReached(renames, respond), respond);
  }

  /** Every applied edit is immediately followed by a save. */
  lemma {:induction false} SaveFollowsEachEdit(renames: seq<FileRename>, n: nat, respond: FileRename -> RenameFileResponse, i: nat)
    requires n <= |renames|
    requires i < |RenamesUpTo(renames, n, respond)| && RenamesUpTo(renames, n, respond)[i].ApplyEdit?
    ensures i + 1 < |RenamesUpTo(renames, n, respond)| && RenamesUpTo(renames, n, respond)[i + 1] == SaveAll
    decreases n
  {
    var before := RenamesUpTo(renames, n - 1, respond);
    var step := RenameStep(renames[n - 1], respond);
    if i < |before| {
      SaveFollowsEachEdit(renames, n - 1, respond, i);
    } else {
      assert RenamesUpTo(renames, n, respond)[i] == step[i - |before|];
    }
  }

  /** Every applied edit of `autoRenameRefs` is immediately followed by a save. */
  lemma RenameSavesAfterEachEdit(renames: seq<FileRename>, respond: FileRename -> RenameFileResponse, i: nat)
    requires i < |RenameCalls(renames, respond)| && RenameCalls(renames, respond)[i].ApplyEdit?
    ensures i + 1 < |RenameCalls(renames, respond)| && RenameCalls(renames, respond)[i + 1] == SaveAll
  {
    SaveFollowsEachEdit(renames, RenamesReached(renames, respond), respond, i);
  }

  // ------------------------------------------------------------------
  // Re-validation (revalidate)
  // ------------------------------------------------------------------

  /** `documentSelector`: files in these language modes are sent to the server. */
  const SelectorLanguages := ["raml", "yaml", "json"]

  predicate IsTracked(d: TextDocument)
  {
    d.uri.scheme == "file" && d.languageId in SelectorLanguages
  }

  /** The index of the first open document `revalidate` returns at. */
  function FirstUntracked(docs: seq<TextDocument>): (k: nat)
    ensures k <= |docs|
    ensures forall j :: 0 <= j < k ==> IsTracked(docs[j])
    ensures k < |docs| ==> !IsTracked(docs[k])
  {
    if docs == [] || !IsTracked(docs[0]) then 0 else 1 + FirstUntracked(docs[1..])
  }

  /**
   * The index of the first open document `revalidate` sends nothing for: the
   * first untracked one, or an earlier tracked one whose `fs.readFile` rejects
   * (`read` gives None), which ends the loop and the handler.
   */
  function FirstUnnotified(docs: seq<TextDocument>, read: string -> Option<string>): (k: nat)
    ensures k <= FirstUntracked(docs)
    ensures forall j :: 0 <= j < k ==> read(docs[j].uri.path).Some?
    ensures k < FirstUntracked(docs) ==> read(docs[k].uri.path).None?
  {
    if docs == [] || !IsTracked(docs[0]) || read(docs[0].uri.path).None? then 0
    else 1 + FirstUnnotified(docs[1..], read)
  }

  /** The full-text change notification for one document with the given contents. */
  function DidChangeOf(d: TextDocument, contents: string): HostCall
  {
    DidChange(UriText(d.uri), d.version, contents)
  }

  /** What `revalidate` asks for one processed document. */
  function ValidationCalls(d: TextDocument, hasDiagnostics: bool, contents: string): seq<HostCall>
  {
    (if hasDiagnostics then [ClearDiagnostics(d.uri)] else []) + [DidChangeOf(d, contents)]
  }

  /** What `revalidate` asks for the first `n` documents, all of them readable. */
  function ValidationsUpTo(docs: seq<TextDocument>, n: nat, hasDiagnostics: bool, read: string -> Option<string>): seq<HostCall>
    requires n <= FirstUnnotified(docs, read)
  {
    if n == 0 then []
    else ValidationsUpTo(docs, n - 1, hasDiagnostics, read)
         + ValidationCalls(docs[n - 1], hasDiagnostics, read(docs[n - 1].uri.path).value)
  }

  /** Whether `revalidate` rejects: a tracked document's file cannot be read. */
  predicate RevalidationRejects(docs: seq<TextDocument>, read: string -> Option<string>)
  {
    FirstUnnotified(docs, read) < FirstUntracked(docs)
  }

  /**
   * What `revalidate` asks of the host for the open documents: the notified
   * ones, then, when a read rejects, the clearing of that document's
   * diagnostics that came before the read.
   */
  function RevalidationCalls(docs: seq<TextDocument>, hasDiagnostics: bool, read: string -> Option<string>): seq<HostCall>
  {
    var k := FirstUnnotified(docs, read);
    ValidationsUpTo(docs, k, hasDiagnostics, read)
      + (if RevalidationRejects(docs, read) && hasDiagnostics then [ClearDiagnostics(docs[k].uri)] else [])
  }

  predicate IsDidChange(c: HostCall)
  {
    c.DidChange?
  }

  /** The change notifications for the first `n` documents, in order. */
  function NotificationsUpTo(docs: seq<TextDocument>, n: nat, read: string -> Option<string>): (r: seq<HostCall>)
    requires n <= FirstUnnotified(docs, read)
    ensures |r| == n
    ensures forall k :: 0 <= k < n ==> r[k] == DidChangeOf(docs[k], read(docs[k].uri.path).value)
  {
    if n == 0 then [] else NotificationsUpTo(docs, n - 1, read) + [DidChangeOf(docs[n - 1], read(docs[n - 1].uri.path).value)]
  }

  lemma {:induction false} DidChangesUpTo(docs: seq<TextDocument>, n: nat, hasDiagnostics: bool, read: string -> Option<string>)
    requires n <= FirstUnnotified(docs, read)
    ensures Filter(ValidationsUpTo(docs, n, hasDiagnostics, read), IsDidChange) == NotificationsUpTo(docs, n, read)
    decreases n
  {
    if n > 0 {
      DidChangesUpTo(docs, n - 1, hasDiagnostics, read);
      var change := DidChangeOf(docs[n - 1], read(docs[n - 1].uri.path).value);
      var calls := ValidationCalls(docs[n - 1], hasDiagnostics, read(docs[n - 1].uri.path).value);
      FilterAppend(ValidationsUpTo(docs, n - 1, hasDiagnostics, read), calls, IsDidChange);
      if hasDiagnostics {
        FilterAppend([ClearDiagnostics(docs[n - 1].uri)], [change], IsDidChange);
        assert [ClearDiagnostics(docs[n - 1].uri)][..0] == [];
        assert Filter([ClearDiagnostics(docs[n - 1].uri)], IsDidChange) == [];
      } else {
        assert calls == [change];
      }
      assert [change][..0] == [];
      assert Filter([change], IsDidChange) == [change];
    }
  }

  /**
   * Exactly the documents before the first untracked or unreadable one are
   * notified, each once, in order, with its version and its current contents.
   */
  lemma RevalidationNotifies(docs: seq<TextDocument>, hasDiagnostics: bool, read: string -> Option<string>)
    ensures Filter(RevalidationCalls(docs, hasDiagnostics, read), IsDidChange)
            == NotificationsUpTo(docs, FirstUnnotified(docs, read), read)
  {
    var k := FirstUnnotified(docs, read);
    DidChangesUpTo(docs, k, hasDiagnostics, read);
    if RevalidationRejects(docs, read) && hasDiagnostics {
      var clear := ClearDiagnostics(docs[k].uri);
      FilterAppend(ValidationsUpTo(docs, k, hasDiagnostics, read), [clear], IsDidChange);
      assert [clear][..0] == [];
      assert Filter([clear], IsDidChange) == [];
    } else {
      assert RevalidationCalls(docs, hasDiagnostics, read) == ValidationsUpTo(docs, k, hasDiagnostics, read);
    }
  }

  // ------------------------------------------------------------------
  // Deleted files and the rename policy
  // ------------------------------------------------------------------

  predicate IsConfigPath(fsPath: string)
  {
    Basename(fsPath) == ConfigFile
  }

  /** What the delete handler asks for one deleted file, before it re-validates. */
  function DeletionCalls(fsPath: string): seq<HostCall>
  {
    if IsConfigPath(fsPath) then [ExecuteCommand(RestartLanguageServer), ScheduleReadMainApiFile] else []
  }

  /** What the delete handler asks for the deleted files, before it re-validates. */
  function DeletionsOf(files: seq<string>): seq<HostCall>
  {
    if files == [] then [] else DeletionsOf(files[..|files| - 1]) + DeletionCalls(files[|files| - 1])
  }

  lemma DeletionsOfStep(files: seq<string>, i: nat)
    requires i < |files|
    ensures DeletionsOf(files[..i + 1]) == DeletionsOf(files[..i]) + DeletionCalls(files[i])
  {
    assert files[..i + 1][..i] == files[..i];
  }

  /** `n` restarts, each followed by a scheduled re-read of the root API file. */
  function RestartPairs(n: nat): (r: seq<HostCall>)
    ensures |r| == 2 * n
  {
    if n == 0 then [] else RestartPairs(n - 1) + [ExecuteCommand(RestartLanguageServer), ScheduleReadMainApiFile]
  }

  /**
   * The server restarts once per deleted `exchange.json`, in any folder, and
   * for no other deleted file.
   */
  lemma {:induction false} DeletionsRestartPerConfig(files: seq<string>)
    ensures DeletionsOf(files) == RestartPairs(|Filter(files, IsConfigPath)|)
    decreases |files|
  {
    if files != [] {
      DeletionsRestartPerConfig(files[..|files| - 1]);
    }
  }

  /** The `autoRenameRefs` setting: only `'never'` turns reference fixing off. */
  predicate FixesReferences(setting: Option<string>)
  {
    setting != Some("never")
  }

  // ------------------------------------------------------------------
  // Spawning the language server (createServer)
  // ------------------------------------------------------------------

  /** What `server.address()` returned. */
  datatype ServerAddress = PortAddress(port: nat) | PipeAddress(name: string) | NoAddress

  datatype Spawn = Spawn(command: string, args: seq<string>, cwd: Option<string>)

  /** `ctx.asAbsolutePath(path.join('assets', 'als-server-assembly.jar'))` */
  function JarPath(extensionPath: string): string
  {
    extensionPath + "/assets/als-server-assembly.jar"
  }

  /**
   * `typeof address === 'object' ? address.port : 0`; `None` when the
   * `!address` guard throws: no address, or an empty pipe name, which is falsy.
   */
  function ServerPort(address: ServerAddress): (r: Option<nat>)
    ensures r.None? <==> address == NoAddress || address == PipeAddress("")
    ensures address.PortAddress? ==> r == Some(address.port)
    ensures address.PipeAddress? && address.name != "" ==> r == Some(0)
  {
    match address
    case NoAddress => None
    case PortAddress(port) => Some(port)
    case PipeAddress(name) => if name == "" then None else Some(0)
  }

  function SpawnArgs(jarPath: string, port: nat): seq<string>
  {
    ["-jar", jarPath, "--port", NatToString(port)]
  }

  /** `child_process.spawn("java", args, { cwd: workspace.rootPath })` */
  function ServerSpawn(extensionPath: string, rootPath: Option<string>, address: ServerAddress): (r: Option<Spawn>)
    ensures r.None? <==> address == NoAddress || address == PipeAddress("")
  {
    match ServerPort(address)
    case None => None
    case Some(port) => Some(Spawn("java", SpawnArgs(JarPath(extensionPath), port), rootPath))
  }

  /** The server is started as `java -jar <jar> --port <port>` in the workspace root. */
  lemma ServerSpawnOfPort(extensionPath: string, rootPath: Option<string>, port: nat, pipe: string)
    ensures ServerSpawn(extensionPath, rootPath, PortAddress(port)) == Some(Spawn("java", SpawnArgs(JarPath(extensionPath), port), rootPath))
    ensures pipe != "" ==> ServerSpawn(extensionPath, rootPath, PipeAddress(pipe)) == Some(Spawn("java", SpawnArgs(JarPath(extensionPath), 0), rootPath))
    ensures ServerSpawn(extensionPath, rootPath, PipeAddress("")) == None
  {
  }

  /** The server reads back, as a number, the port it was given. */
  lemma SpawnArgsPort(jarPath: string, port: nat)
    ensures |SpawnArgs(jarPath, port)| == 4 && SpawnArgs(jarPath, port)[1] == jarPath
    ensures ParseInt(SpawnArgs(jarPath, port)[3]) == Some(port)
  {
    var text := NatToString(port);
    assert SpawnArgs(jarPath, port)[3] == text;
    ParseIntOfNatToString(port);
  }

  // ------------------------------------------------------------------
  // The module state and the operations with effects
  // ------------------------------------------------------------------

  /** The module-level state of `extension.ts` that the operations touch. */
  class Extension {
    const ui: Ui
    const mainFileStatusBar: StatusBar

    constructor(ui: Ui, mainFileStatusBar: StatusBar)
      ensures this.ui == ui && this.mainFileStatusBar == mainFileStatusBar
    {
      this.ui := ui;
      this.mainFileStatusBar := mainFileStatusBar;
    }

    /** `writeMainApiFile`, with the label set through the bar's own prefixing rule. */
    method WriteMainApiFile(root: string, filePath: string)
      modifies ui, mainFileStatusBar.item
      ensures ui.log == old(ui.log) + WriteCalls(root, filePath)
      ensures mainFileStatusBar.item.text == WrittenLabel(root, filePath, old(mainFileStatusBar.item.text))
      ensures mainFileStatusBar.item.visible == old(mainFileStatusBar.item.visible)
    {
      var main := filePath;
      if IsAbsolute(filePath) {
        main := ReplaceAll(Relative(root, filePath), '\\', '/');
        if StartsWith(main, "../") {
          ui.Call(ShowError(OutsideWorkspaceMessage));
          return;
        }
      }
      ui.Call(WriteConfig(ConfigPath(root), main));
      ui.Call(ExecuteCommand(RestartLanguageServer));
      mainFileStatusBar.UpdateMainFileText(Some(main));
    }

    /** `openMainApiSelection`, with the dialog's answer as `picked`. */
    method OpenMainApiSelection(root: string, picked: Option<string>)
      modifies ui, mainFileStatusBar.item
      ensures ui.log == old(ui.log) + SelectionCalls(root, picked)
      ensures mainFileStatusBar.item.text
           == if picked.Some? then WrittenLabel(root, picked.value, old(mainFileStatusBar.item.text)) else old(mainFileStatusBar.item.text)
      ensures mainFileStatusBar.item.visible == old(mainFileStatusBar.item.visible)
    {
      ui.Call(OpenMainFileDialog);
      if picked.Some? {
        WriteMainApiFile(root, picked.value);
      }
    }

    /** Offer "Select file" with `message` and open the dialog when the user accepts. */
    method PromptSelection(message: string, root: string, selection: bool, picked: Option<string>)
      modifies ui, mainFileStatusBar.item
      ensures ui.log == old(ui.log) + PromptCalls(message, root, selection, picked)
      ensures mainFileStatusBar.item.text
           == if selection && picked.Some? then WrittenLabel(root, picked.value, old(mainFileStatusBar.item.text)) else old(mainFileStatusBar.item.text)
      ensures mainFileStatusBar.item.visible == old(mainFileStatusBar.item.visible)
    {
      ui.Call(ShowInfo(message, [SelectFile]));
      if selection {
        OpenMainApiSelection(root, picked);
      }
    }

    /** The `ac.set.mainFile` command: an error without a workspace root, otherwise the selection dialog. */
    method SetMainApiFile(root: Option<string>, picked: Option<string>)
      modifies ui, mainFileStatusBar.item
      ensures !IsTruthyName(root) ==>
        ui.log == old(ui.log) + [ShowError(NoWorkspaceMessage)] && mainFileStatusBar.item.text == old(mainFileStatusBar.item.text)
      ensures IsTruthyName(root) ==>
        ui.log == old(ui.log) + SelectionCalls(root.value, picked)
        && mainFileStatusBar.item.text
           == if picked.Some? then WrittenLabel(root.value, picked.value, old(mainFileStatusBar.item.text)) else old(mainFileStatusBar.item.text)
      ensures mainFileStatusBar.item.visible == old(mainFileStatusBar.item.visible)
    {
      if root.None? || root.value == "" {
        ui.Call(ShowError(NoWorkspaceMessage));
        return;
      }
      OpenMainApiSelection(root.value, picked);
    }

    /** `checkMainApiFile`, with an empty candidate list treated as none. */
    method CheckMainApiFile(root: string, autoDetect: bool, candidates: Option<seq<string>>, selection: bool, picked: Option<string>)
      modifies ui, mainFileStatusBar.item
      ensures ui.log == old(ui.log) + CheckCalls(root, autoDetect, candidates, selection, picked)
      ensures var chosen := ChosenFile(autoDetect, candidates, selection, picked);
        mainFileStatusBar.item.text
          == if chosen.Some? then WrittenLabel(root, chosen.value, old(mainFileStatusBar.item.text)) else old(mainFileStatusBar.item.text)
      ensures mainFileStatusBar.item.visible == old(mainFileStatusBar.item.visible)
    {
      if autoDetect {
        match AutoDetect(candidates)
        case NoAction =>
        case ManualSelection =>
          PromptSelection(MultipleRootsMessage, root, selection, picked);
        case AutoSelect(rootFile) =>
          WriteMainApiFile(root, rootFile);
          ui.Call(ShowInfo(AutoSelectedMessage(rootFile), []));
      } else {
        PromptSelection(RootNotSetMessage, root, selection, picked);
      }
    }

    /**
     * `readMainApiFile`: label the bar from `exchange.json`, or show the
     * "no root" label and go through `checkMainApiFile` when it cannot be read.
     */
    method ReadMainApiFile(root: Option<string>, contents: ConfigContents, autoDetect: bool,
                           candidates: Option<seq<string>>, selection: bool, picked: Option<string>)
      modifies ui, mainFileStatusBar.item
      ensures root.None? || root.value == "" ==> ui.log == old(ui.log) && mainFileStatusBar.item.text == old(mainFileStatusBar.item.text)
      ensures root.Some? && root.value != "" && contents.Readable? ==>
        ui.log == old(ui.log) && mainFileStatusBar.item.text == MainFileText(contents.main)
      ensures root.Some? && root.value != "" && contents.Unreadable? ==>
        ui.log == old(ui.log) + CheckCalls(root.value, autoDetect, candidates, selection, picked)
        && var chosen := ChosenFile(autoDetect, candidates, selection, picked);
           mainFileStatusBar.item.text
             == if chosen.Some? then WrittenLabel(root.value, chosen.value, MainFileText(None)) else MainFileText(None)
      ensures mainFileStatusBar.item.visible == old(mainFileStatusBar.item.visible)
    {
      if root.None? || root.value == "" {
        return;
      }
      match contents
      case Readable(main) =>
        mainFileStatusBar.UpdateMainFileText(main);
      case Unreadable =>
        mainFileStatusBar.UpdateMainFileText(None);
        CheckMainApiFile(root.value, autoDetect, candidates, selection, picked);
    }

    /** `showTargetFormatPick`, with the quick pick's answer as `choice`. */
    method ShowTargetFormatPick(sourceType: string, choice: Option<nat>) returns (r: Option<ConversionFormat>)
      modifies ui
      ensures TargetFormats(sourceType).None? ==> r.None? && ui.log == old(ui.log) + [ShowError(Raml08Message)]
      ensures TargetFormats(sourceType).Some? ==> ui.log == old(ui.log) && r == QuickPick(TargetFormats(sourceType).value, choice)
    {
      var formats := TargetFormats(sourceType);
      if formats.None? {
        ui.Call(ShowError(Raml08Message));
        return None;
      }
      r := QuickPick(formats.value, choice);
    }

    /** One iteration of `autoRenameRefs`; `stop` is the early `return`. */
    method RenameOne(file: FileRename, respond: FileRename -> RenameFileResponse) returns (stop: bool)
      modifies ui
      ensures ui.log == old(ui.log) + RenameStep(file, respond)
      ensures stop <==> ChangesFor(respond, file).None?
    {
      ui.Call(RenameFileRequest(file.oldUri, file.newUri));
      var data := respond(file);
      if data.edits.documentChanges.None? {
        return true;
      }
      var we := BuildWorkspaceEdit(data.edits.documentChanges.value);
      ui.Call(ApplyEdit(we));
      ui.Call(SaveAll);
      return false;
    }

    /** `autoRenameRefs`, with the server's answers given by `respond`. */
    method AutoRenameRefs(renames: seq<FileRename>, respond: FileRename -> RenameFileResponse)
      modifies ui
      ensures ui.log == old(ui.log) + RenameCalls(renames, respond)
    {
      var i := 0;
      while i < |renames|
        invariant 0 <= i <= |renames|
        invariant FirstWithoutChanges(renames, respond) >= i
        invariant ui.log == old(ui.log) + RenamesUpTo(renames, i, respond)
      {
        var stop := RenameOne(renames[i], respond);
        if stop {
          assert FirstWithoutChanges(renames, respond) == i;
          assert RenamesReached(renames, respond) == i + 1;
          return;
        }
        i := i + 1;
      }
    }

    /**
     * `revalidate`, with `hasDiagnostics` for `client.diagnostics` and `read`
     * for `fs.readFile` (None when it rejects); `rejected` reports that
     * rejection, which ends the loop.
     */
    method Revalidate(docs: seq<TextDocument>, hasDiagnostics: bool, read: string -> Option<string>) returns (rejected: bool)
      modifies ui
      ensures rejected <==> RevalidationRejects(docs, read)
      ensures ui.log == old(ui.log) + RevalidationCalls(docs, hasDiagnostics, read)
    {
      var i := 0;
      while i < |docs|
        invariant 0 <= i <= FirstUnnotified(docs, read)
        invariant ui.log == old(ui.log) + ValidationsUpTo(docs, i, hasDiagnostics, read)
      {
        var file := docs[i];
        if !IsTracked(file) {
          assert FirstUntracked(docs) == i;
          return false;
        }
        if hasDiagnostics {
          ui.Call(ClearDiagnostics(file.uri));
        }
        var contents := read(file.uri.path);
        if contents.None? {
          assert FirstUnnotified(docs, read) == i < FirstUntracked(docs);
          return true;
        }
        ui.Call(DidChange(UriText(file.uri), file.version, contents.value));
        i := i + 1;
      }
      assert FirstUntracked(docs) == |docs|;
      rejected := false;
    }

    /** The `onDidRenameFiles` handler: fix references unless the setting is `'never'`, then re-validate. */
    method OnDidRenameFiles(setting: Option<string>, renames: seq<FileRename>, respond: FileRename -> RenameFileResponse,
                            docs: seq<TextDocument>, hasDiagnostics: bool, read: string -> Option<string>)
      returns (rejected: bool)
      modifies ui
      ensures rejected <==> RevalidationRejects(docs, read)
      ensures ui.log == old(ui.log) + (if FixesReferences(setting) then RenameCalls(renames, respond) else [])
                                    + RevalidationCalls(docs, hasDiagnostics, read)
    {
      if FixesReferences(setting) {
        AutoRenameRefs(renames, respond);
      }
      rejected := Revalidate(docs, hasDiagnostics, read);
    }

    /** The handler's reaction to one deleted file. */
    method ReactToDeletion(fsPath: string)
      modifies ui
      ensures ui.log == old(ui.log) + DeletionCalls(fsPath)
    {
      if Basename(fsPath) == ConfigFile {
        ui.Call(ExecuteCommand(RestartLanguageServer));
        ui.Call(ScheduleReadMainApiFile);
      }
    }

    /** The loop of the `onDidDeleteFiles` handler over the deleted files. */
    method ReactToDeletions(files: seq<string>)
      modifies ui
      ensures ui.log == old(ui.log) + DeletionsOf(files)
    {
      var i := 0;
      while i < |files|
        invariant 0 <= i <= |files|
        invariant ui.log == old(ui.log) + DeletionsOf(files[..i])
      {
        ghost var done := DeletionsOf(files[..i]);
        ReactToDeletion(files[i]);
        assert ui.log == old(ui.log) + (done + DeletionCalls(files[i]));
        DeletionsOfStep(files, i);
        i := i + 1;
      }
      assert files[..i] == files;
    }

    /** The `onDidDeleteFiles` handler: restart and schedule a re-read per deleted `exchange.json`, then re-validate. */
    method OnDidDeleteFiles(files: seq<string>, docs: seq<TextDocument>, hasDiagnostics: bool, read: string -> Option<string>)
      returns (rejected: bool)
      modifies ui
      ensures rejected <==> RevalidationRejects(docs, read)
      ensures ui.log == old(ui.log) + DeletionsOf(files) + RevalidationCalls(docs, hasDiagnostics, read)
    {
      ReactToDeletions(files);
      rejected := Revalidate(docs, hasDiagnostics, read);
    }
  }
}
