# api-contractor: a Dafny model of the extension's decision rules

api-contractor is a VS Code extension for RAML and OpenAPI documents. It
starts the AML language server, and around that server it makes a small
set of decisions:

- which files in the workspace root are API files, and in which format
  (OAS in JSON, OAS in YAML, RAML 0.8 or 1.0);
- which file is the root API file, recorded in `<root>/exchange.json`;
- which conversion targets and syntaxes to offer;
- how rename edits proposed by the server become workspace edits;
- which open documents are re-validated;
- which language mode a document is given, whether the `ac.isApiFile`
  context key is set, and what the two status bar entries show;
- whether a Java runtime and the server jar are usable;
- how the API console build de-duplicates its Babel plugins.

This project models these rules in Dafny and proves what they promise.

## How the model is organised

One module per source file, plus three helper modules:

- **`Js`** (`js.dfy`): the JavaScript string and number primitives the
  rules use. These are `trim`, `split`, ASCII `toLowerCase`, `replace` of
  one character, `parseInt` and `toString`, all over `seq<char>`.
- **`PosixPath`** (`posix_path.dfy`): Node's `path` module on POSIX. It
  covers `isAbsolute`, `basename`, `extname`, `resolve` as a list of
  segments, and `relative`.
- **`Sequences`** (`sequences.dfy`): `filter` and the subsequence relation.
- **`Host`** (`host.dfy`): the VS Code host. Every call with an effect
  outside the extension is appended to the `log` of one `Ui` object. This
  covers messages, commands, context keys, language changes, requests and
  notifications to the server, file writes and disposals. Status bar items
  and event subscriptions are classes with mutable fields.
- **`ServerTypes`** (`server_types.dfy`): the enumerations and payloads of
  `server-types.d.ts`.
- **`ApiSearch`** (`api_search.dfy`): the candidate filter and the
  sniffer, with these parts:
  - the sniffer reads a zero-filled 50-character window;
  - both regular expressions are written as scanners, with declarative
    match predicates and lemmas proving that the two agree;
  - the loops of `findApiFile` and `_findWebApiFile` are methods.
- **`StatusBars`** (`status_bar.dfy`): the `StatusBar` class. The update
  rules of the `MainFileStatusBar` and `FileFormatStatusBar` subclasses
  are two of its methods.
- **`Extension`** (`extension.dfy`): the free functions of `extension.ts`,
  plus a class for the module-level status bar that they update.
- **`Controller`** (`api_document_controller.dfy`): the
  `ApiDocumentController` class and the decisions it makes.
- **`Helpers`** (`helpers.dfy`): the Java version gate and the jar probe.
- **`RollupUtils`** (`rollup_utils.dfy`): `isFalsy`, `dedupedBabelPlugin`
  and `pluginWithOptions`.

What the host or the user answers is a parameter of the operation that
asks for it. This covers dialogs, quick picks, file contents, readiness of
the language client and the server's responses. An operation with effects
is a method; its `ensures` gives the new log as the old log plus the calls
computed by a function, and lemmas state the properties of that function.

## Model

| member | source | states |
|---|---|---|
| `ApiSearch.Window` | extension/src/features/api-search.ts:96-106 | the sniffer sees exactly 50 characters |
| `ApiSearch.WindowContents` | extension/src/features/api-search.ts:103-106 | the window is the file's first characters, then NUL padding up to 50 |
| `ApiSearch.ReadApiTypeOfTrimmed` | extension/src/features/api-search.ts:106 | only the trimmed window is classified: surrounding whitespace never changes the result |
| `ApiSearch.SearchSwaggerJsonIsMatch` | extension/src/features/api-search.ts:109 | the scanner yields exactly the capture of the leftmost match of `/"swagger"(?:\s*)?:(?:\s*)"(.*)"/im`, with a greedy capture up to the last quote on the line, and nothing when no position matches |
| `ApiSearch.SearchOasYamlIsMatch` | extension/src/features/api-search.ts:119 | the scanner yields exactly the version captured by the leftmost match of the case-insensitive `openapi`/`swagger` rule, and nothing when no position matches |
| `ApiSearch.SwaggerJsonAtMeans` | extension/src/features/api-search.ts:109 | at each start the JSON scanner answers exactly when the regular expression matches there |
| `ApiSearch.OasYamlAtMeans` | extension/src/features/api-search.ts:119 | at each start the YAML scanner answers exactly when the regular expression matches there, including the backtracking of `[^\s*]?` |
| `ApiSearch.ClassifyKinds` | extension/src/features/api-search.ts:107-143 | a result is JSON, YAML or RAML; it is JSON exactly for text starting with `{`; a RAML result is `RAML 0.8` or `RAML 1.0` and is a prefix of the header |
| `ApiSearch.ClassifyJson` | extension/src/features/api-search.ts:107-118 | text starting with `{` is unclassified exactly when the swagger rule matches nowhere; otherwise it is `OAS <trimmed capture>` with `application/json`; the other rules are not tried |
| `ApiSearch.ClassifyYaml` | extension/src/features/api-search.ts:119-126 | other text matched by the YAML rule is `OAS d.d` with `application/yaml`, as in `openapi: 3.0.1` giving `OAS 3.0` |
| `ApiSearch.YamlVersionShape` | extension/src/features/api-search.ts:119-121 | the YAML capture is always digit, dot, digit |
| `ApiSearch.ClassifyRaml` | extension/src/features/api-search.ts:127-143 | text matched by no OAS rule is `RAML 0.8` exactly when the header equals `RAML 0.8`, `RAML 1.0` when the header starts with `RAML 1.0`, and nothing otherwise |
| `ApiSearch.OtherFormatKinds` | extension/src/features/api-search.ts:119-143 | the non-JSON branch only yields YAML or RAML, and a RAML type is a prefix of its header |
| `ApiSearch.RamlRules` | extension/src/features/api-search.ts:127-143 | the three header cases of the RAML rule |
| `ApiSearch.CandidateByName` | extension/src/features/api-search.ts:42-54 | a file name is a candidate exactly when it is not ignored and its lower-cased name ends in `.raml`, `.yaml` or `.json` after at least one character; `.yml` is not among them |
| `ApiSearch.CollectCandidates` | extension/src/features/api-search.ts:44-55 | the loop keeps exactly the non-ignored entries with an API extension, in listing order and with their original case |
| `ApiSearch.CandidateMembership` | extension/src/features/api-search.ts:45-55 | an entry is a candidate exactly when it is listed and passes the name filter |
| `ApiSearch.FindWebApiFile` | extension/src/features/api-search.ts:82-91 | every file is sniffed in order; the result is the files whose content sniffs as API text, in order, unless a file cannot be read, in which case the first such file is reported |
| `ApiSearch.FirstUnreadable` | extension/src/features/api-search.ts:84-85 | the index of the first file that cannot be opened, with all earlier files readable |
| `ApiSearch.FirstUnreadableAt` | extension/src/features/api-search.ts:84-85 | any unreadable index preceded only by readable files is the one the search stops at |
| `ApiSearch.ApiCandidates` | extension/src/features/api-search.ts:56-91 | the reported files are a subsequence of the listing, made of exactly the candidates whose content sniffs as API text |
| `ApiSearch.CandidatesReadable` | extension/src/features/api-search.ts:84-85 | every entry of the candidate list is readable exactly when every candidate name is |
| `ApiSearch.FindApiFile` | extension/src/features/api-search.ts:40-78 | `undefined` exactly when no entry is a candidate; otherwise exactly `ApiFilesAmong` the filtered candidates, in order, or a read error naming the first unreadable candidate |
| `ApiSearch.FirstMatchNone` | extension/src/features/api-search.ts:109-110 | `match` yields nothing exactly when no start position matches |
| `ApiSearch.FirstMatchFound` | extension/src/features/api-search.ts:109-119 | what `match` yields is the capture at a start before which nothing matches |
| `ApiSearch.FirstMatchAt` | extension/src/features/api-search.ts:109-119 | the leftmost matching start decides what `match` yields |
| `ApiSearch.ClosingQuoteIs` | extension/src/features/api-search.ts:109 | the greedy `"(.*)"` closes at the last quote before the end of the line |
| `ApiSearch.SkipSpaces` | extension/src/features/api-search.ts:109-119 | `\s*` consumes the maximal run of whitespace |
| `StatusBars.MainFileText` | extension/src/features/status-bar.ts:32-34 | the label starts with `$(file-code) ` and continues with the name, or with `No root API file` when the name is undefined or empty |
| `StatusBars.MainFileTextInjective` | extension/src/features/status-bar.ts:32-34 | two non-empty names get the same label exactly when they are equal |
| `StatusBars.MainFileTextNoRoot` | extension/src/features/status-bar.ts:32-34 | a label reads "no root" exactly when the name is missing or empty, or is that text itself |
| `StatusBars.StatusBar.constructor` | extension/src/features/status-bar.ts:7-14 | the tooltip and command are exactly the given ones, the item is the only registered disposable, and the text and visibility are untouched |
| `StatusBars.StatusBar.Show` | extension/src/features/status-bar.ts:16-18 | the item becomes visible; text, tooltip and command are kept |
| `StatusBars.StatusBar.Hide` | extension/src/features/status-bar.ts:20-22 | the item becomes hidden; text, tooltip and command are kept |
| `StatusBars.StatusBar.UpdateMainFileText` | extension/src/features/status-bar.ts:32-34 | the text becomes the main-file label; visibility, tooltip and command are kept |
| `StatusBars.StatusBar.UpdateFormatText` | extension/src/features/status-bar.ts:38-40 | the text becomes the given text verbatim; visibility, tooltip and command are kept |
| `StatusBars.StatusBar.Dispose` | extension/src/features/status-bar.ts:24-28 | each registered disposable is disposed exactly once, in registration order |
| `Host.Disposals` | extension/src/features/status-bar.ts:24-28 | one disposal per item, in list order |
| `Extension.MainPathFor` | extension/src/extension.ts:48-56 | a non-absolute path is stored verbatim; only an absolute path can be refused |
| `Extension.MainPathOutside` | extension/src/extension.ts:50-55 | an absolute path without backslashes is refused exactly when it is neither inside the root nor the root's parent directory |
| `Extension.MainPathOfRootParent` | extension/src/extension.ts:51-52 | the root's parent directory passes the `../` test and is stored as `..` |
| `Extension.MainPathResolves` | extension/src/extension.ts:51-57 | an accepted relative path, joined to the root again, resolves to the chosen file |
| `Extension.WriteCalls` | extension/src/extension.ts:48-59 | a refused path shows the error and writes and restarts nothing; an accepted one writes `{main}` to `<root>/exchange.json`, then restarts the server |
| `Extension.Extension.WriteMainApiFile` | extension/src/extension.ts:48-61 | the host sees the calls of `WriteCalls`; the label becomes the main-file label of the stored path, or stays unchanged on refusal; visibility is kept |
| `Extension.AsWrittenLabelDoubled` | extension/src/extension.ts:123-125 | the label as written carries the icon twice and never equals the label of the name |
| `Extension.AutoDetectAsWritten` | extension/src/extension.ts:94-107 | as written: no candidates does nothing, several ask for a manual choice, one is selected, and an empty list reaches `candidates[0]` |
| `Extension.AutoDetect` | extension/src/extension.ts:94-107 | the intended policy: auto-selection exactly for a single candidate, manual selection exactly for several, and never a crash |
| `Extension.AutoDetectEmptyCandidates` | extension/src/extension.ts:96-107 | the two policies differ exactly on an empty candidate list |
| `Extension.CheckWithoutCandidates` | extension/src/extension.ts:94-98 | auto-detection without candidates asks nothing of the host and chooses nothing |
| `Extension.CheckNeverGuesses` | extension/src/extension.ts:99-105 | with several candidates only the prompt appears, and a file is written only when the user picks it |
| `Extension.CheckSingleCandidate` | extension/src/extension.ts:106-109 | one plain candidate is written as is, the server restarts and the choice is announced |
| `Extension.CheckOnlyPrompts` | extension/src/extension.ts:111-114 | without auto-detection the user is only asked |
| `Extension.Extension.CheckMainApiFile` | extension/src/extension.ts:92-115 | the host sees the calls of the check, and the label follows the file that was chosen, if any; it follows the corrected `AutoDetect` of Findings row 2, so an empty candidate list does nothing |
| `Extension.Extension.OpenMainApiSelection` | extension/src/extension.ts:32-46 | the dialog opens, and a picked file goes through `writeMainApiFile` |
| `Extension.Extension.PromptSelection` | extension/src/extension.ts:100-114 | the message offers "Select file", and the dialog opens only when the user accepts |
| `Extension.Extension.ReadMainApiFile` | extension/src/extension.ts:117-128 | without a root nothing happens; a readable `exchange.json` sets the label from `main`, with the icon once as corrected in Findings row 1; otherwise the label reads "no root" and the check follows |
| `Extension.Extension.SetMainApiFile` | extension/src/extension.ts:196-203 | without a workspace root an error is shown; otherwise the selection dialog runs |
| `Extension.TargetFormats` | extension/src/extension.ts:130-147 | conversion is refused exactly for RAML 0.8 |
| `Extension.TargetFormatsOffered` | extension/src/extension.ts:136-147 | OAS 2.0 then OAS 3.0 are always offered first, RAML 1.0 exactly when the source is not RAML 1.0, and nothing twice |
| `Extension.Extension.ShowTargetFormatPick` | extension/src/extension.ts:130-149 | for RAML 0.8 the error is shown and no pick is offered; otherwise the pick is made from the table's list |
| `Extension.TargetSyntaxes` | extension/src/extension.ts:151-163 | a RAML 1.0 target fixes `raml`, and every other target offers a subsequence of [json, yaml] |
| `Extension.TargetSyntaxesOffered` | extension/src/extension.ts:155-163 | JSON and YAML are offered except the source syntax when the format stays the same; the list is never empty |
| `Extension.ConversionChangesSomething` | extension/src/extension.ts:130-164 | whatever the user picks, the target differs from the source in format or in syntax |
| `Extension.ShowTargetSyntaxPick` | extension/src/extension.ts:151-165 | a RAML target returns `raml` without a pick; otherwise the result is the user's quick pick over `TargetSyntaxes`, so any pick is JSON or YAML and never the unchanged pair |
| `Extension.QuickPick` | extension/src/extension.ts:148-164 | what the quick pick returns is one of the offered items |
| `Extension.ChangeReplaces` | extension/src/extension.ts:74-84 | a resource operation contributes nothing; a text edit contributes one replace per edit, with its URI, range and new text, in order |
| `Extension.FlattenEditsIgnoresResources` | extension/src/extension.ts:75-77 | dropping the entries that carry `kind` leaves the workspace edit unchanged |
| `Extension.FlattenEditsSnoc` | extension/src/extension.ts:74-84 | the edit is built one document change at a time, in order |
| `Extension.BuildWorkspaceEdit` | extension/src/extension.ts:73-84 | the nested loop builds exactly the flattened replace list |
| `Extension.FirstWithoutChanges` | extension/src/extension.ts:69-72 | the index of the first renamed file whose answer has no `documentChanges` |
| `Extension.RenamesReached` | extension/src/extension.ts:64-72 | the loop reaches every file up to and including the first answer without changes, and all files exactly when no earlier answer lacks them |
| `Extension.Extension.RenameOne` | extension/src/extension.ts:65-88 | one iteration requests the rename, then applies the edit and saves, or stops when the answer has no changes |
| `Extension.Extension.AutoRenameRefs` | extension/src/extension.ts:63-90 | the host sees the requests, edits and saves of the files the loop reaches, in order |
| `Extension.RenameRequestsStopAtMissingChanges` | extension/src/extension.ts:64-72 | each reached file is requested once, in order, and no later file is requested |
| `Extension.RenameSavesAfterEachEdit` | extension/src/extension.ts:85-88 | every applied edit is immediately followed by a save |
| `Extension.RequestsUpTo` | extension/src/extension.ts:65-69 | the rename requests of the first n files, in order |
| `Extension.FirstUntracked` | extension/src/extension.ts:316-319 | the index of the first open document that is not a `file` document in raml, yaml or json |
| `Extension.FirstUnnotified` | extension/src/extension.ts:315-337 | the index where `revalidate` stops sending: the first untracked document, or an earlier tracked one whose `fs.readFile` rejects; every earlier document is readable |
| `Extension.Extension.Revalidate` | extension/src/extension.ts:315-337 | the documents before the first untracked or unreadable one are processed in order: diagnostics cleared when there are any, then one full-text change; an unreadable tracked document has its diagnostics cleared, then the handler rejects, and `rejected` says so |
| `Extension.RevalidationNotifies` | extension/src/extension.ts:315-337 | exactly the documents before the first untracked or unreadable one are notified, each once, in order, with its version and current contents |
| `Extension.NotificationsUpTo` | extension/src/extension.ts:324-335 | the change notifications for the first n documents, in order |
| `Extension.Extension.OnDidRenameFiles` | extension/src/extension.ts:286-297 | references are fixed unless the setting is `never`, and re-validation always follows; the handler rejects exactly when re-validation does |
| `Extension.Extension.ReactToDeletion` | extension/src/extension.ts:300-306 | a deleted `exchange.json` restarts the server and schedules a re-read; any other file does nothing |
| `Extension.Extension.ReactToDeletions` | extension/src/extension.ts:300-307 | the deleted files are handled in order |
| `Extension.DeletionsRestartPerConfig` | extension/src/extension.ts:300-307 | the server restarts once per deleted `exchange.json`, in any folder, and for no other file |
| `Extension.Extension.OnDidDeleteFiles` | extension/src/extension.ts:299-310 | the deletions are handled, then the documents are re-validated; the handler rejects exactly when re-validation does, as for a deleted file that is still open |
| `Extension.ServerPort` | extension/src/extension.ts:357-361 | there is no port exactly when the `!address` guard throws: no address, or an empty pipe name; a port address gives its port and a non-empty pipe name gives port 0 |
| `Extension.ServerSpawn` | extension/src/extension.ts:354-374 | the server is spawned exactly when the listener's address is truthy (not missing and not an empty pipe name) |
| `Extension.ServerSpawnOfPort` | extension/src/extension.ts:363-374 | the server runs as `java -jar <jar> --port <port>`, with the workspace root as its working directory; a non-empty pipe name spawns with port 0 and an empty one spawns nothing |
| `Extension.SpawnArgsPort` | extension/src/extension.ts:367-372 | the arguments are four, the jar is the second, and the fourth reads back as the port |
| `Controller.ApiFileFormat` | extension/src/features/api-document-controller.ts:111-116 | only documents with the `file` scheme are sniffed; any other scheme gives no format |
| `Controller.DocumentExtYaml` | extension/src/features/api-document-controller.ts:93-96 | `.yml` and `.yaml` both read as `.yaml`, `.yml` never survives, and every other extension is unchanged |
| `Controller.LanguageChangeRules` | extension/src/features/api-document-controller.ts:90-108 | a detected format retags exactly when its language differs, and always to that language; without one, a used JSON or YAML file becomes `json-api` or `yaml-api`; otherwise a retag happens exactly for an API mode and returns to the extension's language |
| `Controller.ReconcileIdempotent` | extension/src/features/api-document-controller.ts:90-108 | reconciling a reconciled document again changes nothing |
| `Controller.IsApiFileAfterReconcile` | extension/src/features/api-document-controller.ts:92-107 | the last `ac.isApiFile` value issued is true exactly when a format was detected or the document was left unchanged |
| `Controller.RetagCallsFollowDecision` | extension/src/features/api-document-controller.ts:90-108 | a language change is sent exactly when the decision retags, to that language; two calls are made, except one when a detected format needs no retag |
| `Controller.UsageUris` | extension/src/features/api-document-controller.ts:144 | the usage list holds the responses' URIs in order |
| `Controller.ConfigurationOnlyWhenReady` | extension/src/features/api-document-controller.ts:60-85 | an unready client gets no configuration call; a ready one ends with the new configuration: `mainPath` set to the file, or the folder with an empty `mainPath` |
| `Controller.ApiDocumentController.constructor` | extension/src/features/api-document-controller.ts:21-32 | both bars get their command and tooltip; the bars and both listeners are registered for disposal; no main file, watcher or usage yet |
| `Controller.ApiDocumentController.Init` | extension/src/features/api-document-controller.ts:34-40 | without an active document nothing happens; otherwise the document is handled |
| `Controller.ApiDocumentController.HandleApiDocument` | extension/src/features/api-document-controller.ts:42-47 | the host sees the language calls; the main bar is visible exactly when the reconciled language is in the filter; the format bar follows the format; the main label is kept |
| `Controller.ApiDocumentController.ChangeDocumentLanguage` | extension/src/features/api-document-controller.ts:90-109 | the host sees the context and language calls of the decision, and the returned document carries the reconciled language |
| `Controller.ApiDocumentController.ChangeUnformattedLanguage` | extension/src/features/api-document-controller.ts:93-108 | the no-format branch after `ac.isApiFile` false: the usage retag, the return to the extension's language, or `ac.isApiFile` true |
| `Controller.ApiDocumentController.ToggleMainFileStatusBar` | extension/src/features/api-document-controller.ts:118-124 | the main bar is visible exactly when some filter names the document's language |
| `Controller.ApiDocumentController.ChangeApiFormat` | extension/src/features/api-document-controller.ts:126-133 | with a format the bar shows its type and is visible; without one it is hidden and its text is kept |
| `Controller.ApiDocumentController.GetFileUsage` | extension/src/features/api-document-controller.ts:135-145 | an unready client sends nothing and yields []; a ready one sends one usage request and yields the response URIs in order |
| `Controller.ApiDocumentController.UpdateMainFile` | extension/src/features/api-document-controller.ts:49-88 | the old watcher is disposed, a named file is watched, configuration is sent only when ready, `mainFile` becomes the argument and the label follows it |
| `Controller.ApiDocumentController.OnMainFileDeleted` | extension/src/features/api-document-controller.ts:55-58 | deleting the watched file removes `<root>/exchange.json` |
| `Controller.ApiDocumentController.OnDidChangeActiveTextEditor` | extension/src/features/api-document-controller.ts:148-159 | the usage is refreshed for a document; a supported extension is handled; no editor or an unsupported file hides both bars |
| `Controller.ApiDocumentController.OnDidSaveTextDocument` | extension/src/features/api-document-controller.ts:160-165 | a save reconciles only when the saved file is the active one with a supported extension; otherwise nothing changes |
| `Controller.ApiDocumentController.Dispose` | extension/src/features/api-document-controller.ts:168-172 | the format bar, the main bar and the two listeners are disposed once each, in registration order |
| `Controller.DisposalsOfRegistrations` | extension/src/features/api-document-controller.ts:168-172 | the registrations dispose exactly these four ids, in that order |
| `Helpers.CollectStderr` | extension/src/helpers.ts:7-10 | the buffer is the chunks concatenated in arrival order |
| `Helpers.VersionToken` | extension/src/helpers.ts:14 | the token has no `"`; it is empty when Java is not mentioned; it is missing exactly when Java is mentioned and there are fewer than three words |
| `Helpers.CheckJava` | extension/src/helpers.ts:11-26 | "not detected" exactly for an empty token, unsettled exactly without a third word, "too old" exactly for major 1 and minor below 8, accepted otherwise |
| `Helpers.CheckJavaStream` | extension/src/helpers.ts:4-28 | the decision is taken once, on the whole stream |
| `Helpers.NoJavaMentioned` | extension/src/helpers.ts:14-23 | output that mentions neither `java version` nor `openjdk version` is "not detected" |
| `Helpers.ModernMajorAccepted` | extension/src/helpers.ts:16-25 | any detected version whose major part is not 1 is accepted |
| `Helpers.VersionTokenOfWords` | extension/src/helpers.ts:14 | the token is the third space-separated word with its quotes removed |
| `Helpers.PreJava8Of` | extension/src/helpers.ts:16-17 | a `<major>.<minor>.<more>` version is too old exactly when major is 1 and minor is below 8 |
| `Helpers.Java7Rejected` | extension/src/helpers.ts:17-19 | Java 1.7 is rejected |
| `Helpers.Java8Accepted` | extension/src/helpers.ts:17-25 | Java 1.8 is accepted |
| `Helpers.OpenJdk11Accepted` | extension/src/helpers.ts:17-25 | OpenJDK 11 is accepted |
| `Helpers.OpenJdk17Accepted` | extension/src/helpers.ts:16-25 | OpenJDK 17, whose version has no minor part, is accepted |
| `Helpers.CheckJarFile` | extension/src/helpers.ts:40-46 | success exactly when stderr begins with `java.net.ConnectException`; otherwise the error message carries the output |
| `Helpers.CheckJarStream` | extension/src/helpers.ts:30-48 | the jar decision is taken once, on the whole stream |
| `RollupUtils.IsFalsy` | api-console/rollup/utils.js:6 | despite its name, `isFalsy` holds exactly of the truthy values |
| `RollupUtils.FilterIsFalsy` | api-console/rollup/utils.js:6 | used as a filter it keeps exactly the truthy entries |
| `RollupUtils.MergeSource` | api-console/rollup/utils.js:13 | an object configuration is merged as is, any other as `{}` |
| `RollupUtils.PluginName` | api-console/rollup/utils.js:18 | the name is `plugin[0]` for an array entry and the entry itself otherwise |
| `RollupUtils.DedupPlugins` | api-console/rollup/utils.js:15-24 | the backward loop with its set and `unshift` yields the list that keeps each entry whose name no later entry shares |
| `RollupUtils.KeepLastDistinct` | api-console/rollup/utils.js:16-24 | no two kept entries resolve to the same name |
| `RollupUtils.KeepLastNames` | api-console/rollup/utils.js:17-22 | the set of resolved names is unchanged |
| `RollupUtils.KeepLastIsSubsequence` | api-console/rollup/utils.js:17-22 | the kept entries keep their relative input order |
| `RollupUtils.KeepLastKeepsLast` | api-console/rollup/utils.js:17-23 | the last entry with each name is kept |
| `RollupUtils.KeptIsLast` | api-console/rollup/utils.js:17-23 | every kept entry is the last one with its name |
| `RollupUtils.DedupedConfig` | api-console/rollup/utils.js:26 | the configuration's options are kept, and its plugins are de-duplicated with names and order preserved |
| `RollupUtils.DedupedBabelPlugin` | api-console/rollup/utils.js:8-28 | a falsy configuration yields `undefined` without calling `babel`; otherwise `babel` gets the merged, de-duplicated configuration |
| `RollupUtils.PluginWithOptions` | api-console/rollup/utils.js:30-37 | a falsy configuration yields `undefined` without calling the plugin; otherwise the plugin gets the merged configuration and the other arguments |
| `RollupUtils.NonObjectConfigIsEmpty` | api-console/rollup/utils.js:35 | a truthy configuration that is not an object is merged as `{}` |
| `ServerTypes.FormatNamedName` | extension/src/server-types.d.ts:26-33 | each conversion format is found again from its string value, so no two share one |
| `ServerTypes.SyntaxNamedName` | extension/src/server-types.d.ts:35-39 | each conversion syntax is found again from its string value |
| `Js.Trim` | extension/src/features/api-search.ts:106 | `trim` leaves no whitespace at either end |
| `Js.TrimIsInfix` | extension/src/features/api-search.ts:106 | what `trim` leaves is a contiguous part of the text, with only whitespace around it |
| `Js.TrimIdempotent` | extension/src/features/api-search.ts:106 | trimming twice is trimming once |
| `Js.JoinSplit` | extension/src/helpers.ts:14 | joining the parts of a `split` gives the text back |
| `Js.SplitJoin` | extension/src/helpers.ts:14 | `split` undoes a join of separator-free parts |
| `Js.ToLower` | extension/src/features/api-search.ts:47 | lower-casing keeps the length and maps each ASCII letter to its lower case |
| `Js.ParseIntOfNatToString` | extension/src/extension.ts:371 | `parseInt` reads back what `toString` wrote for a port |
| `Js.RemoveAllAppend` | extension/src/helpers.ts:14 | removing the quotes distributes over concatenation |
| `PosixPath.RelativeResolvesBack` | extension/src/extension.ts:51 | resolving `root/relative(root, p)` names the same path as `p` |
| `PosixPath.RelativeClimbsOut` | extension/src/extension.ts:51-52 | the relative path climbs out and then names something exactly when the target is neither within the root nor its parent |
| `PosixPath.ExtNameOfName` | extension/src/features/api-search.ts:51-53 | a file name has a dotted extension exactly when it ends in it after at least one character |

## Left out

- Host I/O is supplied as parameters. `readdir` and file contents are the
  `items` list and the `disk` map. Dialog and quick-pick answers are
  `picked`, `selection` and `choice`. Server answers are the `respond`
  function and the usage `responses`; a request never fails, and the
  member lines below say what that leaves out. Client readiness is `ready`, and
  `client.diagnostics` is `hasDiagnostics`. The id of a new file watcher
  is `watcherId`, and the configuration the server reports for the root
  file is `serverFolder`.
- Format detection for the controller is the parameter `detect`. The
  controller calls `readApiType` and reads a `languageId`, but `ApiFormat`
  (api-search.ts:9-12) has no `languageId` field. `DetectedFormat` stands
  for that drifted record, and detection is not linked to `ApiSearch`.
- `extension.ts` imports `findApiFiles` from `api-search.ts` and
  `readApiFileFormat` from `helpers.ts` (extension.ts:11,15), but
  `api-search.ts` defines no `findApiFiles` and `helpers.ts` exports no
  `readApiFileFormat`. Candidates and the detected format enter
  `Extension` as parameters.
- The controller imports `SUPPORTED_EXTENSIONS` from `extension.ts`
  (api-document-controller.ts:6), which does not define or export it. It
  is the constructor parameter `supportedExtensions`.
- `path.join` is modelled as `root + "/" + name`, without normalisation.
  `_decideMainFile` looks files up by their entry name in `disk`.
- Asynchrony is not modelled. Calls that are not awaited (`executeCommand`,
  `applyEdit`, the promises of `handleApiDocument`) are recorded in
  program order. Interleavings of the event handlers are not modelled.
- `setTimeout` delays are not modelled (extension.ts:258,305). The
  debounced re-read after a deleted `exchange.json` is one logged call.
- `init` runs through the constructor in the source. In the model it is
  the separate method `Init`, because a constructor cannot call methods
  of the object it is building.
- Controller.ConfigurationOnlyWhenReady: only the `folder` and
  `mainPath` parts of the configuration sent to the server are modelled.
  The rest of `d.configuration` spread into the payload is not.
- Controller.ApiDocumentController.GetFileUsage: the `withProgress`
  notification around the request is not modelled.
- `activate` is only modelled in part. The Java check gating start-up,
  the `ac.documentSelector` context key, the language client options and
  the `RestartLanguageServer` handler are not modelled. The Convert
  command, which writes the server's output next to the document, and
  the Preview webview are not modelled either.
- `api-console-proxy.ts`, the API console UI files and the build
  configuration are outside the core.
- Helpers.CheckJava: a `minor` that is missing parses to `NaN`, which is
  modelled as `None`. Byte decoding of stderr chunks is not modelled.
- RollupUtils.DedupedBabelPlugin: `deepmerge`, `require.resolve` and the plugin factories
  are uninterpreted function parameters, and `NaN` is not a modelled
  value.
- Js.ToLower: folds only the ASCII letters, which is all the ignore list
  and the extension list need.
- ApiSearch.Window: decodes one character per byte. UTF-8 decoding of a
  multi-byte sequence is not modelled.
- Controller.FileUri: the URI sent with the configuration is
  `file://` followed by the path. `code2ProtocolConverter.asUri`
  (extension.ts:189-191) goes through `url.URL`, which percent-encodes
  spaces and non-ASCII characters; that encoding is not modelled, so
  `UpdateMainFile` sends the unencoded path.
- Extension.Extension.WriteMainApiFile: `fs.writeJSON` always succeeds in
  the model. In the source a rejected write (extension.ts:58) ends the
  function before the restart and the label update.
- Controller.ApiDocumentController.HandleApiDocument: the format reader
  `detect` cannot fail. In the source a `readApiType` that cannot open
  the file rejects `handleApiDocument` before the bars are updated.
- Extension.Extension.RenameOne: the server always answers the rename
  request; `respond` is total. In the source an awaited
  `client.sendRequest` that rejects (extension.ts:69) ends
  `autoRenameRefs` with that rejection.
- Extension.Extension.AutoRenameRefs: for the same reason the loop never
  ends on a rejected request; only an answer without `documentChanges`
  stops it early.
- Extension.Extension.OnDidRenameFiles: a rejected rename request is not
  modelled, so re-validation always follows. In the source the rejection
  ends the handler at extension.ts:293, and `revalidate` is skipped.
- Controller.ApiDocumentController.GetFileUsage: the usage request always
  answers; `responses` is given. In the source a rejected request
  (api-document-controller.ts:141-143) rejects `getFileUsage`.
- Controller.ApiDocumentController.OnDidChangeActiveTextEditor: a
  rejected usage request is not modelled. In the source it ends the
  handler at api-document-controller.ts:151, before the document is
  handled and before the bars are hidden.
- Controller.ApiDocumentController.UpdateMainFile: the configuration
  requests always succeed. In the source a rejected
  `getWorkspaceConfiguration` or `didChangeConfiguration` request
  (api-document-controller.ts:63-83) ends the method after the watcher
  is replaced, so `mainFile` and the label keep their old values.
- RollupUtils.DedupedConfig: the merged configuration always has a
  plugin list. In the source `[...config.plugins]` throws when it has
  none; the default configuration of the build always supplies one.

### Behaviour of the code worth noting

- `readMainApiFile` sets the label from any readable `exchange.json`. It
  does not check that the file named by `main` exists, and it never
  removes a stale `exchange.json` (extension.ts:117-128).
- The outside-workspace test is `startsWith('../')`. The root's parent
  directory becomes `..` and is accepted (`Extension.MainPathOfRootParent`).
- `autoRenameRefs` does not await `applyEdit`. Its promise is always
  truthy, so `saveAll` always follows an edit (extension.ts:85-88).
- `checkJava` first tests stderr for `java version` or `openjdk version`.
  When it matches but stderr has fewer than three space-separated words,
  `split(' ')[2]` is `undefined`, the end handler throws, and the promise
  never settles (helpers.ts:14). The model states this as `JavaUnsettled`.
- `updateMainFile` disposes the old watcher but keeps it in
  `mainFileWatcher` when no new file is given (api-document-controller.ts:50-59).
- A document with no format and no retag gets `ac.isApiFile` false, then
  true (api-document-controller.ts:92,107). `Controller.IsApiFileAfterReconcile`
  states the final value.

## Findings

| source | as written | input that shows it | evidently intended | confidence | as-written member | corrected member |
|---|---|---|---|---|---|---|
| extension/src/extension.ts:60,123,125 | `updateText` is passed text that already starts with `$(file-code) `, but `MainFileStatusBar.updateText` (status-bars/main-file.ts:16-18) adds the icon again | `writeMainApiFile(root, "api.raml")` labels the bar `$(file-code) $(file-code) api.raml` | the bar shows `$(file-code) api.raml`, so `updateText` gets the bare name, as `updateMainFile` does (api-document-controller.ts:87); `ReadMainApiFile` labels the bar the same corrected way | medium (extension.ts:275 passes three arguments, the constructor at status-bars/main-file.ts:7 takes two), not executed | `Extension.AsWrittenLabelDoubled` | `Extension.Extension.WriteMainApiFile` |
| extension/src/extension.ts:96-107 | an empty array passes `!candidates`, so `candidates[0]` is `undefined` and `writeMainApiFile` throws in `path.isAbsolute` | a workspace whose only `.raml`/`.yaml`/`.json` file has no API header: `findApiFile` returns `[]` (api-search.ts:56-59,82-91) | zero candidates are treated like none: nothing is written and nothing throws; `CheckMainApiFile` follows this corrected policy | medium (api-search.ts defines no `findApiFiles`, which extension.ts:95 calls), not executed | `Extension.AutoDetectAsWritten` | `Extension.AutoDetect` |
