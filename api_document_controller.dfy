/**
 * The per-document controller of `extension/src/features/api-document-controller.ts`.
 * When a document becomes active or is saved it detects the document's API
 * format, retags the document's language mode from that format (or, without
 * one, from the server's usage information), keeps the `ac.isApiFile`
 * context key, and shows or hides the format and main-file status bars. It
 * also forwards the root-file setting to the language server.
 */
module Controller {
  import opened Js
  import opened PosixPath
  import opened ServerTypes
  import opened Host
  import opened StatusBars
  import Extension

  const IsApiFileKey := "ac.isApiFile"
  const ConvertCommand := "ac.convert"
  const SetMainApiFileCommand := "ac.set.mainFile"
  const FormatTooltip := "API format of the current file. Click to convert to different format."
  const MainFileTooltip := "Current root API file. Click to select root API file."
  const FileScheme := "file"

  /** The language modes a document without a detected format is taken back from. */
  const ApiLanguages: seq<string> := ["json-api", "yaml-api", "raml"]

  /**
   * What format detection reports to the controller: the display `type` of
   * the format and the language mode documents of that format get.
   */
  datatype DetectedFormat = DetectedFormat(typeName: string, languageId: string)

  /** One entry of the client's document selector; only `language` is read. */
  datatype DocumentFilter = DocumentFilter(language: Option<string>)

  /** `documentFilter.some(filter => filter.language === languageId)` */
  predicate Selects(filters: seq<DocumentFilter>, languageId: string)
  {
    exists i :: 0 <= i < |filters| && filters[i].language == Some(languageId)
  }

  /** `readApiFileFormat`: only documents on disk are sniffed. */
  function ApiFileFormat(document: TextDocument, detect: string -> Option<DetectedFormat>): (r: Option<DetectedFormat>)
    ensures document.uri.scheme != FileScheme ==> r.None?
    ensures document.uri.scheme == FileScheme ==> r == detect(document.fileName)
  {
    if document.uri.scheme == FileScheme then detect(document.fileName) else None
  }

  // ---------------------------------------------------------------------------
  // The language decision of `changeDocumentLanguage`

  /** The extension the decision reads: `path.extname`, with `.yml` read as `.yaml`. */
  function DocumentExt(fileName: string): string
  {
    var ext := ExtName(fileName);
    if ext == ".yml" then ".yaml" else ext
  }

  datatype Retag = Unchanged | RetagTo(languageId: string)

  /**
   * Whether and to what a document tagged `languageId` whose extension
   * (`.yml` read as `.yaml`) is `ext` is retagged. A detected format decides
   * alone; without one, a JSON or YAML document the server reports as used
   * goes to the API mode, and otherwise an API-tagged document goes back to
   * the mode its extension names. `usageKnown` is `fileUsage.length > 0`.
   */
  function LanguageChangeAt(format: Option<DetectedFormat>, languageId: string, ext: string, usageKnown: bool): Retag
  {
    match format
    case Some(f) =>
      if f.languageId != languageId then RetagTo(f.languageId) else Unchanged
    case None =>
      if usageKnown && ext in [".json", ".yaml"] then RetagTo(Drop(ext, 1) + "-api")
      else if languageId in ApiLanguages then RetagTo(Drop(ext, 1))
      else Unchanged
  }

  /** The decision for a document. */
  function LanguageChange(format: Option<DetectedFormat>, document: TextDocument, usageKnown: bool): Retag
  {
    LanguageChangeAt(format, document.languageId, DocumentExt(document.fileName), usageKnown)
  }

  /** `.yml` and `.yaml` documents are both YAML documents; other extensions are read as they are. */
  lemma DocumentExtYaml(fileName: string)
    ensures DocumentExt(fileName) == ".yaml" <==> ExtName(fileName) in [".yml", ".yaml"]
    ensures DocumentExt(fileName) != ".yml"
    ensures ExtName(fileName) != ".yml" ==> DocumentExt(fileName) == ExtName(fileName)
  {
  }

  /**
   * The decision case by case: a detected format wins and retags exactly when
   * its mode differs; without one, a used JSON document becomes `json-api`, a
   * used YAML document `yaml-api`, and otherwise exactly the API-tagged
   * documents are retagged, to the mode their extension names. It spells out
   * `LanguageChangeAt` as a table, one row per branch of the source.
   */
  lemma LanguageChangeRules(format: Option<DetectedFormat>, languageId: string, ext: string, usageKnown: bool)
    ensures var r := LanguageChangeAt(format, languageId, ext, usageKnown);
      && (format.Some? ==> (r == Unchanged <==> format.value.languageId == languageId))
      && (format.Some? && r.RetagTo? ==> r.languageId == format.value.languageId)
      && (format.None? && usageKnown && ext == ".json" ==> r == RetagTo("json-api"))
      && (format.None? && usageKnown && ext == ".yaml" ==> r == RetagTo("yaml-api"))
      && (format.None? && !(usageKnown && ext in [".json", ".yaml"]) ==> (r.RetagTo? <==> languageId in ApiLanguages))
      && (format.None? && !(usageKnown && ext in [".json", ".yaml"]) && r.RetagTo? && ext != [] && ext[0] == '.' ==>
            "." + r.languageId == ext)
  {
    assert Drop(".json", 1) + "-api" == "json-api";
    assert Drop(".yaml", 1) + "-api" == "yaml-api";
    if ext != [] && ext[0] == '.' {
      assert "." + Drop(ext, 1) == ext;
    }
  }

  /** The language mode a document tagged `languageId` has once `change` is applied. */
  function Applied(change: Retag, languageId: string): string
  {
    match change
    case Unchanged => languageId
    case RetagTo(l) => l
  }

  /** The language mode the decision leaves a document tagged `languageId` with extension `ext` in. */
  function ReconciledAt(format: Option<DetectedFormat>, languageId: string, ext: string, usageKnown: bool): string
  {
    Applied(LanguageChangeAt(format, languageId, ext, usageKnown), languageId)
  }

  /** The language mode the document has once the decision is applied. */
  function Reconciled(format: Option<DetectedFormat>, document: TextDocument, usageKnown: bool): string
  {
    ReconciledAt(format, document.languageId, DocumentExt(document.fileName), usageKnown)
  }

  /**
   * Reconciling is idempotent: a document already reconciled against a format
   * and a usage answer keeps its language mode when reconciled again.
   */
  lemma ReconcileIdempotent(format: Option<DetectedFormat>, languageId: string, ext: string, usageKnown: bool)
    ensures ReconciledAt(format, ReconciledAt(format, languageId, ext, usageKnown), ext, usageKnown)
         == ReconciledAt(format, languageId, ext, usageKnown)
  {
    if format.None? && !(usageKnown && ext in [".json", ".yaml"]) && languageId in ApiLanguages {
      assert ReconciledAt(format, languageId, ext, usageKnown) == Drop(ext, 1);
    }
  }

  /** The host calls `changeDocumentLanguage` makes, in order, for a document whose extension is `ext`. */
  function LanguageCallsAt(format: Option<DetectedFormat>, document: TextDocument, ext: string, usageKnown: bool): seq<HostCall>
  {
    match format
    case None => [SetContext(IsApiFileKey, false)] + UnformattedCalls(document, ext, usageKnown)
    case Some(f) =>
      [SetContext(IsApiFileKey, true)]
      + (if f.languageId != document.languageId then [SetLanguage(document.fileName, f.languageId)] else [])
  }

  /** The calls after `ac.isApiFile` is cleared, for a document without a format whose extension is `ext`. */
  function UnformattedCalls(document: TextDocument, ext: string, usageKnown: bool): seq<HostCall>
  {
    match LanguageChangeAt(None, document.languageId, ext, usageKnown)
    case Unchanged => [SetContext(IsApiFileKey, true)]
    case RetagTo(l) => [SetLanguage(document.fileName, l)]
  }

  /** The host calls `changeDocumentLanguage` makes, in order. */
  function LanguageCalls(format: Option<DetectedFormat>, document: TextDocument, usageKnown: bool): seq<HostCall>
  {
    LanguageCallsAt(format, document, DocumentExt(document.fileName), usageKnown)
  }

  /** The last value a list of calls gives `ac.isApiFile`, if any. */
  function LastIsApiFile(calls: seq<HostCall>): Option<bool>
  {
    if calls == [] then None
    else
      var c := calls[|calls| - 1];
      if c.SetContext? && c.key == IsApiFileKey then Some(c.value)
      else LastIsApiFile(calls[..|calls| - 1])
  }

  /**
   * `ac.isApiFile` ends up true when a format was detected, and also when
   * none was but the document keeps its mode; it ends up false only for a
   * document without a format that is retagged.
   */
  lemma IsApiFileAfterReconcile(format: Option<DetectedFormat>, document: TextDocument, ext: string, usageKnown: bool)
    ensures LastIsApiFile(LanguageCallsAt(format, document, ext, usageKnown))
         == Some(format.Some? || LanguageChangeAt(format, document.languageId, ext, usageKnown) == Unchanged)
  {
    var calls := LanguageCallsAt(format, document, ext, usageKnown);
    if LanguageChangeAt(format, document.languageId, ext, usageKnown).RetagTo? {
      assert calls[..|calls| - 1] == calls[..1];
      assert calls[..1][..0] == [];
    }
  }

  /** The document is retagged to `l` exactly when the decision says so, and at most once. */
  lemma RetagCallsFollowDecision(format: Option<DetectedFormat>, document: TextDocument, ext: string, usageKnown: bool, l: string)
    ensures SetLanguage(document.fileName, l) in LanguageCallsAt(format, document, ext, usageKnown)
        <==> LanguageChangeAt(format, document.languageId, ext, usageKnown) == RetagTo(l)
    ensures |LanguageCallsAt(format, document, ext, usageKnown)|
         == if format.Some? && LanguageChangeAt(format, document.languageId, ext, usageKnown) == Unchanged then 1 else 2
  {
  }

  /** What the format bar looks like after `changeApiFormat`. */
  predicate FormatBarAfter(format: Option<DetectedFormat>, textBefore: string, text: string, visible: bool)
  {
    match format
    case Some(f) => visible && text == f.typeName
    case None => !visible && text == textBefore
  }

  // ---------------------------------------------------------------------------
  // File usage and the root-file setting

  /** `data.map(location => location.uri)` */
  function UsageUris(responses: seq<FileUsageResponse>): (r: seq<string>)
    ensures |r| == |responses|
    ensures forall i :: 0 <= i < |responses| ==> r[i] == responses[i].uri
  {
    seq(|responses|, i requires 0 <= i < |responses| => responses[i].uri)
  }

  /** The request `getFileUsage` sends: one when the client is ready, none otherwise. */
  function UsageCalls(document: TextDocument, ready: bool): seq<HostCall>
  {
    if ready then [FileUsageRequest(document.uri)] else []
  }

  /** What `getFileUsage` resolves to. */
  function FileUsage(ready: bool, responses: seq<FileUsageResponse>): seq<string>
  {
    if ready then UsageUris(responses) else []
  }

  /** `code2ProtocolConverter.asUri(Uri.file(path))` */
  function FileUri(path: string): string
  {
    UriText(Uri(FileScheme, path))
  }

  /**
   * The host calls of `updateMainFile`: the old watcher is disposed, a named
   * file is watched, and a ready client is told the new root (with the rest
   * of its configuration, whose folder is `serverFolder`) or told to forget it.
   */
  function MainFileCalls(watcher: Option<nat>, filePath: Option<string>, ready: bool, root: string, serverFolder: Option<string>): seq<HostCall>
  {
    (if watcher.Some? then [Disposed(watcher.value)] else [])
    + (if IsTruthyName(filePath) then [WatchMainFile(root, filePath.value)] else [])
    + (if !ready then []
       else if IsTruthyName(filePath) then
         [WorkspaceConfigurationRequest(FileUri(root + "/" + filePath.value)), ChangeConfiguration(serverFolder, filePath.value)]
       else [ChangeConfiguration(Some(FileUri(root)), "")])
  }

  /**
   * The server hears of the root file only when the client is ready, and
   * then last: `mainPath` is the file, or `''` together with the workspace
   * folder when there is none.
   */
  lemma ConfigurationOnlyWhenReady(watcher: Option<nat>, filePath: Option<string>, ready: bool, root: string, serverFolder: Option<string>)
    ensures var calls := MainFileCalls(watcher, filePath, ready, root, serverFolder);
      && (!ready ==> forall c :: c in calls ==> !c.ChangeConfiguration? && !c.WorkspaceConfigurationRequest?)
      && (ready ==> (calls != [] && calls[|calls| - 1]
            == (if IsTruthyName(filePath) then ChangeConfiguration(serverFolder, filePath.value)
                else ChangeConfiguration(Some(FileUri(root)), ""))))
  {
  }

  // ---------------------------------------------------------------------------
  // The controller

  /** A `save` trigger: the saved file is the active one and has a supported extension. */
  predicate SaveTriggers(active: Option<TextDocument>, saved: TextDocument, supportedExtensions: seq<string>)
  {
    active.Some? && ExtName(active.value.fileName) in supportedExtensions && active.value.fileName == saved.fileName
  }

  /** What the controller registered for disposal. */
  datatype Registration = BarRegistration(bar: StatusBar) | ListenerRegistration(listener: Subscription)

  /** The disposal record of a list of registrations, in list order. */
  function RegistrationDisposals(rs: seq<Registration>): seq<HostCall>
  {
    if rs == [] then []
    else
      RegistrationDisposals(rs[..|rs| - 1])
      + match rs[|rs| - 1]
        case BarRegistration(b) => Disposals(b.disposables)
        case ListenerRegistration(s) => [Disposed(s.id)]
  }

  class ApiDocumentController {
    const ui: Ui
    const documentFilter: seq<DocumentFilter>
    /** `SUPPORTED_EXTENSIONS` of the extension module. */
    const supportedExtensions: seq<string>
    const fileFormatStatusBar: StatusBar
    const mainFileStatusBar: StatusBar
    const editorListener: Subscription
    const saveListener: Subscription
    /** Filled once, by the constructor and `registerEvents`. */
    const disposables: seq<Registration>
    /** The id of the last watcher created for the root file. */
    var mainFileWatcher: Option<nat>
    var mainFile: Option<string>
    var fileUsage: seq<string>

    /** Two distinct bars and two listeners, all reporting to this host. */
    predicate Valid()
    {
      && fileFormatStatusBar.item != mainFileStatusBar.item
      && fileFormatStatusBar.item.ui == ui && mainFileStatusBar.item.ui == ui
      && fileFormatStatusBar.disposables == [fileFormatStatusBar.item]
      && mainFileStatusBar.disposables == [mainFileStatusBar.item]
      && editorListener.ui == ui && saveListener.ui == ui
      && disposables == [BarRegistration(fileFormatStatusBar), BarRegistration(mainFileStatusBar),
                         ListenerRegistration(editorListener), ListenerRegistration(saveListener)]
    }

    /**
     * The constructor up to `registerEvents`; its unawaited call to `init` is
     * the separate method `Init`.
     */
    constructor(ui: Ui, documentFilter: seq<DocumentFilter>, supportedExtensions: seq<string>,
                formatItem: StatusBarItem, mainItem: StatusBarItem, editorListenerId: nat, saveListenerId: nat)
      requires formatItem != mainItem && formatItem.ui == ui && mainItem.ui == ui
      modifies formatItem, mainItem
      ensures Valid()
      ensures this.ui == ui && this.documentFilter == documentFilter && this.supportedExtensions == supportedExtensions
      ensures fileFormatStatusBar.item == formatItem && mainFileStatusBar.item == mainItem
      ensures formatItem.command == ConvertCommand && formatItem.tooltip == FormatTooltip
      ensures mainItem.command == SetMainApiFileCommand && mainItem.tooltip == MainFileTooltip
      ensures formatItem.visible == old(formatItem.visible) && mainItem.visible == old(mainItem.visible)
      ensures editorListener.id == editorListenerId && saveListener.id == saveListenerId
      ensures mainFileWatcher == None && mainFile == None && fileUsage == []
    {
      var formatBar := new StatusBar(formatItem, ConvertCommand, FormatTooltip);
      var mainBar := new StatusBar(mainItem, SetMainApiFileCommand, MainFileTooltip);
      var onEditor := new Subscription(editorListenerId, ui);
      var onSave := new Subscription(saveListenerId, ui);
      this.ui := ui;
      this.documentFilter := documentFilter;
      this.supportedExtensions := supportedExtensions;
      fileFormatStatusBar := formatBar;
      mainFileStatusBar := mainBar;
      editorListener := onEditor;
      saveListener := onSave;
      disposables := [BarRegistration(formatBar), BarRegistration(mainBar),
                      ListenerRegistration(onEditor), ListenerRegistration(onSave)];
      mainFileWatcher, mainFile, fileUsage := None, None, [];
    }

    /** `init`: the document active at start-up, if any, is handled. */
    method Init(active: Option<TextDocument>, detect: string -> Option<DetectedFormat>)
      requires Valid()
      modifies ui, fileFormatStatusBar.item, mainFileStatusBar.item
      ensures active.None? ==> ui.log == old(ui.log)
      ensures active.None? ==>
        fileFormatStatusBar.item.visible == old(fileFormatStatusBar.item.visible)
        && mainFileStatusBar.item.visible == old(mainFileStatusBar.item.visible)
      ensures active.Some? ==> Handled(active.value, detect, old(ui.log), old(fileFormatStatusBar.item.text))
    {
      if active.Some? {
        HandleApiDocument(active.value, detect);
      }
    }

    /** The state `handleApiDocument` leaves, given the log and format text before it. */
    ghost predicate Handled(document: TextDocument, detect: string -> Option<DetectedFormat>, logBefore: seq<HostCall>, formatTextBefore: string)
      reads this, ui, fileFormatStatusBar.item, mainFileStatusBar.item
    {
      var format := ApiFileFormat(document, detect);
      && ui.log == logBefore + LanguageCalls(format, document, |fileUsage| > 0)
      && (mainFileStatusBar.item.visible <==> Selects(documentFilter, Reconciled(format, document, |fileUsage| > 0)))
      && FormatBarAfter(format, formatTextBefore, fileFormatStatusBar.item.text, fileFormatStatusBar.item.visible)
    }

    /** `handleApiDocument`: detect, retag, then set both bars. */
    method HandleApiDocument(document: TextDocument, detect: string -> Option<DetectedFormat>)
      requires Valid()
      modifies ui, fileFormatStatusBar.item, mainFileStatusBar.item
      ensures Handled(document, detect, old(ui.log), old(fileFormatStatusBar.item.text))
      ensures mainFileStatusBar.item.text == old(mainFileStatusBar.item.text)
    {
      var format := ApiFileFormat(document, detect);
      var retagged := ChangeDocumentLanguage(document, format);
      ToggleMainFileStatusBar(retagged);
      ChangeApiFormat(format);
    }

    /** `changeDocumentLanguage`: the document as the host returns it, possibly retagged. */
    method ChangeDocumentLanguage(document: TextDocument, format: Option<DetectedFormat>) returns (result: TextDocument)
      modifies ui
      ensures ui.log == old(ui.log) + LanguageCalls(format, document, |fileUsage| > 0)
      ensures result == document.(languageId := Reconciled(format, document, |fileUsage| > 0))
    {
      if format.None? {
        ui.Call(SetContext(IsApiFileKey, false));
        result := ChangeUnformattedLanguage(document, DocumentExt(document.fileName));
      } else if format.value.languageId != document.languageId {
        ui.Call(SetContext(IsApiFileKey, true));
        ui.Call(SetLanguage(document.fileName, format.value.languageId));
        return document.(languageId := format.value.languageId);
      } else {
        ui.Call(SetContext(IsApiFileKey, true));
        result := document;
      }
    }

    /** The part of `changeDocumentLanguage` after `ac.isApiFile` is cleared; `ext` is the extension it reads. */
    method ChangeUnformattedLanguage(document: TextDocument, ext: string) returns (result: TextDocument)
      modifies ui
      ensures ui.log == old(ui.log) + UnformattedCalls(document, ext, |fileUsage| > 0)
      ensures result == document.(languageId := Applied(LanguageChangeAt(None, document.languageId, ext, |fileUsage| > 0), document.languageId))
    {
      if |fileUsage| > 0 && ext in [".json", ".yaml"] {
        ui.Call(SetLanguage(document.fileName, Drop(ext, 1) + "-api"));
        return document.(languageId := Drop(ext, 1) + "-api");
      }
      if document.languageId in ApiLanguages {
        ui.Call(SetLanguage(document.fileName, Drop(ext, 1)));
        return document.(languageId := Drop(ext, 1));
      }
      ui.Call(SetContext(IsApiFileKey, true));
      result := document;
    }

    /** `toggleMainFileStatusBar`: shown exactly for the selector's languages. */
    method ToggleMainFileStatusBar(document: TextDocument)
      requires Valid()
      modifies mainFileStatusBar.item
      ensures mainFileStatusBar.item.visible <==> Selects(documentFilter, document.languageId)
      ensures mainFileStatusBar.item.text == old(mainFileStatusBar.item.text)
    {
      var i := 0;
      while i < |documentFilter|
        invariant 0 <= i <= |documentFilter|
        invariant forall j :: 0 <= j < i ==> documentFilter[j].language != Some(document.languageId)
      {
        if documentFilter[i].language == Some(document.languageId) {
          mainFileStatusBar.Show();
          return;
        }
        i := i + 1;
      }
      mainFileStatusBar.Hide();
    }

    /** `changeApiFormat`: the format bar names the detected format, or hides. */
    method ChangeApiFormat(format: Option<DetectedFormat>)
      requires Valid()
      modifies fileFormatStatusBar.item
      ensures FormatBarAfter(format, old(fileFormatStatusBar.item.text), fileFormatStatusBar.item.text, fileFormatStatusBar.item.visible)
    {
      if format.Some? {
        fileFormatStatusBar.UpdateFormatText(format.value.typeName);
        fileFormatStatusBar.Show();
        return;
      }
      fileFormatStatusBar.Hide();
    }

    /** `getFileUsage`: the URIs the server reports, in order; nothing is asked of a client that is not ready. */
    method GetFileUsage(document: TextDocument, ready: bool, responses: seq<FileUsageResponse>) returns (uris: seq<string>)
      modifies ui
      ensures ui.log == old(ui.log) + UsageCalls(document, ready)
      ensures uris == FileUsage(ready, responses)
    {
      if !ready {
        return [];
      }
      ui.Call(FileUsageRequest(document.uri));
      uris := UsageUris(responses);
    }

    /**
     * `updateMainFile`: `ready` is `client.isReady`, `watcherId` the watcher
     * the host creates and `serverFolder` the folder of the configuration the
     * server answers with.
     */
    method UpdateMainFile(filePath: Option<string>, ready: bool, root: string, watcherId: nat, serverFolder: Option<string>)
      requires Valid()
      modifies this, ui, mainFileStatusBar.item
      ensures mainFile == filePath
      ensures mainFileStatusBar.item.text == MainFileText(filePath)
      ensures mainFileStatusBar.item.visible == old(mainFileStatusBar.item.visible)
      ensures ui.log == old(ui.log) + MainFileCalls(old(mainFileWatcher), filePath, ready, root, serverFolder)
      ensures mainFileWatcher == if IsTruthyName(filePath) then Some(watcherId) else old(mainFileWatcher)
      ensures fileUsage == old(fileUsage)
    {
      if mainFileWatcher.Some? {
        ui.Call(Disposed(mainFileWatcher.value));
      }
      if IsTruthyName(filePath) {
        mainFileWatcher := Some(watcherId);
        ui.Call(WatchMainFile(root, filePath.value));
      }
      if ready {
        if IsTruthyName(filePath) {
          ui.Call(WorkspaceConfigurationRequest(FileUri(root + "/" + filePath.value)));
          ui.Call(ChangeConfiguration(serverFolder, filePath.value));
        } else {
          ui.Call(ChangeConfiguration(Some(FileUri(root)), ""));
        }
      }
      mainFile := filePath;
      mainFileStatusBar.UpdateMainFileText(mainFile);
    }

    /** The watcher's `onDidDelete` handler: the root file is gone, so its sidecar goes too. */
    method OnMainFileDeleted(root: string)
      modifies ui
      ensures ui.log == old(ui.log) + [RemoveFile(Extension.ConfigPath(root))]
    {
      ui.Call(RemoveFile(Extension.ConfigPath(root)));
    }

    /** The `onDidChangeActiveTextEditor` handler; `editor` is the new editor's document. */
    method OnDidChangeActiveTextEditor(editor: Option<TextDocument>, ready: bool, responses: seq<FileUsageResponse>,
                                       detect: string -> Option<DetectedFormat>)
      requires Valid()
      modifies this, ui, fileFormatStatusBar.item, mainFileStatusBar.item
      ensures mainFile == old(mainFile) && mainFileWatcher == old(mainFileWatcher)
      ensures editor.None? ==> fileUsage == old(fileUsage) && ui.log == old(ui.log)
      ensures editor.Some? ==> fileUsage == FileUsage(ready, responses)
      ensures editor.None? || ExtName(editor.value.fileName) !in supportedExtensions ==>
        !fileFormatStatusBar.item.visible && !mainFileStatusBar.item.visible
      ensures editor.Some? && ExtName(editor.value.fileName) !in supportedExtensions ==>
        ui.log == old(ui.log) + UsageCalls(editor.value, ready)
      ensures editor.Some? && ExtName(editor.value.fileName) in supportedExtensions ==>
        Handled(editor.value, detect, old(ui.log) + UsageCalls(editor.value, ready), old(fileFormatStatusBar.item.text))
    {
      if editor.Some? {
        fileUsage := GetFileUsage(editor.value, ready, responses);
        if ExtName(editor.value.fileName) in supportedExtensions {
          HandleApiDocument(editor.value, detect);
          return;
        }
      }
      mainFileStatusBar.Hide();
      fileFormatStatusBar.Hide();
    }

    /** The `onDidSaveTextDocument` handler; `active` is the active editor's document. */
    method OnDidSaveTextDocument(saved: TextDocument, active: Option<TextDocument>, detect: string -> Option<DetectedFormat>)
      requires Valid()
      modifies ui, fileFormatStatusBar.item, mainFileStatusBar.item
      ensures !SaveTriggers(active, saved, supportedExtensions) ==>
        && ui.log == old(ui.log)
        && fileFormatStatusBar.item.visible == old(fileFormatStatusBar.item.visible)
        && fileFormatStatusBar.item.text == old(fileFormatStatusBar.item.text)
        && mainFileStatusBar.item.visible == old(mainFileStatusBar.item.visible)
      ensures SaveTriggers(active, saved, supportedExtensions) ==>
        Handled(active.value, detect, old(ui.log), old(fileFormatStatusBar.item.text))
    {
      if active.Some? && ExtName(active.value.fileName) in supportedExtensions && active.value.fileName == saved.fileName {
        HandleApiDocument(active.value, detect);
      }
    }

    /** `dispose`: every registration once, in registration order. */
    method Dispose()
      requires Valid()
      modifies ui
      ensures ui.log == old(ui.log) + RegistrationDisposals(disposables)
      ensures ui.log == old(ui.log) + [Disposed(fileFormatStatusBar.item.id), Disposed(mainFileStatusBar.item.id),
                                       Disposed(editorListener.id), Disposed(saveListener.id)]
    {
      var i := 0;
      while i < |disposables|
        invariant 0 <= i <= |disposables|
        invariant ui.log == old(ui.log) + RegistrationDisposals(disposables[..i])
      {
        assert disposables[..i + 1][..i] == disposables[..i];
        match disposables[i] {
          case BarRegistration(b) => b.Dispose();
          case ListenerRegistration(s) => s.Dispose();
        }
        i := i + 1;
      }
      assert disposables[..i] == disposables;
      DisposalsOfRegistrations(this);
    }
  }

  /** What the controller's four registrations report when disposed. */
  lemma DisposalsOfRegistrations(c: ApiDocumentController)
    requires c.Valid()
    ensures RegistrationDisposals(c.disposables)
         == [Disposed(c.fileFormatStatusBar.item.id), Disposed(c.mainFileStatusBar.item.id),
             Disposed(c.editorListener.id), Disposed(c.saveListener.id)]
  {
    var rs := c.disposables;
    assert rs[..1][..0] == [];
    assert rs[..2][..1] == rs[..1];
    assert rs[..3][..2] == rs[..2];
    assert rs[..4][..3] == rs[..3];
    assert RegistrationDisposals(rs[..1]) == [Disposed(c.fileFormatStatusBar.item.id)];
    assert RegistrationDisposals(rs[..2]) == [Disposed(c.fileFormatStatusBar.item.id), Disposed(c.mainFileStatusBar.item.id)];
    assert RegistrationDisposals(rs[..3]) == RegistrationDisposals(rs[..2]) + [Disposed(c.editorListener.id)];
    assert rs[..4] == rs;
  }
}
