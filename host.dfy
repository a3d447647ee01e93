/**
 * The part of the VS Code host the extension talks to. Every call with an
 * effect outside the extension (messages, commands, context keys, language
 * changes, requests and notifications to the language server, file writes,
 * disposals) is recorded, in order, in the log of one `Ui` object; what the
 * host answers (dialogs, quick picks, server responses, file contents) is an
 * input of the operation that asks for it.
 */
module Host {
  import opened Js
  import opened ServerTypes

  /** A `vscode.Uri`, reduced to the two parts the extension reads. */
  datatype Uri = Uri(scheme: string, path: string)

  /** `${uri.scheme}://${uri.path}`, the form the extension sends to the server. */
  function UriText(u: Uri): string
  {
    u.scheme + "://" + u.path
  }

  /** An open `vscode.TextDocument`: its URI, file name, language mode and version. */
  datatype TextDocument = TextDocument(uri: Uri, fileName: string, languageId: string, version: int)

  /** One entry of a `FileRenameEvent`. */
  datatype FileRename = FileRename(oldUri: Uri, newUri: Uri)

  /** One replace operation of a `vscode.WorkspaceEdit`. */
  datatype Replace = Replace(uri: string, range: Range, newText: string)

  /** What the extension asks of the host. */
  datatype HostCall =
    | ShowError(message: string)
    | ShowInfo(message: string, actions: seq<string>)
    | OpenMainFileDialog
    | WriteConfig(configPath: string, main: string)
    | ExecuteCommand(command: string)
    | SetContext(key: string, value: bool)
    | SetLanguage(fileName: string, languageId: string)
    | Disposed(id: nat)
    | RenameFileRequest(oldUri: Uri, newUri: Uri)
    | ApplyEdit(edits: seq<Replace>)
    | SaveAll
    | ClearDiagnostics(document: Uri)
    | DidChange(uri: string, version: int, text: string)
    | FileUsageRequest(document: Uri)
    | WorkspaceConfigurationRequest(path: string)
    | ChangeConfiguration(folder: Option<string>, mainPath: string)
    | WatchMainFile(base: string, pattern: string)
    | RemoveFile(path: string)
    | ScheduleReadMainApiFile

  /** The host's record of everything asked of it. */
  class Ui {
    var log: seq<HostCall>

    constructor()
      ensures log == []
    {
      log := [];
    }

    method Call(c: HostCall)
      modifies this
      ensures log == old(log) + [c]
    {
      log := log + [c];
    }
  }

  /** A `vscode.StatusBarItem` created by `window.createStatusBarItem`. */
  class StatusBarItem {
    const id: nat
    const ui: Ui
    var text: string
    var tooltip: string
    var command: string
    var visible: bool

    constructor(id: nat, ui: Ui)
      ensures this.id == id && this.ui == ui
      ensures text == "" && tooltip == "" && command == "" && !visible
    {
      this.id := id;
      this.ui := ui;
      text, tooltip, command, visible := "", "", "", false;
    }

    method Show()
      modifies this
      ensures visible
      ensures text == old(text) && tooltip == old(tooltip) && command == old(command)
    {
      visible := true;
    }

    method Hide()
      modifies this
      ensures !visible
      ensures text == old(text) && tooltip == old(tooltip) && command == old(command)
    {
      visible := false;
    }

    method Dispose()
      modifies ui
      ensures ui.log == old(ui.log) + [Disposed(id)]
    {
      ui.Call(Disposed(id));
    }
  }

  /** An event subscription (`onDidChangeActiveTextEditor`, `onDidSaveTextDocument`). */
  class Subscription {
    const id: nat
    const ui: Ui

    constructor(id: nat, ui: Ui)
      ensures this.id == id && this.ui == ui
    {
      this.id := id;
      this.ui := ui;
    }

    method Dispose()
      modifies ui
      ensures ui.log == old(ui.log) + [Disposed(id)]
    {
      ui.Call(Disposed(id));
    }
  }

  /** The disposal record of a list of items, in list order. */
  function Disposals(items: seq<StatusBarItem>): (r: seq<HostCall>)
    ensures |r| == |items|
    ensures forall i :: 0 <= i < |items| ==> r[i] == Disposed(items[i].id)
  {
    seq(|items|, i requires 0 <= i < |items| => Disposed(items[i].id))
  }
}
