/**
 * The two status bar entries (`extension/src/features/status-bar.ts`): a
 * `StatusBar` wraps one host item, sets its tooltip and command once, shows,
 * hides and relabels it, and disposes what it registered. The subclasses
 * differ only in `updateText`; both text rules are methods of the one class.
 */
module StatusBars {
  import opened Js
  import opened Host

  const FileCodeIcon := "$(file-code) "
  const NoRootApiFile := "No root API file"

  /** JavaScript truthiness of a `string | undefined`. */
  predicate IsTruthyName(filename: Option<string>)
  {
    filename.Some? && filename.value != ""
  }

  /** `$(file-code) ${filename ? filename : 'No root API file'}` */
  function MainFileText(filename: Option<string>): (r: string)
    ensures StartsWith(r, FileCodeIcon)
    ensures IsTruthyName(filename) ==> r[|FileCodeIcon|..] == filename.value
    ensures !IsTruthyName(filename) ==> r[|FileCodeIcon|..] == NoRootApiFile
  {
    var shown := if IsTruthyName(filename) then filename.value else NoRootApiFile;
    assert (FileCodeIcon + shown)[|FileCodeIcon|..] == shown;
    FileCodeIcon + shown
  }

  /** Two named files get different labels. */
  lemma MainFileTextInjective(a: string, b: string)
    requires a != "" && b != ""
    ensures MainFileText(Some(a)) == MainFileText(Some(b)) <==> a == b
  {
    if MainFileText(Some(a)) == MainFileText(Some(b)) {
      assert MainFileText(Some(a))[|FileCodeIcon|..] == MainFileText(Some(b))[|FileCodeIcon|..];
    }
  }

  /**
   * A named file shows the "no root" label exactly when its name is that
   * label's text: the label alone cannot tell them apart.
   */
  lemma MainFileTextNoRoot(filename: Option<string>)
    ensures MainFileText(filename) == MainFileText(None)
        <==> (!IsTruthyName(filename) || filename.value == NoRootApiFile)
  {
    if MainFileText(filename) == MainFileText(None) {
      assert MainFileText(filename)[|FileCodeIcon|..] == MainFileText(None)[|FileCodeIcon|..];
    }
  }

  class StatusBar {
    const item: StatusBarItem
    /** Filled once, by the constructor. */
    const disposables: seq<StatusBarItem>

    /** Everything the bar disposes reports to the host its item belongs to. */
    predicate Valid()
    {
      forall d :: d in disposables ==> d.ui == item.ui
    }

    constructor(item: StatusBarItem, command: string, tooltip: string)
      modifies item
      ensures this.item == item && disposables == [item] && Valid()
      ensures item.tooltip == tooltip && item.command == command
      ensures item.text == old(item.text) && item.visible == old(item.visible)
    {
      this.item := item;
      item.tooltip := tooltip;
      item.command := command;
      disposables := [item];
    }

    method Show()
      modifies item
      ensures item.visible
      ensures item.text == old(item.text) && item.tooltip == old(item.tooltip) && item.command == old(item.command)
    {
      item.Show();
    }

    method Hide()
      modifies item
      ensures !item.visible
      ensures item.text == old(item.text) && item.tooltip == old(item.tooltip) && item.command == old(item.command)
    {
      item.Hide();
    }

    /** `MainFileStatusBar.updateText` */
    method UpdateMainFileText(filename: Option<string>)
      modifies item
      ensures item.text == MainFileText(filename)
      ensures item.visible == old(item.visible) && item.tooltip == old(item.tooltip) && item.command == old(item.command)
    {
      item.text := MainFileText(filename);
    }

    /** `FileFormatStatusBar.updateText` */
    method UpdateFormatText(text: string)
      modifies item
      ensures item.text == text
      ensures item.visible == old(item.visible) && item.tooltip == old(item.tooltip) && item.command == old(item.command)
    {
      item.text := text;
    }

    /** Disposes every registered disposable once, in registration order. */
    method Dispose()
      requires Valid()
      modifies item.ui
      ensures item.ui.log == old(item.ui.log) + Disposals(disposables)
    {
      var i := 0;
      while i < |disposables|
        invariant 0 <= i <= |disposables|
        invariant item.ui.log == old(item.ui.log) + Disposals(disposables[..i])
      {
        assert disposables[i] in disposables;
        disposables[i].Dispose();
        assert Disposals(disposables[..i + 1]) == Disposals(disposables[..i]) + [Disposed(disposables[i].id)];
        i := i + 1;
      }
      assert disposables[..i] == disposables;
    }
  }
}
