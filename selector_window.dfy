/** The Data Selector window of data_selector.py: choosing the input files
    narrows the mass boxes to the masses every readable file lists. */
module SelectorWindow {
  import opened Text
  import opened Channels
  import opened Checkboxes
  import opened SelectorSave

  /** The masses in the header of `path`, or None when the file cannot be
      opened or a header field after the second is not a whole number. */
  function HeaderOf(path: string, files: map<string, DataFile>): Option<seq<int>> {
    if path in files then WsMasses(files[path].header) else None
  }

  /** `HeaderOf` for the files at hand, as a function of the path. */
  function HeaderReader(files: map<string, DataFile>): string -> Option<seq<int>> {
    path => HeaderOf(path, files)
  }

  /** The header of each chosen file, in order, as `read` gives it. */
  function Headers(paths: seq<string>, read: string -> Option<seq<int>>): (r: seq<Option<seq<int>>>)
    ensures |r| == |paths|
    ensures forall k :: 0 <= k < |paths| ==> r[k] == read(paths[k])
  {
    seq(|paths|, k requires 0 <= k < |paths| => read(paths[k]))
  }

  /** Some chosen file could be read: the last, or one before it. */
  predicate AnyReadable(headers: seq<Option<seq<int>>>)
    decreases |headers|
  {
    headers != [] &&
    (headers[|headers| - 1].Some? || AnyReadable(headers[..|headers| - 1]))
  }

  /** Some file is readable exactly when one of the headers is there. */
  lemma {:induction false} AnyReadableSome(headers: seq<Option<seq<int>>>)
    ensures AnyReadable(headers) <==> exists k :: 0 <= k < |headers| && headers[k].Some?
    decreases |headers|
  {
    if headers != [] {
      var n := |headers| - 1;
      AnyReadableSome(headers[..n]);
      if AnyReadable(headers[..n]) {
        var k :| 0 <= k < n && headers[..n][k].Some?;
        assert headers[k].Some?;
      }
      if headers[n].None? && exists k :: 0 <= k < |headers| && headers[k].Some? {
        var k :| 0 <= k < |headers| && headers[k].Some?;
        assert headers[..n][k].Some?;
      }
    }
  }

  /** The selector window: the mass check boxes and `path_var`, the chosen
      files joined by newlines. */
  class SelectorApp {
    const panel: Panel
    var pathVar: string

    ghost predicate Valid()
      reads this, panel
    {
      panel.Valid()
    }

    /** Every box is unchecked, and enabled exactly when `on` holds and its
        mass is in `available`. */
    ghost predicate Offers(on: bool, available: seq<int>)
      reads this, panel
    {
      forall n :: IsBox(n) ==>
        (n in panel.checked && n in panel.enabled &&
         !panel.checked[n] && (panel.enabled[n] <==> on && n in available))
    }

    /** The window as it opens: no file, every box unchecked and disabled. */
    constructor ()
      ensures Valid() && fresh(panel)
      ensures pathVar == []
      ensures forall n :: IsBox(n) ==> !panel.checked[n] && !panel.enabled[n]
    {
      panel := new Panel();
      pathVar := [];
    }

    /** `select_file` on the files the dialog returned. Each file narrows the
        masses on offer to those in its header too; after each file the boxes
        are reset, enabling the masses so far after a readable file and
        disabling all after an unreadable one, so the last file decides
        which. `path_var` becomes the chosen files once one of them is
        readable. */
    method SelectFiles(filePaths: seq<string>, read: string -> Option<seq<int>>)
      requires Valid()
      modifies this, panel
      ensures Valid()
      ensures filePaths == [] ==>
        pathVar == old(pathVar) && panel.checked == old(panel.checked) && panel.enabled == old(panel.enabled)
      ensures filePaths != [] ==>
        var headers := Headers(filePaths, read);
        forall n :: IsBox(n) ==>
          !panel.checked[n] &&
          (panel.enabled[n] <==> headers[|headers| - 1].Some? && n in Narrow(MassRange(), headers))
      ensures pathVar == if AnyReadable(Headers(filePaths, read)) then Join(filePaths, '\n') else old(pathVar)
    {
      if filePaths == [] {
        return;
      }
      var available := MassRange();
      var i := 0;
      ghost var headers := Headers(filePaths, read);
      while i < |filePaths|
        invariant 0 <= i <= |filePaths|
        invariant Valid()
        invariant available == Narrow(MassRange(), headers[..i])
        invariant i > 0 ==> Offers(headers[i - 1].Some?, available)
        invariant AnyReadable(headers[..i]) ==> pathVar == Join(filePaths, '\n')
        invariant !AnyReadable(headers[..i]) ==> pathVar == old(pathVar)
      {
        var found := read(filePaths[i]);
        assert headers[i] == found;
        assert Narrow(MassRange(), headers[..i + 1]) ==
          if found.Some? then Keep(available, found.value) else available
        by {
          assert headers[..i + 1][..i] == headers[..i];
          assert headers[..i + 1][i] == headers[i];
        }
        assert AnyReadable(headers[..i + 1]) <==> found.Some? || AnyReadable(headers[..i]) by {
          assert headers[..i + 1][..i] == headers[..i];
          assert headers[..i + 1][i] == headers[i];
        }
        available := ReadOne(found, available, filePaths);
        i := i + 1;
      }
      assert headers[..i] == headers;
    }

    /** One pass of the loop in `select_file`: after a readable header the
        masses on offer shrink to those in it too and are enabled, and the
        chosen files become `path_var`; after an unreadable one every box
        is disabled and the masses on offer stay as they were. */
    method ReadOne(found: Option<seq<int>>, available: seq<int>, filePaths: seq<string>)
      returns (next: seq<int>)
      requires Valid()
      modifies this, panel
      ensures Valid()
      ensures next == if found.Some? then Keep(available, found.value) else available
      ensures Offers(found.Some?, next)
      ensures found.Some? ==> pathVar == Join(filePaths, '\n')
      ensures found.None? ==> pathVar == old(pathVar)
    {
      next := available;
      if found.Some? {
        next := Keep(available, found.value);
        panel.EnableButtons(next);
        pathVar := Join(filePaths, '\n');
      } else {
        panel.DisableButtons();
      }
    }

    /** `save_selection`: check the file and the masses, ask for one output
        file per input, and start the worker. Without a file, without a
        checked box, or with a cancelled dialog the user is told so, in that
        order; otherwise the worker gets the checked masses, ascending, the
        chosen files and one output file each. */
    method Save(ask: (string, string) -> string) returns (r: SaveOutcome)
      requires Valid()
      ensures r == SaveSelection(pathVar, panel.Selected(), ask)
      ensures r == NoFile <==> pathVar == []
      ensures r == NoNumbers <==> pathVar != [] && forall n :: IsBox(n) ==> !panel.checked[n]
      ensures r == NoSaveFile <==>
        pathVar != [] && (exists n :: IsBox(n) && panel.checked[n]) && Cancelled(Split(pathVar, '\n'), ask)
      ensures r.Start? ==>
        r.masses == panel.Selected() && Increasing(r.masses) &&
        (forall m :: m in r.masses <==> IsBox(m) && panel.checked[m]) &&
        r.inputs == Split(pathVar, '\n') && |r.outputs| == |r.inputs| &&
        forall k :: 0 <= k < |r.outputs| ==> r.outputs[k] != []
    {
      r := SaveSelection(pathVar, panel.Selected(), ask);
      SelectedMembers(panel);
      SaveSelectionGuards(pathVar, panel.Selected(), ask);
      SaveSelectionStarts(pathVar, panel.Selected(), ask);
      if panel.Selected() != [] {
        var m := panel.Selected()[0];
        assert IsBox(m) && panel.checked[m];
      }
    }
  }
}
