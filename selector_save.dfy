/** Saving in the Data Selector of data_selector.py: the name suggested
    for each output file, the checks `save_selection` makes before it starts
    the worker, and the worker running the selector on each input. */
module SelectorSave {
  import opened Text
  import opened Channels
  import opened Selector

  // ---------------------------------------------------------------------
  // Names of the output files

  /** The end of every suggested output name. */
  const Suffix: string := "_modified.txt"

  /** `path.split("/")[-1]`: the file name. */
  function Basename(path: string): string {
    var parts := Split(path, '/');
    parts[|parts| - 1]
  }

  /** The suggested output name as written:
      `"".join(path.split("/")[-1].split(".")[:-1]) + "_modified.txt"`. */
  function SaveName(path: string): string {
    var pieces := Split(Basename(path), '.');
    Concat(pieces[..|pieces| - 1]) + Suffix
  }

  /** The suggested output name as intended: the file name without its
      extension, the part after its last dot. */
  function SaveNameFixed(path: string): string {
    var pieces := Split(Basename(path), '.');
    (if |pieces| == 1 then pieces[0] else Join(pieces[..|pieces| - 1], '.')) + Suffix
  }

  /** The file name is what follows the last slash. */
  lemma BasenameAfterSlash(dir: string, name: string)
    requires '/' !in name
    ensures Basename(dir + "/" + name) == name
  {
    SplitSnoc(dir, '/', name);
  }

  /** As written, the suggestion drops every dot of the name before the
      extension. */
  lemma SaveNameAsWrittenDots(dir: string, stem: string, ext: string)
    requires '/' !in stem && '/' !in ext && '.' !in ext
    ensures SaveName(dir + "/" + stem + "." + ext) == Remove(stem, '.') + Suffix
  {
    var base := stem + "." + ext;
    assert dir + "/" + stem + "." + ext == dir + "/" + base;
    BasenameAfterSlash(dir, base);
    SplitSnoc(stem, '.', ext);
    var pieces := Split(stem, '.') + [ext];
    assert pieces[..|pieces| - 1] == Split(stem, '.');
    ConcatSplit(stem, '.');
  }

  /** As written, a name without a dot is lost altogether: only the
      suffix is offered. */
  lemma SaveNameAsWrittenNoDot(dir: string, name: string)
    requires '/' !in name && '.' !in name
    ensures SaveName(dir + "/" + name) == Suffix
  {
    BasenameAfterSlash(dir, name);
    FindAt(name, '.', |name|);
  }

  /** As intended, the suggestion is the name up to its last dot. */
  lemma SaveNameFixedStem(dir: string, stem: string, ext: string)
    requires '/' !in stem && '/' !in ext && '.' !in ext
    ensures SaveNameFixed(dir + "/" + stem + "." + ext) == stem + Suffix
  {
    var base := stem + "." + ext;
    assert dir + "/" + stem + "." + ext == dir + "/" + base;
    BasenameAfterSlash(dir, base);
    SplitSnoc(stem, '.', ext);
    var pieces := Split(stem, '.') + [ext];
    assert pieces[..|pieces| - 1] == Split(stem, '.');
    JoinSplit(stem, '.');
  }

  /** As intended, a name without a dot is kept whole. */
  lemma SaveNameFixedNoDot(dir: string, name: string)
    requires '/' !in name && '.' !in name
    ensures SaveNameFixed(dir + "/" + name) == name + Suffix
  {
    BasenameAfterSlash(dir, name);
    FindAt(name, '.', |name|);
  }

  /** The smallest case: a file `d/data` is offered `_modified.txt`. */
  lemma SaveNameExample()
    ensures SaveName("d/data") == "_modified.txt"
    ensures SaveNameFixed("d/data") == "data_modified.txt"
  {
    assert "d/data" == "d" + "/" + "data";
    SaveNameAsWrittenNoDot("d", "data");
    SaveNameFixedNoDot("d", "data");
    assert "data" + Suffix == "data_modified.txt";
  }

  // ---------------------------------------------------------------------
  // Saving

  /** What `save_selection()` does: report a missing file, missing masses
      or a missing output file, or start the worker on the inputs, one
      output each. */
  datatype SaveOutcome =
    | NoFile
    | NoNumbers
    | NoSaveFile
    | Start(masses: seq<int>, inputs: seq<string>, outputs: seq<string>)

  /** The file each save dialog returns, one per input, each opened on its
      input with the suggestion `name` gives. */
  function Suggest(inputs: seq<string>, ask: (string, string) -> string, name: string -> string): seq<string> {
    seq(|inputs|, k requires 0 <= k < |inputs| => ask(inputs[k], name(inputs[k])))
  }

  /** `save_selection()` as written. `pathVar` is the text of `path_var`,
      the chosen files joined by newlines; `selected` the checked masses;
      `ask(dir, name)` the file the save dialog returns when opened in
      `dir` suggesting `name`, or "" when it is cancelled. */
  function SaveSelectionAsWritten(pathVar: string, selected: seq<int>, ask: (string, string) -> string): SaveOutcome {
    if pathVar == [] then NoFile
    else if selected == [] then NoNumbers
    else
      var inputs := Split(pathVar, '\n');
      var outputs := Suggest(inputs, ask, SaveName);
      if |outputs| == |Split(pathVar, '\n')| then Start(selected, inputs, outputs) else NoSaveFile
  }

  /** `save_selection()` as intended: a cancelled save dialog is reported,
      and the suggestion keeps the file name. */
  function SaveSelection(pathVar: string, selected: seq<int>, ask: (string, string) -> string): SaveOutcome {
    if pathVar == [] then NoFile
    else if selected == [] then NoNumbers
    else
      var inputs := Split(pathVar, '\n');
      if Cancelled(inputs, ask) then NoSaveFile
      else Start(selected, inputs, Suggest(inputs, ask, SaveNameFixed))
  }

  /** Some save dialog, opened on an input with its suggested name, was
      cancelled. */
  predicate Cancelled(inputs: seq<string>, ask: (string, string) -> string) {
    exists k :: 0 <= k < |inputs| && ask(inputs[k], SaveNameFixed(inputs[k])) == []
  }

  /** As written, the check for a save file per input never fails: with
      a file and masses the worker starts on every chosen file, whatever
      the save dialogs returned. */
  lemma SaveSelectionAsWrittenStarts(pathVar: string, selected: seq<int>, ask: (string, string) -> string)
    requires pathVar != [] && selected != []
    ensures var r := SaveSelectionAsWritten(pathVar, selected, ask);
      r.Start? && r.masses == selected && r.inputs == Split(pathVar, '\n') &&
      |r.outputs| == |r.inputs| &&
      forall k :: 0 <= k < |r.inputs| ==> r.outputs[k] == ask(r.inputs[k], SaveName(r.inputs[k]))
  {
    var inputs := Split(pathVar, '\n');
    var outputs := Suggest(inputs, ask, SaveName);
    assert forall k :: 0 <= k < |inputs| ==> outputs[k] == ask(inputs[k], SaveName(inputs[k]));
  }

  /** A save dialog the user cancels: it returns no file. */
  function Cancel(dir: string, name: string): string {
    ""
  }

  /** One file, one mass, a cancelled dialog: as written the worker starts
      with an empty output name; as intended the cancel is reported. */
  lemma SaveSelectionCancelled()
    ensures SaveSelectionAsWritten("a.txt", [75], Cancel) == Start([75], ["a.txt"], [""])
    ensures SaveSelection("a.txt", [75], Cancel) == NoSaveFile
  {
    FindAt("a.txt", '\n', 5);
    assert Split("a.txt", '\n') == ["a.txt"];
    var outputs := Suggest(["a.txt"], Cancel, SaveName);
    assert outputs[0] == Cancel("a.txt", SaveName("a.txt"));
    assert |outputs| == 1 && outputs[0] == "";
    assert outputs == [""];
    assert Cancel("a.txt", SaveNameFixed("a.txt")) == "";
    assert Cancelled(["a.txt"], Cancel);
  }

  /** As intended, the missing file is reported before the missing masses,
      those before a cancelled dialog. */
  lemma SaveSelectionGuards(pathVar: string, selected: seq<int>, ask: (string, string) -> string)
    ensures SaveSelection(pathVar, selected, ask) == NoFile <==> pathVar == []
    ensures SaveSelection(pathVar, selected, ask) == NoNumbers <==> pathVar != [] && selected == []
    ensures SaveSelection(pathVar, selected, ask) == NoSaveFile <==>
      pathVar != [] && selected != [] && Cancelled(Split(pathVar, '\n'), ask)
  {
  }

  /** As intended, the worker starts exactly when none of the guards
      failed, with the selected masses, the chosen files in order and one
      non-empty output name per file. */
  lemma SaveSelectionStarts(pathVar: string, selected: seq<int>, ask: (string, string) -> string)
    ensures var r := SaveSelection(pathVar, selected, ask);
      r.Start? ==> (r.masses == selected && r.inputs == Split(pathVar, '\n') &&
        |r.outputs| == |r.inputs| &&
        forall k :: 0 <= k < |r.inputs| ==>
          r.outputs[k] == ask(r.inputs[k], SaveNameFixed(r.inputs[k])) && r.outputs[k] != [])
  {
    if pathVar != [] && selected != [] {
      var inputs := Split(pathVar, '\n');
      var outputs := Suggest(inputs, ask, SaveNameFixed);
      assert forall k :: 0 <= k < |inputs| ==> outputs[k] == ask(inputs[k], SaveNameFixed(inputs[k]));
      if !Cancelled(inputs, ask) {
        forall k | 0 <= k < |inputs|
          ensures outputs[k] != []
        {
          assert !(ask(inputs[k], SaveNameFixed(inputs[k])) == []);
        }
      }
    }
  }

  /** The inputs handed to the worker are the files chosen, in order:
      `path_var` holds them joined by newlines. */
  lemma SaveInputsAreChosenFiles(paths: seq<string>, selected: seq<int>, ask: (string, string) -> string)
    requires |paths| >= 1 && forall k :: 0 <= k < |paths| ==> '\n' !in paths[k]
    requires Join(paths, '\n') != []
    ensures SaveSelection(Join(paths, '\n'), selected, ask).Start? ==>
      SaveSelection(Join(paths, '\n'), selected, ask).inputs == paths
  {
    SplitJoin(paths, '\n');
  }

  // ---------------------------------------------------------------------
  // The worker

  /** What the worker does with one input and its output path: select
      the columns, or fail when the input file is missing or unusable, or
      when the output path is empty, since `open("", "w")` raises
      `FileNotFoundError` before anything is written. */
  function SelectIn(masses: seq<int>, path: string, out: string, files: map<string, DataFile>): (r: Selection)
    ensures r != Failed ==> out != [] && path in files && r == DataSelector(masses, files[path])
    ensures out == [] ==> r == Failed
  {
    if path !in files || out == [] then Failed else DataSelector(masses, files[path])
  }

  /** The worker's step for one input, as a function of its path and its
      output path. */
  function Worker(masses: seq<int>, files: map<string, DataFile>): (string, string) -> Selection {
    (path, out) => SelectIn(masses, path, out, files)
  }

  /** As written, the cancelled dialog of `SaveSelectionCancelled` starts
      a worker whose one input fails at once, whatever the files hold: its
      output path is empty. */
  lemma SaveSelectionCancelledFails(files: map<string, DataFile>)
    ensures var s := SaveSelectionAsWritten("a.txt", [75], Cancel);
      s.Start? && |s.inputs| == |s.outputs| == 1 &&
      Worker(s.masses, files)(s.inputs[0], s.outputs[0]) == Failed
  {
    SaveSelectionCancelled();
  }

  /** `long_running_function` with `select == Worker(masses, files)`: the
      inputs one after the other, each with its output path, stopping at
      the first that raises (a failure, or a file without data rows), since
      its exception ends the worker. Result `k` is what went to
      `outputs[k]`. */
  method RunWorker(inputs: seq<string>, outputs: seq<string>, select: (string, string) -> Selection)
    returns (done: seq<Selection>)
    requires |inputs| <= |outputs|
    ensures |done| <= |inputs|
    ensures forall k :: 0 <= k < |done| ==> done[k] == select(inputs[k], outputs[k])
    ensures forall k :: 0 <= k < |done| - 1 ==> done[k].Written?
    ensures |done| == |inputs| || (done != [] && !done[|done| - 1].Written?)
  {
    done := [];
    var n := 0;
    while n < |inputs|
      invariant n == |done| <= |inputs|
      invariant forall k :: 0 <= k < n ==> done[k] == select(inputs[k], outputs[k])
      invariant forall k :: 0 <= k < n ==> done[k].Written?
    {
      var r := select(inputs[n], outputs[n]);
      done := done + [r];
      if !r.Written? {
        return;
      }
      n := n + 1;
    }
  }
}
