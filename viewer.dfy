/** The Data Viewer of data_viewer.py: one file is chosen, its header
    offers the mass boxes, and "View" plots the checked masses' columns
    against the row number. */
module Viewer {
  import opened Text
  import opened Channels
  import opened Checkboxes
  import opened DictColumns

  // ---------------------------------------------------------------------
  // Choosing the file

  /** What reading the first line of the chosen file gives `select_file`. */
  datatype HeaderRead =
    | Unreadable              // `open` raised `OSError`
    | Malformed               // `int(x)` raised `ValueError`
    | Masses(ms: seq<int>)    // `[int(x) for x in first_line.split()[2:]]`

  /** The header of `path` as `select_file` reads it: whitespace tokens from
      the third on. */
  function ReadHeader(path: string, files: map<string, DataFile>): (r: HeaderRead)
    ensures r.Unreadable? <==> path !in files
    ensures r.Masses? ==> path in files && WsMasses(files[path].header) == Some(r.ms)
    ensures r.Malformed? ==> path in files && WsMasses(files[path].header).None?
  {
    if path !in files then Unreadable
    else
      match WsMasses(files[path].header)
      case None => Malformed
      case Some(ms) => Masses(ms)
  }

  // ---------------------------------------------------------------------
  // Plotting

  /** Why `generate_plot` raised instead of plotting. */
  datatype Failure =
    | CannotOpen              // `open(path_var.get())` raised `OSError`
    | BadHeader               // a tab field of the header is not an integer
    | UnknownMass(m: int)     // `masses[m]` raised `KeyError`
    | BadRows                 // `np.loadtxt` met a row without a requested column
    | NoRowAxis               // one row, one mass: the load is squeezed to a
                              // 0-d array and `ar.shape[0]` raises `IndexError`

  /** What pressing "View" does. `Plot` draws one line per mass: `ys[i]`
      holds the masses' values at `x = xs[i]`. With a single data row
      `np.loadtxt` squeezes the table to the row itself, so `RowLine` draws
      one line through the row's values at `x = 1..k`, the whole list of
      masses as its one label. */
  datatype PlotOutcome =
    | NoFile                  // "No file selected."
    | NoNumbers               // "No numbers selected."
    | Raised(failure: Failure)
    | Plot(labels: seq<int>, xs: seq<int>, ys: seq<seq<real>>)
    | RowLine(labels: seq<int>, xs: seq<int>, values: seq<real>)

  /** The row numbers 1..n, `range(1, ar.shape[0] + 1)`. */
  function RowNumbers(n: nat): (r: seq<int>)
    ensures |r| == n
  {
    seq(n, i requires 0 <= i < n => i + 1)
  }

  /** `generate_plot`, with `path_var` and the checked masses as inputs.
      The two "nothing chosen" messages come first and in this order;
      then the file is opened, its header read through tabs, and the
      requested columns loaded. */
  function GeneratePlot(path: string, selected: seq<int>, files: map<string, DataFile>): PlotOutcome {
    if path == [] then NoFile
    else if selected == [] then NoNumbers
    else if path !in files then Raised(CannotOpen)
    else
      match TabMasses(files[path].header)
      case None => Raised(BadHeader)
      case Some(available) => PlotColumns(available, selected, files[path].rows)
  }

  /** The part of `generate_plot` after the header: `usecols` from the
      header dictionary, then the load and the plot. `np.loadtxt` (with its
      default `ndmin=0`) squeezes away an axis of length one: a single row
      of one mass becomes a 0-d array, whose `shape[0]` raises, and a
      single row of several masses becomes that row. */
  function PlotColumns(available: seq<int>, selected: seq<int>, rows: seq<seq<real>>): (r: PlotOutcome)
    ensures r.Raised? || r.Plot? || r.RowLine?
    ensures r.Plot? || r.RowLine? ==> r.labels == selected
  {
    var d := ColumnDict(available);
    match FirstUnknown(d, selected)
    case Some(k) => Raised(UnknownMass(selected[k]))
    case None =>
      match LoadColumns(rows, UseCols(d, selected))
      case None => Raised(BadRows)
      case Some(ys) =>
        if |ys| != 1 then Plot(selected, RowNumbers(|ys|), ys)
        else if |selected| == 1 then Raised(NoRowAxis)
        else RowLine(selected, RowNumbers(|selected|), ys[0])
  }

  // ---------------------------------------------------------------------
  // The window

  /** The viewer window: the mass check boxes and `path_var`. */
  class ViewerApp {
    const panel: Panel
    var pathVar: string

    ghost predicate Valid()
      reads this, panel
    {
      panel.Valid()
    }

    /** The window as it opens: no file, every box unchecked and disabled. */
    constructor ()
      ensures Valid() && fresh(panel)
      ensures pathVar == []
      ensures forall n :: IsBox(n) ==> !panel.checked[n] && !panel.enabled[n]
    {
      panel := new Panel();
      pathVar := [];
    }

    /** `select_file` on the path the dialog returned. No path, or a header
        token that is not an integer (the `ValueError` escapes the handler,
        which catches only `OSError`), changes nothing; an unreadable file
        disables every box; otherwise the boxes offer exactly the masses of
        the range that the header lists, and the file becomes `path_var`. */
    method SelectFile(filePath: string, files: map<string, DataFile>)
      requires Valid()
      modifies this, panel
      ensures Valid()
      ensures filePath == [] || ReadHeader(filePath, files).Malformed? ==>
        pathVar == old(pathVar) && panel.checked == old(panel.checked) && panel.enabled == old(panel.enabled)
      ensures filePath != [] && ReadHeader(filePath, files).Unreadable? ==>
        pathVar == old(pathVar) && forall n :: IsBox(n) ==> !panel.checked[n] && !panel.enabled[n]
      ensures filePath != [] && ReadHeader(filePath, files).Masses? ==>
        pathVar == filePath &&
        forall n :: IsBox(n) ==>
          !panel.checked[n] && (panel.enabled[n] <==> n in ReadHeader(filePath, files).ms)
    {
      if filePath == [] {
        return;
      }
      match ReadHeader(filePath, files)
      case Unreadable =>
        panel.DisableButtons();
      case Malformed =>
      case Masses(ms) =>
        var available := Keep(MassRange(), ms);
        KeepMembers(MassRange(), ms);
        MassRangeMembers();
        panel.EnableButtons(available);
        pathVar := filePath;
    }

    /** `clear_selection`: every box unchecked, enabled ones stay enabled. */
    method ClearSelection()
      requires Valid()
      modifies panel
      ensures Valid()
      ensures panel.enabled == old(panel.enabled)
      ensures forall n :: IsBox(n) ==> !panel.checked[n]
    {
      panel.ClearSelection();
    }

    /** The "View" button: `generate_plot` on the window's state. Without
        a file, or without a checked box, the user is told so; a drawing is
        labelled with the checked masses, ascending, each of them enabled. */
    method View(files: map<string, DataFile>) returns (r: PlotOutcome)
      requires Valid()
      ensures r == GeneratePlot(pathVar, panel.Selected(), files)
      ensures r == NoFile <==> pathVar == []
      ensures r == NoNumbers <==> pathVar != [] && forall n :: IsBox(n) ==> !panel.checked[n]
      ensures r.Plot? || r.RowLine? ==>
        Increasing(r.labels) &&
        (forall m :: m in r.labels <==> IsBox(m) && panel.checked[m]) &&
        forall m :: m in r.labels ==> panel.enabled[m]
    {
      r := GeneratePlot(pathVar, panel.Selected(), files);
      SelectedMembers(panel);
      GeneratePlotGuards(pathVar, panel.Selected(), files);
      GeneratePlotLabels(pathVar, panel.Selected(), files);
      if pathVar != [] && panel.Selected() != [] {
        var m := panel.Selected()[0];
        assert IsBox(m) && panel.checked[m];
      }
    }
  }

  // ---------------------------------------------------------------------
  // Properties

  /** "No file selected" is reported before "No numbers selected", and
      either stops the plot before the file is opened: both hold whatever
      the files are. */
  lemma GeneratePlotGuards(path: string, selected: seq<int>, files: map<string, DataFile>)
    ensures GeneratePlot(path, selected, files) == NoFile <==> path == []
    ensures GeneratePlot(path, selected, files) == NoNumbers <==> path != [] && selected == []
    ensures path == [] || selected == [] ==>
      GeneratePlot(path, selected, files) == GeneratePlot(path, selected, map[])
  {
  }

  /** The plot raises `KeyError` exactly when a checked mass is not among
      the header's masses, and names the first such mass. */
  lemma PlotColumnsUnknown(available: seq<int>, selected: seq<int>, rows: seq<seq<real>>)
    ensures var r := PlotColumns(available, selected, rows);
      r.Raised? && r.failure.UnknownMass? <==> exists j :: 0 <= j < |selected| && selected[j] !in available
    ensures var r := PlotColumns(available, selected, rows);
      r.Raised? && r.failure.UnknownMass? ==> r.failure.m in selected && r.failure.m !in available
  {
    var d := ColumnDict(available);
    if exists j :: 0 <= j < |selected| && selected[j] !in available {
      var j :| 0 <= j < |selected| && selected[j] !in available;
      assert selected[j] !in d;
    }
  }

  /** A plot of several rows (or none) shows the checked masses as its
      labels, one point per data row numbered from 1, and for each mass the
      column `masses[m]`: one past the mass's last position among the
      header's masses. */
  lemma PlotColumnsShape(available: seq<int>, selected: seq<int>, rows: seq<seq<real>>)
    requires PlotColumns(available, selected, rows).Plot?
    ensures var r := PlotColumns(available, selected, rows);
      |rows| != 1 && r.labels == selected && |r.xs| == |r.ys| == |rows| &&
      (forall i :: 0 <= i < |r.xs| ==> r.xs[i] == i + 1) &&
      DictTable(available, selected, rows, r.ys)
  {
    LoadByDict(available, selected, rows);
  }

  /** A file of one data row and several checked masses is drawn as one
      line through that row's fields, `masses[m]` for each mass in order,
      at `x = 1..k`. */
  lemma PlotColumnsRowLine(available: seq<int>, selected: seq<int>, rows: seq<seq<real>>)
    requires PlotColumns(available, selected, rows).RowLine?
    ensures var r := PlotColumns(available, selected, rows);
      |rows| == 1 && |selected| != 1 && r.labels == selected &&
      |r.xs| == |r.values| == |selected| &&
      (forall j :: 0 <= j < |r.xs| ==> r.xs[j] == j + 1) &&
      DictRow(available, selected, rows[0], r.values)
  {
    LoadByDict(available, selected, rows);
  }

  /** Every checked mass is in the header and every row reaches the
      columns asked for: exactly when `np.loadtxt` succeeds. */
  predicate Loadable(available: seq<int>, selected: seq<int>, rows: seq<seq<real>>) {
    (forall j :: 0 <= j < |selected| ==> selected[j] in available) &&
    forall i, j :: 0 <= i < |rows| && 0 <= j < |selected| ==>
      LastIndexOf(available, selected[j]).Some? &&
      LastIndexOf(available, selected[j]).value + 1 < |rows[i]|
  }

  /** A load that succeeds is drawn, except for one row of one mass, where
      `ar.shape[0]` raises; a file of one row is drawn as a single line. */
  lemma PlotColumnsSucceeds(available: seq<int>, selected: seq<int>, rows: seq<seq<real>>)
    ensures var r := PlotColumns(available, selected, rows);
      r.Plot? <==> Loadable(available, selected, rows) && |rows| != 1
    ensures var r := PlotColumns(available, selected, rows);
      r.RowLine? <==> Loadable(available, selected, rows) && |rows| == 1 && |selected| != 1
    ensures PlotColumns(available, selected, rows) == Raised(NoRowAxis) <==>
      Loadable(available, selected, rows) && |rows| == 1 && |selected| == 1
    ensures PlotColumns(available, selected, rows) == Raised(BadRows) <==>
      (forall j :: 0 <= j < |selected| ==> selected[j] in available) && !Loadable(available, selected, rows)
  {
    if forall j :: 0 <= j < |selected| ==> selected[j] in available {
      LoadByDictSome(available, selected, rows);
      UseColsAt(available, selected);
      var ys := LoadColumns(rows, UseCols(ColumnDict(available), selected));
      assert ys.Some? ==> |ys.value| == |rows|;
    } else {
      PlotColumnsUnknown(available, selected, rows);
    }
  }

  /** Whatever is drawn is labelled with the checked masses. */
  lemma GeneratePlotLabels(path: string, selected: seq<int>, files: map<string, DataFile>)
    ensures var r := GeneratePlot(path, selected, files);
      r.Plot? || r.RowLine? ==> r.labels == selected
  {
    if path != [] && selected != [] {
      GeneratePlotStages(path, selected, files);
    }
  }

  /** Past the two guards, a chosen file that is present and whose header
      parses is plotted as `PlotColumns` says; otherwise the plot raises. */
  lemma GeneratePlotStages(path: string, selected: seq<int>, files: map<string, DataFile>)
    requires path != [] && selected != []
    ensures path !in files ==> GeneratePlot(path, selected, files) == Raised(CannotOpen)
    ensures path in files && TabMasses(files[path].header).None? ==>
      GeneratePlot(path, selected, files) == Raised(BadHeader)
    ensures path in files && TabMasses(files[path].header).Some? ==>
      GeneratePlot(path, selected, files) ==
        PlotColumns(TabMasses(files[path].header).value, selected, files[path].rows)
  {
  }

  /** The two header readers of the viewer agree on the files the selector
      writes: the boxes `select_file` offers are the masses `generate_plot`
      can find. */
  lemma HeaderReadersAgree(ms: seq<int>)
    requires ms != []
    ensures WsMasses(HeaderLine(ms)) == TabMasses(HeaderLine(ms)) == Some(ms)
  {
    WsMassesHeaderLine(ms);
    TabMassesHeaderLine(ms);
  }
}
