/** The calibration window of data_calibrator.py: its list of rows (one
    standard each: a data file and a concentration), adding and deleting
    rows, choosing a row's file, and `calibrate`, which checks the mass
    entry and the number of rows, reads for every row the mean and the
    standard deviation of the chosen mass's column, weights each point by
    its inverse variance and fits the calibration line with `wls`. */
module Calibrator {
  import opened Text
  import opened Channels
  import opened Stats

  /** The text a new row's concentration field starts with. */
  const DefaultConcentration: string := "0.0e00"

  /** The fewest rows `calibrate` fits a line through. */
  const MinRows: nat := 3

  /** One row of the window: its frame (a widget, known here by a number
      that identifies it), the path shown in its file field and the text of
      its concentration field. */
  datatype Row = Row(frame: nat, path: string, concentration: string)

  predicate FramesBelow(rows: seq<Row>, n: nat) {
    forall i :: 0 <= i < |rows| ==> rows[i].frame < n
  }

  predicate DistinctFrames(rows: seq<Row>) {
    forall i, j :: 0 <= i < j < |rows| ==> rows[i].frame != rows[j].frame
  }

  /** `[row for row in rows if row[0] != frame]`. */
  function Without(rows: seq<Row>, frame: nat): seq<Row> {
    if rows == [] then []
    else (if rows[0].frame != frame then [rows[0]] else []) + Without(rows[1..], frame)
  }

  /** The rows once the file field of every row of `frame` shows `path`. */
  function ShowPath(rows: seq<Row>, frame: nat, path: string): (r: seq<Row>)
    ensures |r| == |rows|
    ensures forall i :: 0 <= i < |rows| ==> r[i].frame == rows[i].frame && r[i].concentration == rows[i].concentration
  {
    seq(|rows|, i requires 0 <= i < |rows| => if rows[i].frame == frame then rows[i].(path := path) else rows[i])
  }

  /** How `calibrate` ends. */
  datatype Outcome =
    | NoMass                      // "No mass selected for the calibration."
    | TooFewRows                  // "At least three points are needed ..."
    | Unreadable(path: string)    // an OSError while reading a row's file
    | MassMissing(path: string)   // the mass is not among that file's masses
    | Raised                      // an exception `calibrate` does not catch
    | NotFinite                   // numpy computes a NaN or an infinity
    | Fitted(x: seq<real>, y: seq<real>, s: seq<real>, w: seq<real>, fit: Fit)

  /** What one row contributes: its concentration and the signal of the
      mass's column in its file. */
  datatype Point = Point(conc: real, signal: seq<real>)

  /** A step that either yields a value or ends `calibrate`. */
  datatype Step<T> = Ok(value: T) | Stop(outcome: Outcome)

  /** The body of `calibrate`'s loop for one row, up to the appends: open
      the row's file (`files` holds the readable ones), parse its header
      masses, find the mass, load column `index + 1`, and parse the
      concentration with `toFloat` (Python's `float`). */
  function ReadRow(row: Row, files: map<string, DataFile>, mass: int,
                   toFloat: string -> Option<real>): (r: Step<Point>)
    ensures r.Stop? ==> r.outcome.Unreadable? || r.outcome.MassMissing? || r.outcome.Raised?
  {
    if row.path !in files then Stop(Unreadable(row.path))
    else
      var file := files[row.path];
      match WsMasses(file.header)
      case None => Stop(Raised)
      case Some(ms) =>
        match IndexOf(ms, mass)
        case None => Stop(MassMissing(row.path))
        case Some(k) =>
          match LoadColumn(file.rows, k + 1)
          case None => Stop(Raised)
          case Some(signal) =>
            match toFloat(row.concentration)
            case None => Stop(Raised)
            case Some(c) => Ok(Point(c, signal))
  }

  /** `calibrate`'s reading of one row, as a function of the row. */
  function Reader(files: map<string, DataFile>, mass: int, toFloat: string -> Option<real>): Row -> Step<Point> {
    row => ReadRow(row, files, mass, toFloat)
  }

  /** The rows read in order by `read`; the first row that ends
      `calibrate` decides how it ends. */
  function ReadRows(rows: seq<Row>, read: Row -> Step<Point>): (r: Step<seq<Point>>)
    ensures r.Ok? ==> |r.value| == |rows|
    decreases |rows|
  {
    if rows == [] then Ok([])
    else
      match ReadRows(rows[..|rows| - 1], read)
      case Stop(o) => Stop(o)
      case Ok(ps) =>
        match read(rows[|rows| - 1])
        case Stop(o) => Stop(o)
        case Ok(p) => Ok(ps + [p])
  }

  /** `x`: the concentrations. */
  function Concs(ps: seq<Point>): (x: seq<real>)
    ensures |x| == |ps|
  {
    seq(|ps|, k requires 0 <= k < |ps| => ps[k].conc)
  }

  predicate NonemptySignals(ps: seq<Point>) {
    forall k :: 0 <= k < |ps| ==> ps[k].signal != []
  }

  /** `y`: the mean signal of each point. */
  function Means(ps: seq<Point>): (y: seq<real>)
    requires NonemptySignals(ps)
    ensures |y| == |ps|
  {
    seq(|ps|, k requires 0 <= k < |ps| => Mean(ps[k].signal))
  }

  /** `s`: the standard deviation of each point's signal. */
  function Stds(ps: seq<Point>, sqrt: real -> real): (s: seq<real>)
    requires NonemptySignals(ps)
    ensures |s| == |ps|
  {
    seq(|ps|, k requires 0 <= k < |ps| => Std(ps[k].signal, sqrt))
  }

  /** `w = 1 / s**2`: the inverse variances, which are positive. */
  function Weights(s: seq<real>): (w: seq<real>)
    requires forall k :: 0 <= k < |s| ==> s[k] != 0.0
    ensures |w| == |s| && Positive(w)
    ensures forall k :: 0 <= k < |s| ==> w[k] * (s[k] * s[k]) == 1.0
  {
    seq(|s|, k requires 0 <= k < |s| => InverseSquare(s[k]))
  }

  function InverseSquare(t: real): (r: real)
    requires t != 0.0
    ensures r > 0.0 && r * (t * t) == 1.0
  {
    assert t * t > 0.0;
    1.0 / (t * t)
  }

  /** `wls(x, y, w)`, which divides by `np.sqrt(cov(x, x, w) * cov(y, y, w))`
      and by `np.std(x)`; where one of them is zero numpy computes a NaN or
      an infinity. */
  function FitWeighted(x: seq<real>, y: seq<real>, s: seq<real>, w: seq<real>, sqrt: real -> real): Outcome
    requires |x| == |y| == |w| > 0 && Sum(w) != 0.0
  {
    if sqrt(Cov(x, x, w) * Cov(y, y, w)) != 0.0 && Std(x, sqrt) != 0.0 then
      Fitted(x, y, s, w, Wls(x, y, w, sqrt))
    else NotFinite
  }

  /** The end of `calibrate` on the arrays `x`, `y`, `s`: the weights
      `w = 1 / s**2`, of which a zero standard deviation makes one
      infinite, then the fit. */
  function FitData(x: seq<real>, y: seq<real>, s: seq<real>, sqrt: real -> real): Outcome
    requires |x| == |y| == |s| > 0
  {
    if exists k :: 0 <= k < |s| && s[k] == 0.0 then NotFinite
    else
      var w := Weights(s);
      SumPositive(w);
      FitWeighted(x, y, s, w, sqrt)
  }

  /** The arrays built from the points, then the fit; an empty signal has
      a NaN mean. */
  function FitPoints(ps: seq<Point>, sqrt: real -> real): Outcome
    requires ps != []
  {
    if !NonemptySignals(ps) then NotFinite
    else FitData(Concs(ps), Means(ps), Stds(ps, sqrt), sqrt)
  }

  /** `calibrate()` for a mass entry holding `massEntry` and the rows
      `rows`. */
  function CalibrateResult(massEntry: string, rows: seq<Row>, files: map<string, DataFile>,
                           toFloat: string -> Option<real>, sqrt: real -> real): Outcome
  {
    if massEntry == [] then NoMass
    else
      match ParseInt(massEntry)
      case None => Raised
      case Some(mass) =>
        if |rows| < MinRows then TooFewRows
        else
          match ReadRows(rows, Reader(files, mass, toFloat))
          case Stop(o) => o
          case Ok(ps) => FitPoints(ps, sqrt)
  }

  // ---------------------------------------------------------------------
  // The window

  class CalibrationApp {
    /** `self.rows`, in the order the rows were added. */
    var rows: seq<Row>
    /** The text of the mass entry. */
    var massEntry: string
    /** The identity the next new frame gets: frames are never reused. */
    var nextFrame: nat

    ghost predicate Valid()
      reads this
    {
      FramesBelow(rows, nextFrame) && DistinctFrames(rows)
    }

    /** `__init__` and `create_widgets`: an empty mass entry and three
        fresh rows. */
    constructor ()
      ensures Valid() && massEntry == []
      ensures |rows| == MinRows
      ensures forall i :: 0 <= i < |rows| ==> rows[i].path == [] && rows[i].concentration == DefaultConcentration
    {
      rows := [];
      massEntry := [];
      nextFrame := 0;
      new;
      var n := 0;
      while n < MinRows
        invariant 0 <= n <= MinRows && |rows| == n && Valid() && massEntry == []
        invariant forall i :: 0 <= i < |rows| ==> rows[i].path == [] && rows[i].concentration == DefaultConcentration
      {
        var _ := AddRow();
        n := n + 1;
      }
    }

    /** `add_row()`: one new row, with a frame no other row has, at the
        end. */
    method AddRow() returns (frame: nat)
      requires Valid()
      modifies this
      ensures Valid() && massEntry == old(massEntry)
      ensures forall i :: 0 <= i < |old(rows)| ==> old(rows)[i].frame != frame
      ensures rows == old(rows) + [Row(frame, [], DefaultConcentration)]
    {
      frame := nextFrame;
      rows := rows + [Row(frame, [], DefaultConcentration)];
      nextFrame := nextFrame + 1;
    }

    /** `delete_row(frame)`. */
    method DeleteRow(frame: nat)
      requires Valid()
      modifies this
      ensures Valid() && massEntry == old(massEntry)
      ensures rows == Without(old(rows), frame)
    {
      WithoutMembers(rows, frame);
      WithoutDistinct(rows, frame);
      rows := Without(rows, frame);
    }

    /** `select_file(frame)` once the dialog returned `path` ("" when it
        was cancelled): every row of that frame shows the path. */
    method SelectFile(frame: nat, path: string)
      requires Valid()
      modifies this
      ensures Valid() && massEntry == old(massEntry)
      ensures rows == if path == [] then old(rows) else ShowPath(old(rows), frame, path)
    {
      if path != [] {
        var rs := rows;
        var i := 0;
        while i < |rs|
          invariant 0 <= i <= |rs| == |rows|
          invariant forall k :: 0 <= k < |rs| ==> rs[k].frame == rows[k].frame
          invariant forall k :: 0 <= k < i ==> rs[k] == ShowPath(rows, frame, path)[k]
          invariant forall k :: i <= k < |rs| ==> rs[k] == rows[k]
        {
          if rs[i].frame == frame {
            rs := rs[i := rs[i].(path := path)];
          }
          i := i + 1;
        }
        assert rs == ShowPath(rows, frame, path);
        SameFrames(rows, rs, nextFrame);
        rows := rs;
      }
    }

    /** `calibrate()`: the guards, then one pass over the rows building
        `x`, `y` and `s`, then the weights and the fit. */
    method Calibrate(files: map<string, DataFile>, toFloat: string -> Option<real>,
                     sqrt: real -> real) returns (r: Outcome)
      ensures r == CalibrateResult(massEntry, rows, files, toFloat, sqrt)
    {
      if massEntry == [] {
        return NoMass;
      }
      var parsed := ParseInt(massEntry);
      if parsed.None? {
        return Raised;
      }
      var mass := parsed.value;
      if |rows| < MinRows {
        return TooFewRows;
      }
      var stop, x, y, s, finite;
      ghost var ps;
      stop, x, y, s, finite, ps := Collect(rows, Reader(files, mass, toFloat), sqrt);
      if stop.Some? {
        return stop.value;
      }
      r := FitArrays(x, y, s, finite, ps, sqrt);
    }
  }

  /** `x`, `y`, `s` hold the entries of the points `ps`, and `finite`
      says whether every signal was non-empty (where one was empty numpy
      computes NaN, and the model keeps a placeholder instead). */
  ghost predicate Arrays(ps: seq<Point>, x: seq<real>, y: seq<real>, s: seq<real>, finite: bool,
                         sqrt: real -> real)
  {
    x == Concs(ps) && |y| == |s| == |ps| && finite == NonemptySignals(ps)
    && (finite ==> y == Means(ps) && s == Stds(ps, sqrt))
  }

  /** `calibrate`'s loop over the rows: each row is read by `read`, and
      `x`, `y` and `s` gain one entry per row, until a row ends the
      calibration (`stop`). */
  method Collect(rows: seq<Row>, read: Row -> Step<Point>, sqrt: real -> real)
    returns (stop: Option<Outcome>, x: seq<real>, y: seq<real>, s: seq<real>, finite: bool, ghost ps: seq<Point>)
    ensures stop.Some? ==> ReadRows(rows, read) == Stop(stop.value)
    ensures stop.None? ==> ReadRows(rows, read) == Ok(ps)
    ensures stop.None? ==> Arrays(ps, x, y, s, finite, sqrt)
  {
    x, y, s := [], [], [];
    finite := true;
    ps := [];
    var i := 0;
    while i < |rows|
      invariant 0 <= i <= |rows|
      invariant ReadRows(rows[..i], read) == Ok(ps)
      invariant Arrays(ps, x, y, s, finite, sqrt)
    {
      var step := read(rows[i]);
      if step.Stop? {
        ReadRowsHalt(rows, i, read, ps);
        return Some(step.outcome), x, y, s, finite, ps;
      }
      ReadRowsStep(rows, i, read, ps, step.value);
      x, y, s, finite := AddPoint(x, y, s, finite, ps, step.value, sqrt);
      ps := ps + [step.value];
      i := i + 1;
    }
    assert rows[..i] == rows;
    stop := None;
  }

  /** The appends of one loop iteration: `x.append(float(conc))`,
      `y.append(np.mean(signal))`, `s.append(np.std(signal))`. */
  method AddPoint(x: seq<real>, y: seq<real>, s: seq<real>, finite: bool, ghost ps: seq<Point>,
                  p: Point, sqrt: real -> real)
    returns (x': seq<real>, y': seq<real>, s': seq<real>, finite': bool)
    requires Arrays(ps, x, y, s, finite, sqrt)
    ensures Arrays(ps + [p], x', y', s', finite', sqrt)
  {
    AppendPoint(ps, p, sqrt);
    x' := x + [p.conc];
    if p.signal == [] {
      // numpy's mean and standard deviation of an empty signal are NaN
      finite' := false;
      y' := y + [0.0];
      s' := s + [0.0];
    } else {
      finite' := finite;
      y' := y + [Mean(p.signal)];
      s' := s + [Std(p.signal, sqrt)];
    }
  }

  /** The end of `calibrate`: `w = 1 / s**2`, then `wls(x, y, w)`. */
  method FitArrays(x: seq<real>, y: seq<real>, s: seq<real>, finite: bool, ghost ps: seq<Point>,
                   sqrt: real -> real) returns (r: Outcome)
    requires ps != [] && Arrays(ps, x, y, s, finite, sqrt)
    ensures r == FitPoints(ps, sqrt)
  {
    if !finite {
      return NotFinite;
    }
    assert FitPoints(ps, sqrt) == FitData(x, y, s, sqrt);
    if exists k :: 0 <= k < |s| && s[k] == 0.0 {
      return NotFinite;
    }
    var w := Weights(s);
    SumPositive(w);
    r := FitWeighted(x, y, s, w, sqrt);
  }

  // ---------------------------------------------------------------------
  // Properties of the rows

  lemma {:induction false} WithoutMembers(rows: seq<Row>, frame: nat)
    ensures forall r :: r in Without(rows, frame) <==> r in rows && r.frame != frame
  {
    if rows != [] {
      WithoutMembers(rows[1..], frame);
      assert rows == [rows[0]] + rows[1..];
    }
  }

  lemma SameFrames(a: seq<Row>, b: seq<Row>, n: nat)
    requires FramesBelow(a, n) && DistinctFrames(a) && |a| == |b|
    requires forall k :: 0 <= k < |a| ==> b[k].frame == a[k].frame
    ensures FramesBelow(b, n) && DistinctFrames(b)
  {
  }

  /** Deleting keeps the other rows in their order: it works row by row. */
  lemma {:induction false} WithoutConcat(a: seq<Row>, b: seq<Row>, frame: nat)
    ensures Without(a + b, frame) == Without(a, frame) + Without(b, frame)
  {
    if a != [] {
      WithoutConcat(a[1..], b, frame);
      assert (a + b)[1..] == a[1..] + b;
    } else {
      assert a + b == b;
    }
  }

  lemma {:induction false} WithoutDistinct(rows: seq<Row>, frame: nat)
    requires DistinctFrames(rows)
    ensures DistinctFrames(Without(rows, frame))
  {
    if rows != [] {
      WithoutDistinct(rows[1..], frame);
      WithoutMembers(rows[1..], frame);
      var rest := Without(rows[1..], frame);
      forall j | 0 <= j < |rest|
        ensures rows[0].frame != rest[j].frame
      {
        assert rest[j] in rest;
        var t :| 0 <= t < |rows| - 1 && rows[1..][t] == rest[j];
        assert rows[t + 1] == rest[j];
      }
    }
  }

  /** Deleting a frame no row has changes nothing. */
  lemma {:induction false} WithoutAbsent(rows: seq<Row>, frame: nat)
    requires forall i :: 0 <= i < |rows| ==> rows[i].frame != frame
    ensures Without(rows, frame) == rows
  {
    if rows != [] {
      WithoutAbsent(rows[1..], frame);
    }
  }

  /** `delete_row` undoes `add_row`: deleting the frame just added gives
      back the rows there were before. */
  lemma AddThenDelete(rows: seq<Row>, frame: nat, path: string, conc: string)
    requires forall i :: 0 <= i < |rows| ==> rows[i].frame != frame
    ensures Without(rows + [Row(frame, path, conc)], frame) == rows
  {
    WithoutConcat(rows, [Row(frame, path, conc)], frame);
    WithoutAbsent(rows, frame);
  }

  /** With distinct frames, deleting a frame that is present removes
      exactly one row. */
  lemma {:induction false} WithoutOne(rows: seq<Row>, frame: nat, i: nat)
    requires DistinctFrames(rows) && i < |rows| && rows[i].frame == frame
    ensures Without(rows, frame) == rows[..i] + rows[i + 1..]
  {
    var tail := rows[1..];
    if i == 0 {
      assert forall k :: 0 <= k < |tail| ==> tail[k].frame == rows[k + 1].frame;
      WithoutAbsent(tail, frame);
      assert rows[..0] + rows[1..] == tail;
    } else {
      assert DistinctFrames(tail) by {
        assert forall k :: 0 <= k < |tail| ==> tail[k] == rows[k + 1];
      }
      WithoutOne(tail, frame, i - 1);
      assert rows[..i] == [rows[0]] + tail[..i - 1];
      assert rows[i + 1..] == tail[i..];
    }
  }

  // ---------------------------------------------------------------------
  // Properties of `calibrate`

  /** The guards: an empty mass entry is reported first, whatever the
      rows and files; with a mass, fewer than three rows are reported
      before any file is read; neither outcome arises in any other way. */
  lemma CalibrateGuards(massEntry: string, rows: seq<Row>, files: map<string, DataFile>,
                        toFloat: string -> Option<real>, sqrt: real -> real)
    ensures CalibrateResult(massEntry, rows, files, toFloat, sqrt) == NoMass <==> massEntry == []
    ensures CalibrateResult(massEntry, rows, files, toFloat, sqrt) == TooFewRows <==>
      massEntry != [] && ParseInt(massEntry).Some? && |rows| < MinRows
  {
    if massEntry != [] && ParseInt(massEntry).Some? && |rows| >= MinRows {
      var mass := ParseInt(massEntry).value;
      ReadRowsStopKinds(rows, files, mass, toFloat);
      match ReadRows(rows, Reader(files, mass, toFloat))
      case Stop(o) =>
      case Ok(ps) =>
        var r := FitPoints(ps, sqrt);
        assert r.NotFinite? || r.Fitted?;
    }
  }

  /** A row read in full is a row whose file is readable and lists the
      mass among the whitespace header tokens from the third onward. */
  lemma ReadRowFile(row: Row, files: map<string, DataFile>, mass: int,
                    toFloat: string -> Option<real>)
    requires ReadRow(row, files, mass, toFloat).Ok?
    ensures row.path in files
    ensures WsMasses(files[row.path].header).Some?
    ensures mass in WsMasses(files[row.path].header).value
  {
  }

  /** The point of a row read in full: its signal is column `index + 1`
      of the file, where `index` is the mass's first position among the
      header masses, and its concentration is the parsed entry. */
  lemma ReadRowColumn(row: Row, files: map<string, DataFile>, mass: int,
                      toFloat: string -> Option<real>)
    requires ReadRow(row, files, mass, toFloat).Ok?
    ensures row.path in files && WsMasses(files[row.path].header).Some?
    ensures LoadColumn(files[row.path].rows, IndexOf(WsMasses(files[row.path].header).value, mass).value + 1)
      == Some(ReadRow(row, files, mass, toFloat).value.signal)
    ensures toFloat(row.concentration) == Some(ReadRow(row, files, mass, toFloat).value.conc)
  {
    ReadRowFile(row, files, mass, toFloat);
  }

  /** A readable file whose header masses parse aborts the calibration
      exactly when it does not list the mass. */
  lemma ReadRowMissing(row: Row, files: map<string, DataFile>, mass: int,
                       toFloat: string -> Option<real>)
    requires row.path in files && WsMasses(files[row.path].header).Some?
    ensures ReadRow(row, files, mass, toFloat) == Stop(MassMissing(row.path)) <==>
      mass !in WsMasses(files[row.path].header).value
  {
  }

  /** For a file written with a standard header, the column the
      calibration reads is the one the header names after the mass. */
  lemma CalibrationColumn(ms: seq<int>, mass: int)
    requires mass in ms
    ensures WsMasses(HeaderLine(ms)) == Some(ms)
    ensures IndexOf(ms, mass).Some? && |TabFields(HeaderLine(ms))| == |ms| + 1
    ensures TabFields(HeaderLine(ms))[IndexOf(ms, mass).value + 1] == IntToString(mass)
  {
    WsMassesHeaderLine(ms);
    HeaderLineColumns(ms, IndexOf(ms, mass).value + 1);
  }

  /** Every read row contributed a point, in row order. */
  lemma {:induction false} ReadRowsPoints(rows: seq<Row>, read: Row -> Step<Point>)
    requires ReadRows(rows, read).Ok?
    ensures forall k :: 0 <= k < |rows| ==> read(rows[k]) == Ok(ReadRows(rows, read).value[k])
  {
    if rows != [] {
      var init := rows[..|rows| - 1];
      ReadRowsPoints(init, read);
      forall k | 0 <= k < |rows| - 1
        ensures rows[k] == init[k]
      {
      }
    }
  }

  /** The converse: rows each of which is read in full into the matching
      point are read in full into those points. */
  lemma {:induction false} ReadRowsOfPoints(rows: seq<Row>, read: Row -> Step<Point>, ps: seq<Point>)
    requires |ps| == |rows| && forall k :: 0 <= k < |rows| ==> read(rows[k]) == Ok(ps[k])
    ensures ReadRows(rows, read) == Ok(ps)
  {
    if rows != [] {
      var n := |rows| - 1;
      ReadRowsOfPoints(rows[..n], read, ps[..n]);
      assert ps == ps[..n] + [ps[n]];
    }
  }

  /** A reading that stops was stopped by one of the rows, and every row
      before that one was read in full. */
  lemma {:induction false} ReadRowsStopRow(rows: seq<Row>, read: Row -> Step<Point>) returns (k: nat)
    requires ReadRows(rows, read).Stop?
    ensures k < |rows| && read(rows[k]) == Stop(ReadRows(rows, read).outcome)
    ensures forall j :: 0 <= j < k ==> read(rows[j]).Ok?
  {
    var n := |rows| - 1;
    var init := rows[..n];
    if ReadRows(init, read).Stop? {
      k := ReadRowsStopRow(init, read);
      assert rows[k] == init[k];
      forall j | 0 <= j < k
        ensures read(rows[j]).Ok?
      {
        assert rows[j] == init[j];
      }
    } else {
      k := n;
      ReadRowsPoints(init, read);
      forall j | 0 <= j < k
        ensures read(rows[j]).Ok?
      {
        assert rows[j] == init[j];
      }
    }
  }

  /** `calibrate`'s reading stops only on an unreadable file, a file that
      does not list the mass, or an exception. */
  lemma ReadRowsStopKinds(rows: seq<Row>, files: map<string, DataFile>, mass: int,
                          toFloat: string -> Option<real>)
    ensures var r := ReadRows(rows, Reader(files, mass, toFloat));
      r.Stop? ==> r.outcome.Unreadable? || r.outcome.MassMissing? || r.outcome.Raised?
  {
    if ReadRows(rows, Reader(files, mass, toFloat)).Stop? {
      var k := ReadRowsStopRow(rows, Reader(files, mass, toFloat));
      assert Reader(files, mass, toFloat)(rows[k]) == ReadRow(rows[k], files, mass, toFloat);
    }
  }

  /** Reading one more row that yields a point. */
  lemma ReadRowsStep(rows: seq<Row>, i: nat, read: Row -> Step<Point>, ps: seq<Point>, p: Point)
    requires i < |rows| && ReadRows(rows[..i], read) == Ok(ps)
    requires read(rows[i]) == Ok(p)
    ensures ReadRows(rows[..i + 1], read) == Ok(ps + [p])
  {
    assert rows[..i + 1][..i] == rows[..i];
  }

  /** Reading one more row that ends the calibration ends the whole
      reading the same way. */
  lemma ReadRowsHalt(rows: seq<Row>, i: nat, read: Row -> Step<Point>, ps: seq<Point>)
    requires i < |rows| && ReadRows(rows[..i], read) == Ok(ps)
    requires read(rows[i]).Stop?
    ensures ReadRows(rows, read) == Stop(read(rows[i]).outcome)
  {
    assert rows[..i + 1][..i] == rows[..i];
    ReadRowsStop(rows, i + 1, read);
  }

  /** The arrays of the points gain the new point's entries at the end. */
  lemma AppendPoint(ps: seq<Point>, p: Point, sqrt: real -> real)
    ensures Concs(ps + [p]) == Concs(ps) + [p.conc]
    ensures NonemptySignals(ps + [p]) <==> NonemptySignals(ps) && p.signal != []
    ensures NonemptySignals(ps + [p]) ==> Means(ps + [p]) == Means(ps) + [Mean(p.signal)]
    ensures NonemptySignals(ps + [p]) ==> Stds(ps + [p], sqrt) == Stds(ps, sqrt) + [Std(p.signal, sqrt)]
  {
    var qs := ps + [p];
    if NonemptySignals(ps) && p.signal != [] {
      forall k | 0 <= k < |qs|
        ensures qs[k].signal != []
      {
        if k < |ps| {
          assert qs[k] == ps[k];
        }
      }
    }
    if NonemptySignals(qs) {
      forall k | 0 <= k < |ps|
        ensures ps[k].signal != []
      {
        assert qs[k] == ps[k];
      }
      assert qs[|ps|] == p;
    }
  }

  /** Once a row ends the calibration, the rows after it are not read. */
  lemma {:induction false} ReadRowsStop(rows: seq<Row>, j: nat, read: Row -> Step<Point>)
    requires j <= |rows| && ReadRows(rows[..j], read).Stop?
    ensures ReadRows(rows, read) == ReadRows(rows[..j], read)
    decreases |rows| - j
  {
    if j < |rows| {
      var init := rows[..|rows| - 1];
      assert init[..j] == rows[..j];
      ReadRowsStop(init, j, read);
    } else {
      assert rows[..j] == rows;
    }
  }

  /** The arrays of a fit: `x` the concentrations, one mean and one
      standard deviation per point, every weight positive and the inverse of
      the point's variance, and a line through the weighted centroid. */
  lemma FitDataFitted(x: seq<real>, y: seq<real>, s: seq<real>, sqrt: real -> real)
    requires |x| == |y| == |s| > 0 && FitData(x, y, s, sqrt).Fitted?
    ensures forall k :: 0 <= k < |s| ==> s[k] != 0.0
    ensures var r := FitData(x, y, s, sqrt);
      r.x == x && r.y == y && r.s == s && r.w == Weights(s)
    ensures Sum(Weights(s)) > 0.0
    ensures var f := FitData(x, y, s, sqrt).fit;
      f.intercept + f.slope * M(x, Weights(s)) == M(y, Weights(s))
  {
    SumPositive(Weights(s));
  }

  /** A fit comes from at least three rows, one point per row in row
      order, with `x` the rows' concentrations. */
  lemma CalibrateFitted(massEntry: string, rows: seq<Row>, files: map<string, DataFile>,
                        toFloat: string -> Option<real>, sqrt: real -> real)
    requires CalibrateResult(massEntry, rows, files, toFloat, sqrt).Fitted?
    ensures var r := CalibrateResult(massEntry, rows, files, toFloat, sqrt);
      |r.x| == |r.y| == |r.s| == |r.w| == |rows| >= MinRows
      && (forall k :: 0 <= k < |rows| ==> toFloat(rows[k].concentration) == Some(r.x[k]))
      && r == FitData(r.x, r.y, r.s, sqrt)
  {
    var mass := ParseInt(massEntry).value;
    ReadRowsStopKinds(rows, files, mass, toFloat);
    var ps := ReadRows(rows, Reader(files, mass, toFloat)).value;
    ReadRowsPoints(rows, Reader(files, mass, toFloat));
    assert NonemptySignals(ps);
    FitDataFitted(Concs(ps), Means(ps), Stds(ps, sqrt), sqrt);
    forall k | 0 <= k < |rows|
      ensures toFloat(rows[k].concentration) == Some(Concs(ps)[k])
    {
      assert Reader(files, mass, toFloat)(rows[k]) == Ok(ps[k]);
      ReadRowColumn(rows[k], files, mass, toFloat);
    }
  }
}
