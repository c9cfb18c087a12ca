/** The Data Selector of data_selector.py: the columns of a data file that
    hold the chosen masses are copied, chunk by chunk, into a new file whose
    header names those masses; the window narrows the mass boxes to the
    masses every chosen file lists, and suggests a name for each output
    file. */
module Selector {
  import opened Text
  import opened Channels
  import opened Checkboxes

  // ---------------------------------------------------------------------
  // Counting lines

  /** `line_count(infile)`: `readline()` until it returns the empty string,
      counting the lines read; `text` is the file's content. An empty file
      cannot be mapped: `mmap.mmap` raises `ValueError`, here `None`. */
  method LineCount(text: string) returns (r: Option<nat>)
    ensures r.None? <==> text == []
    ensures r.Some? ==> r.value == |Lines(text)|
    ensures r.Some? ==> r.value == Count(text, '\n') + (if text[|text| - 1] != '\n' then 1 else 0)
  {
    if text == [] {
      return None;
    }
    var lines := 0;
    var rest := text;
    while rest != []
      invariant lines + |Lines(rest)| == |Lines(text)|
      decreases |rest|
    {
      var i := Find(rest, '\n');
      // one `readline()`: up to and including the next newline
      LinesNext(rest);
      if i == |rest| {
        rest := [];
      } else {
        rest := rest[i + 1..];
      }
      lines := lines + 1;
    }
    LinesCount(text);
    r := Some(lines);
  }

  // ---------------------------------------------------------------------
  // Columns

  /** `[available_masses.index(int(i)) for i in masses]`: the first position
      of each requested mass among the header masses; `None` when one is
      missing (`index` raises `ValueError`). */
  function Positions(available: seq<int>, masses: seq<int>): (r: Option<seq<nat>>)
    ensures r.Some? <==> forall j :: 0 <= j < |masses| ==> masses[j] in available
    ensures r.Some? ==> (|r.value| == |masses| &&
      forall j :: 0 <= j < |masses| ==> r.value[j] == IndexOf(available, masses[j]).value)
  {
    if masses == [] then Some([])
    else
      match IndexOf(available, masses[0])
      case None => None
      case Some(k) =>
        match Positions(available, masses[1..])
        case None => None
        case Some(rest) => Some([k] + rest)
  }

  /** `columns` as written: `[0]`, the push-number column, then the
      positions themselves. */
  function Columns(available: seq<int>, masses: seq<int>): Option<seq<nat>> {
    match Positions(available, masses)
    case None => None
    case Some(ps) => Some([0] + ps)
  }

  /** `columns` as intended: each position moved past the push-number
      column, which comes first in every row. */
  function ColumnsFixed(available: seq<int>, masses: seq<int>): Option<seq<nat>> {
    match Positions(available, masses)
    case None => None
    case Some(ps) => Some([0] + seq(|ps|, j requires 0 <= j < |ps| => ps[j] + 1))
  }

  /** The header label is no mass's name. */
  lemma LabelIsNoMass(m: int)
    ensures Label != IntToString(m)
  {
    IntToStringIsToken(m);
    assert IsSpace(Label[4]);
  }

  /** As written, the column chosen for one mass is not the one the
      standard header names after it. */
  lemma ColumnOfMassAsWritten(ms: seq<int>, m: int)
    requires m in ms
    ensures IndexOf(ms, m).Some?
    ensures var k := IndexOf(ms, m).value;
      k <= |ms| && ColumnName(ms, k) != IntToString(m)
  {
    var k := IndexOf(ms, m).value;
    if k == 0 {
      LabelIsNoMass(m);
    } else {
      assert ms[k - 1] != m;
      IntToStringInjective(ms[k - 1], m);
    }
  }

  /** As written, in a file with the standard header (whose tab fields
      are the column names, `HeaderLineColumns`) no column selected for a
      mass is the column the header names after that mass: it is the column
      before it, the push numbers when the mass comes first. */
  lemma ColumnsAsWritten(ms: seq<int>, masses: seq<int>)
    requires forall j :: 0 <= j < |masses| ==> masses[j] in ms
    ensures Columns(ms, masses).Some?
    ensures var cols := Columns(ms, masses).value;
      |cols| == |masses| + 1 && cols[0] == 0 &&
      forall j :: 0 <= j < |masses| ==>
        cols[j + 1] <= |ms| && ColumnName(ms, cols[j + 1]) != IntToString(masses[j])
  {
    var ps := Positions(ms, masses).value;
    var cols := Columns(ms, masses).value;
    assert cols == [0] + ps;
    forall j | 0 <= j < |masses|
      ensures cols[j + 1] <= |ms| && ColumnName(ms, cols[j + 1]) != IntToString(masses[j])
    {
      assert cols[j + 1] == IndexOf(ms, masses[j]).value by {
        assert cols[j + 1] == ps[j];
      }
      ColumnOfMassAsWritten(ms, masses[j]);
    }
  }

  /** The smallest case: in a file holding the masses 75 and 76, selecting
      76 copies the column headed 75. */
  lemma ColumnsAsWrittenExample()
    ensures Columns([75, 76], [76]) == Some([0, 1])
    ensures ColumnName([75, 76], 1) == IntToString(75) != IntToString(76)
  {
    assert IndexOf([75, 76], 76) == Some(1) by {
      assert [75, 76][1..] == [76];
    }
    assert Positions([75, 76], [76]) == Some([1]) by {
      assert [76][1..] == [];
      assert Positions([75, 76], []) == Some([]);
      assert [1] + [] == [1];
    }
    assert [0] + [1] == [0, 1];
    IntToStringInjective(75, 76);
  }

  /** As intended, in a file with the standard header the column selected
      for each mass is the one the header names after it. */
  lemma ColumnsFixedNames(ms: seq<int>, masses: seq<int>)
    requires forall j :: 0 <= j < |masses| ==> masses[j] in ms
    ensures ColumnsFixed(ms, masses).Some?
    ensures var cols := ColumnsFixed(ms, masses).value;
      |cols| == |masses| + 1 && cols[0] == 0 &&
      forall j :: 0 <= j < |masses| ==>
        cols[j + 1] <= |ms| && ColumnName(ms, cols[j + 1]) == IntToString(masses[j])
  {
    var ps := Positions(ms, masses).value;
    var cols := ColumnsFixed(ms, masses).value;
    assert cols == [0] + seq(|ps|, j requires 0 <= j < |ps| => ps[j] + 1);
    forall j | 0 <= j < |masses|
      ensures cols[j + 1] <= |ms| && ColumnName(ms, cols[j + 1]) == IntToString(masses[j])
    {
      assert cols[j + 1] == IndexOf(ms, masses[j]).value + 1 by {
        assert cols[j + 1] == ps[j] + 1;
      }
    }
  }

  // ---------------------------------------------------------------------
  // Chunks and progress

  /** `CHUNKSIZE`: the rows in each chunk `pd.read_csv` yields. */
  const ChunkSize: nat := 1000000

  /** The number of chunks `pd.read_csv` yields for `n` data rows: all
      full but the last, and a single empty one when there are no rows. */
  function Chunks(n: nat): (c: nat)
    ensures c > 0 && c * ChunkSize >= n
    ensures n > 0 ==> (c - 1) * ChunkSize < n
    ensures n == 0 ==> c == 1
  {
    if n == 0 then 1 else (n + ChunkSize - 1) / ChunkSize
  }

  /** One past the last row of chunk `k`: `chunk.index[-1] + 1`. */
  function ChunkEnd(k: nat, n: nat): nat {
    if (k + 1) * ChunkSize < n then (k + 1) * ChunkSize else n
  }

  /** The progress yielded after chunk `k` of `n` data rows as written:
      `100 - (1 - chunk.index[-1] / lines) * 100`. */
  function Progress(k: nat, n: nat, lines: nat): real
    requires lines > 0
  {
    100.0 - (1.0 - (ChunkEnd(k, n) - 1) as real / lines as real) * 100.0
  }

  /** The progress as intended: the share of the data rows (every line but
      the header) written so far. */
  function ProgressFixed(k: nat, n: nat, lines: nat): real
    requires lines > 1
  {
    100.0 * (ChunkEnd(k, n) as real / (lines - 1) as real)
  }

  /** Chunks end no earlier than earlier chunks, and every chunk that
      exists ends past its start and within the rows. */
  lemma ChunkEndOrder(k1: nat, k2: nat, n: nat)
    requires n > 0 && k1 <= k2 < Chunks(n)
    ensures 0 < ChunkEnd(k1, n) <= ChunkEnd(k2, n) <= n
    ensures k2 == Chunks(n) - 1 ==> ChunkEnd(k2, n) == n
  {
    assert (k1 + 1) * ChunkSize <= (k2 + 1) * ChunkSize;
  }

  /** As written, each progress value is `100 * chunk.index[-1] / lines`. */
  lemma ProgressValue(k: nat, n: nat, lines: nat)
    requires lines > 0
    ensures Progress(k, n, lines) == 100.0 * ((ChunkEnd(k, n) - 1) as real / lines as real)
  {
    var x := (ChunkEnd(k, n) - 1) as real / lines as real;
    assert Progress(k, n, lines) == 100.0 - (1.0 - x) * 100.0;
  }

  /** As written, the values never decrease from one chunk to the next
      and stay within 0 to 100 when `lines` is at least the number of
      rows. */
  lemma ProgressShare(k1: nat, k2: nat, n: nat, lines: nat)
    requires n > 0 && k1 <= k2 < Chunks(n) && lines > 0
    ensures Progress(k1, n, lines) <= Progress(k2, n, lines)
    ensures n <= lines ==> 0.0 <= Progress(k1, n, lines) && Progress(k2, n, lines) < 100.0
  {
    ChunkEndOrder(k1, k2, n);
    ProgressValue(k1, n, lines);
    ProgressValue(k2, n, lines);
    var l := lines as real;
    var a, b := (ChunkEnd(k1, n) - 1) as real, (ChunkEnd(k2, n) - 1) as real;
    DivMonotone(a, b, l);
    if n <= lines {
      Fraction(a, l);
      Fraction(b, l);
    }
  }

  lemma DivMonotone(a: real, b: real, l: real)
    requires a <= b && l > 0.0
    ensures a / l <= b / l
  {
    assert b / l - a / l == (b - a) / l;
  }

  lemma Fraction(a: real, l: real)
    requires 0.0 <= a < l
    ensures 0.0 <= a / l < 1.0
  {
  }

  lemma DivBounds(a: real, l: real)
    requires 0.0 < a && 0.0 < l
    ensures 0.0 < a / l && l / l == 1.0
  {
  }

  /** As written, a file of a header and `n` rows (`lines == n + 1`) ends
      short of 100: the last value is `100 * (n - 1) / (n + 1)`. */
  lemma ProgressFinalShort(n: nat)
    requires n > 0
    ensures Progress(Chunks(n) - 1, n, n + 1) == 100.0 * ((n - 1) as real / (n + 1) as real)
    ensures Progress(Chunks(n) - 1, n, n + 1) < 100.0
  {
    ChunkEndOrder(Chunks(n) - 1, Chunks(n) - 1, n);
    ProgressValue(Chunks(n) - 1, n, n + 1);
    Fraction((n - 1) as real, (n + 1) as real);
  }

  /** As intended, the values never decrease, stay within 0 to 100 and
      the last one is exactly 100 when `lines` counts the header and one
      line per row. */
  lemma ProgressFixedRange(k1: nat, k2: nat, n: nat)
    requires n > 0 && k1 <= k2 < Chunks(n)
    ensures 0.0 < ProgressFixed(k1, n, n + 1) <= ProgressFixed(k2, n, n + 1) <= 100.0
    ensures k2 == Chunks(n) - 1 ==> ProgressFixed(k2, n, n + 1) == 100.0
  {
    ChunkEndOrder(k1, k2, n);
    var l := n as real;
    var a, b := ChunkEnd(k1, n) as real, ChunkEnd(k2, n) as real;
    assert ProgressFixed(k1, n, n + 1) == 100.0 * (a / l);
    assert ProgressFixed(k2, n, n + 1) == 100.0 * (b / l);
    DivMonotone(a, b, l);
    DivMonotone(b, l, l);
    DivBounds(a, l);
  }

  // ---------------------------------------------------------------------
  // Selecting the columns

  /** What `data_selector` produces: the output file and the progress
      values it yields, or `Failed` where it raises. A file with a header
      and no data rows is `HeaderOnly`: the output header is written, then
      the one empty chunk pandas yields makes `chunk.index[-1]` raise
      `IndexError`. */
  datatype Selection =
    | Failed
    | HeaderOnly(out: DataFile)
    | Written(out: DataFile, progress: seq<real>)

  /** `data_selector(masses, infile, outfile)` with the columns as intended,
      on a file whose first line is `file.header` and whose data rows are
      `file.rows`, one line each, so that `line_count` is `|file.rows| + 1`. */
  function DataSelector(masses: seq<int>, file: DataFile): Selection {
    match WsMasses(file.header)
    case None => Failed
    case Some(available) =>
      match ColumnsFixed(available, masses)
      case None => Failed
      case Some(cols) =>
        match LoadColumns(file.rows, cols)
        case None => Failed
        case Some(table) =>
          var n := |file.rows|;
          if n == 0 then HeaderOnly(DataFile(HeaderLine(masses), []))
          else
            Written(DataFile(HeaderLine(masses), table),
                    seq(Chunks(n), k requires 0 <= k < Chunks(n) => ProgressFixed(k, n, n + 1)))
  }

  /** `data_selector` step by step: the header masses, the columns, the line
      count, then the chunks. */
  method RunDataSelector(masses: seq<int>, file: DataFile) returns (r: Selection)
    ensures r == DataSelector(masses, file)
  {
    var available := WsMasses(file.header);
    if available.None? {
      return Failed;
    }
    var cols := ColumnsFixed(available.value, masses);
    if cols.None? {
      return Failed;
    }
    if LoadColumns(file.rows, cols.value).None? {
      return Failed;
    }
    var out, progress, raised := WriteChunks(file.rows, cols.value, |file.rows| + 1);
    if raised {
      r := HeaderOnly(DataFile(HeaderLine(masses), out));
    } else {
      r := Written(DataFile(HeaderLine(masses), out), progress);
    }
  }

  /** The loop over `pd.read_csv(infile, delimiter="\t", chunksize=CHUNKSIZE)`:
      each chunk's selected columns are appended to the output, then the
      progress is yielded; `lines` is `line_count(infile)`, by which the
      progress divides. Writing in chunks writes the same rows as writing
      the whole table at once. pandas yields at least one chunk: without
      data rows it is empty, and `chunk.index[-1]` raises (`raised`). */
  method WriteChunks(rows: seq<seq<real>>, cols: seq<nat>, lines: nat)
    returns (out: seq<seq<real>>, progress: seq<real>, raised: bool)
    requires LoadColumns(rows, cols).Some?
    requires rows != [] ==> lines > 1
    ensures out == LoadColumns(rows, cols).value
    ensures raised <==> rows == []
    ensures raised ==> progress == []
    ensures !raised ==> |progress| == Chunks(|rows|)
    ensures forall k :: 0 <= k < |progress| ==> progress[k] == ProgressFixed(k, |rows|, lines)
  {
    var n := |rows|;
    out, progress, raised := [], [], false;
    var start, k := 0, 0;
    while k == 0 || start < n
      invariant start == if k * ChunkSize < n then k * ChunkSize else n
      invariant k > 0 ==> (k - 1) * ChunkSize < n
      invariant LoadColumns(rows[..start], cols).Some? && out == LoadColumns(rows[..start], cols).value
      invariant |progress| == k
      invariant forall j :: 0 <= j < k ==> progress[j] == ProgressFixed(j, n, lines)
      decreases n - start + (if k == 0 then 1 else 0)
    {
      var end := ChunkEnd(k, n);
      LoadColumnsAppend(rows, cols, start, end);
      out := out + LoadColumns(rows[start..end], cols).value;
      if end == start {
        // the chunk is empty: `chunk.index[-1]` raises `IndexError`
        assert rows == [];
        return out, [], true;
      }
      progress := progress + [ProgressFixed(k, n, lines)];
      start, k := end, k + 1;
    }
    assert rows[..start] == rows;
  }

  /** Selecting from the rows up to `b` is selecting from those up to `a`,
      then from those from `a` to `b`. */
  lemma LoadColumnsAppend(rows: seq<seq<real>>, cols: seq<nat>, a: nat, b: nat)
    requires a <= b <= |rows| && LoadColumns(rows, cols).Some?
    ensures LoadColumns(rows[..a], cols).Some? && LoadColumns(rows[a..b], cols).Some?
    ensures LoadColumns(rows[..b], cols).Some?
    ensures LoadColumns(rows[..b], cols).value ==
      LoadColumns(rows[..a], cols).value + LoadColumns(rows[a..b], cols).value
  {
    var t := LoadColumns(rows, cols).value;
    var x, y, z := LoadColumns(rows[..a], cols).value, LoadColumns(rows[a..b], cols).value,
      LoadColumns(rows[..b], cols).value;
    forall i | 0 <= i < b
      ensures z[i] == (x + y)[i]
    {
      if i < a {
        assert z[i] == t[i] == x[i];
      } else {
        assert z[i] == t[i] == y[i - a];
      }
    }
  }

  /** The stages of a selection that succeeded: the header masses, the
      columns for them, and the table loaded from those columns. */
  lemma DataSelectorParts(masses: seq<int>, file: DataFile) returns (available: seq<int>, cols: seq<nat>)
    requires DataSelector(masses, file).Written?
    ensures WsMasses(file.header) == Some(available)
    ensures ColumnsFixed(available, masses) == Some(cols)
    ensures LoadColumns(file.rows, cols).Some?
    ensures DataSelector(masses, file).out == DataFile(HeaderLine(masses), LoadColumns(file.rows, cols).value)
  {
    available := WsMasses(file.header).value;
    cols := ColumnsFixed(available, masses).value;
  }

  /** The columns the selector reads: the push numbers, then for each mass
      the column after its first position among the header masses. */
  lemma ColumnsFixedAt(available: seq<int>, masses: seq<int>)
    requires ColumnsFixed(available, masses).Some?
    ensures forall j :: 0 <= j < |masses| ==> masses[j] in available
    ensures var cols := ColumnsFixed(available, masses).value;
      |cols| == |masses| + 1 && cols[0] == 0 &&
      forall j :: 0 <= j < |masses| ==> cols[j + 1] == IndexOf(available, masses[j]).value + 1
  {
    var ps := Positions(available, masses).value;
    var cols := ColumnsFixed(available, masses).value;
    assert cols == [0] + seq(|ps|, j requires 0 <= j < |ps| => ps[j] + 1);
    forall j | 0 <= j < |masses|
      ensures cols[j + 1] == IndexOf(available, masses[j]).value + 1
    {
      assert cols[j + 1] == ps[j] + 1;
    }
  }

  /** What a successful selection needs of its input: a header whose
      fields after the second are whole numbers listing every requested
      mass, and rows holding the push number and the field after each
      requested mass's first position among the header masses. */
  lemma DataSelectorInput(masses: seq<int>, file: DataFile)
    requires DataSelector(masses, file).Written?
    ensures WsMasses(file.header).Some?
    ensures forall j :: 0 <= j < |masses| ==> masses[j] in WsMasses(file.header).value
    ensures forall i :: 0 <= i < |file.rows| ==> |file.rows[i]| > 0
    ensures forall i, j :: 0 <= i < |file.rows| && 0 <= j < |masses| ==>
      IndexOf(WsMasses(file.header).value, masses[j]).value + 1 < |file.rows[i]|
  {
    var available, cols := DataSelectorParts(masses, file);
    ColumnsFixedAt(available, masses);
    forall i, j | 0 <= i < |file.rows| && 0 <= j < |masses|
      ensures IndexOf(available, masses[j]).value + 1 < |file.rows[i]|
    {
      LoadColumnsCell(file.rows, cols, i, j + 1);
    }
    forall i | 0 <= i < |file.rows|
      ensures |file.rows[i]| > 0
    {
      LoadColumnsCell(file.rows, cols, i, 0);
    }
  }

  /** What the selector writes: the standard header naming the requested
      masses, then per row the push number and, for each requested mass in
      request order, the field after the push number at the mass's first
      position among the header masses (which `DataSelectorInput` shows
      every row has). */
  lemma DataSelectorOutput(masses: seq<int>, file: DataFile)
    requires DataSelector(masses, file).Written?
    ensures WsMasses(file.header).Some?
    ensures var out := DataSelector(masses, file).out;
      out.header == HeaderLine(masses) && RowsSelected(WsMasses(file.header).value, masses, file.rows, out.rows)
  {
    var available, cols := DataSelectorParts(masses, file);
    SelectedRows(available, masses, file.rows);
  }

  /** `table` has one row for each of `rows`, selected as `RowSelected` says. */
  predicate RowsSelected(available: seq<int>, masses: seq<int>, rows: seq<seq<real>>, table: seq<seq<real>>) {
    |table| == |rows| &&
    forall i :: 0 <= i < |rows| ==> RowSelected(available, masses, rows[i], table[i])
  }

  /** `out` holds the push number of `row` and then, for each mass in order,
      the field after the mass's first position among the header masses
      `available`. */
  predicate RowSelected(available: seq<int>, masses: seq<int>, row: seq<real>, out: seq<real>) {
    |out| == |masses| + 1 && 0 < |row| && out[0] == row[0] &&
    forall j :: 0 <= j < |masses| ==>
      IndexOf(available, masses[j]).Some? &&
      IndexOf(available, masses[j]).value + 1 < |row| &&
      out[j + 1] == row[IndexOf(available, masses[j]).value + 1]
  }

  /** The rows loaded from the selector's columns are the selected ones. */
  lemma SelectedRows(available: seq<int>, masses: seq<int>, rows: seq<seq<real>>)
    requires ColumnsFixed(available, masses).Some?
    requires LoadColumns(rows, ColumnsFixed(available, masses).value).Some?
    ensures RowsSelected(available, masses, rows, LoadColumns(rows, ColumnsFixed(available, masses).value).value)
  {
    var cols := ColumnsFixed(available, masses).value;
    var table := LoadColumns(rows, cols).value;
    forall i | 0 <= i < |rows|
      ensures RowSelected(available, masses, rows[i], table[i])
    {
      SelectedRow(available, masses, rows, i);
    }
  }

  lemma SelectedRow(available: seq<int>, masses: seq<int>, rows: seq<seq<real>>, i: int)
    requires ColumnsFixed(available, masses).Some?
    requires LoadColumns(rows, ColumnsFixed(available, masses).value).Some?
    requires 0 <= i < |rows|
    ensures RowSelected(available, masses, rows[i], LoadColumns(rows, ColumnsFixed(available, masses).value).value[i])
  {
    var cols := ColumnsFixed(available, masses).value;
    ColumnsFixedAt(available, masses);
    var out := LoadColumns(rows, cols).value[i];
    forall j | 0 <= j < |cols|
      ensures |out| == |cols| && cols[j] < |rows[i]| && out[j] == rows[i][cols[j]]
    {
      LoadColumnsCell(rows, cols, i, j);
    }
    RowOfColumns(available, masses, cols, rows[i], out);
  }

  /** A row loaded through the selector's columns is the selected row. */
  lemma RowOfColumns(available: seq<int>, masses: seq<int>, cols: seq<nat>, row: seq<real>, out: seq<real>)
    requires forall j :: 0 <= j < |masses| ==> masses[j] in available
    requires |cols| == |masses| + 1 && cols[0] == 0
    requires forall j :: 0 <= j < |masses| ==> cols[j + 1] == IndexOf(available, masses[j]).value + 1
    requires |out| == |cols|
    requires forall j :: 0 <= j < |cols| ==> cols[j] < |row| && out[j] == row[cols[j]]
    ensures RowSelected(available, masses, row, out)
  {
    forall j | 0 <= j < |masses|
      ensures IndexOf(available, masses[j]).Some?
      ensures IndexOf(available, masses[j]).value + 1 < |row|
      ensures out[j + 1] == row[IndexOf(available, masses[j]).value + 1]
    {
      assert cols[j + 1] < |row| && out[j + 1] == row[cols[j + 1]];
    }
  }

  /** A requested mass the header does not list makes the selector raise. */
  lemma DataSelectorMissing(masses: seq<int>, file: DataFile, j: nat)
    requires WsMasses(file.header).Some? && j < |masses|
    requires masses[j] !in WsMasses(file.header).value
    ensures DataSelector(masses, file) == Failed
  {
  }

  /** On a file with the standard header and complete rows, the selector
      succeeds whenever the header lists every requested mass and there is
      at least one row. */
  lemma DataSelectorStandardWritten(ms: seq<int>, masses: seq<int>, rows: seq<seq<real>>)
    requires rows != []
    requires forall j :: 0 <= j < |masses| ==> masses[j] in ms
    requires forall i :: 0 <= i < |rows| ==> |rows[i]| == |ms| + 1
    ensures DataSelector(masses, DataFile(HeaderLine(ms), rows)).Written?
  {
    WsMassesHeaderLine(ms);
    ColumnsFixedNames(ms, masses);
    var cols := ColumnsFixed(ms, masses).value;
    assert LoadColumns(rows, cols).Some? by {
      forall i, j | 0 <= i < |rows| && 0 <= j < |cols|
        ensures cols[j] < |rows[i]|
      {
        if j > 0 {
          assert cols[(j - 1) + 1] <= |ms|;
        }
      }
    }
  }

  /** A file whose header lists every requested mass but which has no
      data rows gets the output header and nothing else before the
      selector raises; every other outcome needs rows or a bad header. */
  lemma DataSelectorHeaderOnly(masses: seq<int>, file: DataFile)
    ensures DataSelector(masses, file).HeaderOnly? <==>
      file.rows == [] && WsMasses(file.header).Some? &&
      forall j :: 0 <= j < |masses| ==> masses[j] in WsMasses(file.header).value
    ensures DataSelector(masses, file).HeaderOnly? ==>
      DataSelector(masses, file).out == DataFile(HeaderLine(masses), [])
    ensures DataSelector(masses, file).Written? ==> file.rows != []
  {
    if file.rows == [] && WsMasses(file.header).Some? {
      var available := WsMasses(file.header).value;
      if ColumnsFixed(available, masses).Some? {
        assert LoadColumns([], ColumnsFixed(available, masses).value).Some?;
      }
    }
  }

  /** Reading the header the selector writes back, on tabs as the viewer
      does or on white space as the calibrator does, gives the requested
      masses (on tabs only when there is at least one). */
  lemma DataSelectorHeader(masses: seq<int>, file: DataFile)
    requires DataSelector(masses, file).Written?
    ensures masses != [] ==> TabMasses(DataSelector(masses, file).out.header) == Some(masses)
    ensures WsMasses(DataSelector(masses, file).out.header) == Some(masses)
  {
    assert DataSelector(masses, file).out.header == HeaderLine(masses);
    if masses != [] {
      TabMassesHeaderLine(masses);
    }
    WsMassesHeaderLine(masses);
  }

  /** The progress the selector yields never decreases, stays within 0 to
      100, and ends at 100; a file without rows yields none (`HeaderOnly`). */
  lemma DataSelectorProgress(masses: seq<int>, file: DataFile)
    requires DataSelector(masses, file).Written?
    ensures var p := DataSelector(masses, file).progress;
      (forall k1, k2 :: 0 <= k1 <= k2 < |p| ==> 0.0 < p[k1] <= p[k2] <= 100.0) &&
      file.rows != [] && p != [] && p[|p| - 1] == 100.0
  {
    var n := |file.rows|;
    var p := DataSelector(masses, file).progress;
    forall k1, k2 | 0 <= k1 <= k2 < |p|
      ensures 0.0 < p[k1] <= p[k2] <= 100.0
    {
      ProgressFixedRange(k1, k2, n);
    }
    if n > 0 {
      ProgressFixedRange(|p| - 1, |p| - 1, n);
    }
  }

  // ---------------------------------------------------------------------
  // The selector as written

  /** `data_selector` as written: the columns of `Columns`, which miss the
      push-number column by one, and the progress of `Progress`. */
  function DataSelectorAsWritten(masses: seq<int>, file: DataFile): Selection {
    match WsMasses(file.header)
    case None => Failed
    case Some(available) =>
      match Columns(available, masses)
      case None => Failed
      case Some(cols) =>
        match LoadColumns(file.rows, cols)
        case None => Failed
        case Some(table) =>
          var n := |file.rows|;
          if n == 0 then HeaderOnly(DataFile(HeaderLine(masses), []))
          else
            Written(DataFile(HeaderLine(masses), table),
                    seq(Chunks(n), k requires 0 <= k < Chunks(n) => Progress(k, n, n + 1)))
  }

  /** The columns as written are those as intended, each but the first
      moved back by one. */
  lemma ColumnsAt(available: seq<int>, masses: seq<int>)
    requires Columns(available, masses).Some?
    ensures ColumnsFixed(available, masses).Some?
    ensures var cols := Columns(available, masses).value;
      |cols| == |masses| + 1 && cols[0] == 0 &&
      forall j :: 0 <= j < |masses| ==> cols[j + 1] == IndexOf(available, masses[j]).value
  {
    var ps := Positions(available, masses).value;
    var cols := Columns(available, masses).value;
    assert cols == [0] + ps;
    forall j | 0 <= j < |masses|
      ensures cols[j + 1] == IndexOf(available, masses[j]).value
    {
      assert cols[j + 1] == ps[j];
    }
  }

  /** `table` has one row for each of `rows`, selected as written:
      `RowShifted` says how. */
  predicate RowsShifted(available: seq<int>, masses: seq<int>, rows: seq<seq<real>>, table: seq<seq<real>>) {
    |table| == |rows| &&
    forall i :: 0 <= i < |rows| ==> RowShifted(available, masses, rows[i], table[i])
  }

  /** `out` holds the push number of `row` and then, for each mass in order,
      the field AT the mass's first position among the header masses: the
      field before the one `RowSelected` takes. */
  predicate RowShifted(available: seq<int>, masses: seq<int>, row: seq<real>, out: seq<real>) {
    |out| == |masses| + 1 && 0 < |row| && out[0] == row[0] &&
    forall j :: 0 <= j < |masses| ==>
      IndexOf(available, masses[j]).Some? &&
      IndexOf(available, masses[j]).value < |row| &&
      out[j + 1] == row[IndexOf(available, masses[j]).value]
  }

  /** Wherever the corrected selector writes its output, the selector as
      written writes one too, under the same header and with as many rows,
      but each mass's field is taken one column to the left: the field
      before the one the header names after the mass. */
  lemma DataSelectorAsWrittenShifted(masses: seq<int>, file: DataFile)
    requires DataSelector(masses, file).Written?
    ensures WsMasses(file.header).Some?
    ensures DataSelectorAsWritten(masses, file).Written?
    ensures DataSelectorAsWritten(masses, file).out.header == DataSelector(masses, file).out.header
    ensures RowsShifted(WsMasses(file.header).value, masses, file.rows, DataSelectorAsWritten(masses, file).out.rows)
    ensures RowsSelected(WsMasses(file.header).value, masses, file.rows, DataSelector(masses, file).out.rows)
  {
    var available, cols := DataSelectorParts(masses, file);
    DataSelectorOutput(masses, file);
    ColumnsAt(available, masses);
    var acols := Columns(available, masses).value;
    ColumnsFixedAt(available, masses);
    ShiftedLoad(file.rows, acols, cols);
    var table := LoadColumns(file.rows, acols).value;
    var n := |file.rows|;
    assert DataSelectorAsWritten(masses, file) ==
      Written(DataFile(HeaderLine(masses), table),
              seq(Chunks(n), k requires 0 <= k < Chunks(n) => Progress(k, n, n + 1)));
    forall i | 0 <= i < n
      ensures RowShifted(available, masses, file.rows[i], table[i])
    {
      ShiftedRow(available, masses, acols, file.rows, i);
    }
  }

  /** Columns each one to the left of those of a load that succeeds load
      too. */
  lemma ShiftedLoad(rows: seq<seq<real>>, acols: seq<nat>, cols: seq<nat>)
    requires |acols| == |cols| && forall j :: 0 <= j < |cols| ==> acols[j] <= cols[j]
    requires LoadColumns(rows, cols).Some?
    ensures LoadColumns(rows, acols).Some?
  {
    forall i, j | 0 <= i < |rows| && 0 <= j < |acols|
      ensures acols[j] < |rows[i]|
    {
      LoadColumnsCell(rows, cols, i, j);
    }
  }

  lemma ShiftedRow(available: seq<int>, masses: seq<int>, acols: seq<nat>, rows: seq<seq<real>>, i: nat)
    requires |acols| == |masses| + 1 && acols[0] == 0
    requires forall j :: 0 <= j < |masses| ==> masses[j] in available
    requires forall j :: 0 <= j < |masses| ==> acols[j + 1] == IndexOf(available, masses[j]).value
    requires LoadColumns(rows, acols).Some? && i < |rows|
    ensures RowShifted(available, masses, rows[i], LoadColumns(rows, acols).value[i])
  {
    var out := LoadColumns(rows, acols).value[i];
    LoadColumnsCell(rows, acols, i, 0);
    forall j | 0 <= j < |masses|
      ensures IndexOf(available, masses[j]).value < |rows[i]|
      ensures out[j + 1] == rows[i][IndexOf(available, masses[j]).value]
    {
      LoadColumnsCell(rows, acols, i, j + 1);
    }
  }

  /** Both selectors yield one value per chunk; as written the last one
      falls short of 100 (`ProgressFinalShort`), as intended it is 100. */
  lemma DataSelectorAsWrittenProgress(masses: seq<int>, file: DataFile)
    requires DataSelector(masses, file).Written?
    ensures DataSelectorAsWritten(masses, file).Written?
    ensures var a, f := DataSelectorAsWritten(masses, file).progress, DataSelector(masses, file).progress;
      |a| == |f| > 0 && a[|a| - 1] < 100.0 && f[|f| - 1] == 100.0
  {
    DataSelectorAsWrittenShifted(masses, file);
    var n := |file.rows|;
    ProgressFinalShort(n);
    ProgressFixedRange(Chunks(n) - 1, Chunks(n) - 1, n);
  }
}
