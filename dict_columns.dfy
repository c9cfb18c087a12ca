/** Column choice through the header dictionary, as data_viewer.py and
    data_detector.py do it: `usecols=[masses[m] for m in wanted]` with
    `masses = dict(zip(available, range(1, len(available) + 1)))`. */
module DictColumns {
  import opened Text
  import opened Channels

  /** The position of the first wanted mass the dictionary lacks, where
      building `usecols` raises `KeyError`. */
  function FirstUnknown(d: map<int, nat>, wanted: seq<int>): (r: Option<nat>)
    ensures r.None? <==> forall j :: 0 <= j < |wanted| ==> wanted[j] in d
    ensures r.Some? ==> r.value < |wanted| && wanted[r.value] !in d
    ensures r.Some? ==> forall j :: 0 <= j < r.value ==> wanted[j] in d
  {
    if wanted == [] then None
    else if wanted[0] !in d then Some(0)
    else
      match FirstUnknown(d, wanted[1..])
      case None => None
      case Some(k) => Some(k + 1)
  }

  /** `[masses[m] for m in wanted]` once every mass is known. */
  function UseCols(d: map<int, nat>, wanted: seq<int>): (r: seq<nat>)
    requires forall j :: 0 <= j < |wanted| ==> wanted[j] in d
    ensures |r| == |wanted|
  {
    seq(|wanted|, j requires 0 <= j < |wanted| => d[wanted[j]])
  }

  /** `table` has one row per data row, holding for each wanted mass the
      row's field one past the mass's last position among `available`. */
  predicate DictTable(available: seq<int>, wanted: seq<int>, rows: seq<seq<real>>, table: seq<seq<real>>) {
    |table| == |rows| && forall i :: 0 <= i < |rows| ==> DictRow(available, wanted, rows[i], table[i])
  }

  predicate DictRow(available: seq<int>, wanted: seq<int>, row: seq<real>, y: seq<real>) {
    |y| == |wanted| &&
    forall j :: 0 <= j < |wanted| ==>
      LastIndexOf(available, wanted[j]).Some? &&
      LastIndexOf(available, wanted[j]).value + 1 < |row| &&
      y[j] == row[LastIndexOf(available, wanted[j]).value + 1]
  }

  /** `masses[m]` is one past the last position of `m` in the header. */
  lemma ColumnDictIsLast(available: seq<int>, m: int)
    requires m in ColumnDict(available)
    ensures LastIndexOf(available, m).Some?
    ensures ColumnDict(available)[m] == LastIndexOf(available, m).value + 1
  {
  }

  /** The columns `usecols` names, one past each wanted mass's last
      position. */
  lemma UseColsAt(available: seq<int>, wanted: seq<int>)
    requires forall j :: 0 <= j < |wanted| ==> wanted[j] in available
    ensures forall j :: 0 <= j < |wanted| ==> wanted[j] in ColumnDict(available)
    ensures forall j :: 0 <= j < |wanted| ==>
      LastIndexOf(available, wanted[j]).Some? &&
      UseCols(ColumnDict(available), wanted)[j] == LastIndexOf(available, wanted[j]).value + 1
  {
    var d := ColumnDict(available);
    assert forall j :: 0 <= j < |wanted| ==> wanted[j] in d;
    forall j | 0 <= j < |wanted|
      ensures LastIndexOf(available, wanted[j]).Some?
      ensures UseCols(d, wanted)[j] == LastIndexOf(available, wanted[j]).value + 1
    {
      ColumnDictIsLast(available, wanted[j]);
    }
  }

  /** With every wanted mass in the header, the load succeeds exactly when
      every row reaches the columns asked for. */
  lemma LoadByDictSome(available: seq<int>, wanted: seq<int>, rows: seq<seq<real>>)
    requires forall j :: 0 <= j < |wanted| ==> wanted[j] in available
    ensures forall j :: 0 <= j < |wanted| ==> wanted[j] in ColumnDict(available)
    ensures LoadColumns(rows, UseCols(ColumnDict(available), wanted)).Some? <==>
      forall i, j :: 0 <= i < |rows| && 0 <= j < |wanted| ==>
        LastIndexOf(available, wanted[j]).value + 1 < |rows[i]|
  {
    UseColsAt(available, wanted);
  }

  /** The rows loaded through the dictionary are the wanted columns. */
  lemma LoadByDict(available: seq<int>, wanted: seq<int>, rows: seq<seq<real>>)
    requires forall j :: 0 <= j < |wanted| ==> wanted[j] in ColumnDict(available)
    requires LoadColumns(rows, UseCols(ColumnDict(available), wanted)).Some?
    ensures DictTable(available, wanted, rows, LoadColumns(rows, UseCols(ColumnDict(available), wanted)).value)
  {
    var cols := UseCols(ColumnDict(available), wanted);
    var table := LoadColumns(rows, cols).value;
    forall i | 0 <= i < |rows|
      ensures DictRow(available, wanted, rows[i], table[i])
    {
      forall j | 0 <= j < |cols|
        ensures |table[i]| == |cols| && cols[j] < |rows[i]| && table[i][j] == rows[i][cols[j]]
      {
        LoadColumnsCell(rows, cols, i, j);
      }
      RowOfUseCols(available, wanted, cols, rows[i], table[i]);
    }
  }

  /** A row loaded through `usecols` is the wanted row. */
  lemma RowOfUseCols(available: seq<int>, wanted: seq<int>, cols: seq<nat>, row: seq<real>, y: seq<real>)
    requires forall j :: 0 <= j < |wanted| ==> wanted[j] in ColumnDict(available)
    requires cols == UseCols(ColumnDict(available), wanted)
    requires |y| == |cols|
    requires forall j :: 0 <= j < |cols| ==> cols[j] < |row| && y[j] == row[cols[j]]
    ensures DictRow(available, wanted, row, y)
  {
    forall j | 0 <= j < |wanted|
      ensures LastIndexOf(available, wanted[j]).Some?
      ensures LastIndexOf(available, wanted[j]).value + 1 == cols[j]
    {
      ColumnDictIsLast(available, wanted[j]);
    }
  }

  /** On a file the selector wrote, the dictionary finds for each mass the
      column whose header field is that mass. */
  lemma UseColsLabelled(ms: seq<int>, m: int)
    requires m in ms
    ensures m in ColumnDict(ms) && ColumnDict(ms)[m] <= |ms|
    ensures |TabFields(HeaderLine(ms))| == |ms| + 1
    ensures TabFields(HeaderLine(ms))[ColumnDict(ms)[m]] == IntToString(m)
  {
    var k := ColumnDict(ms)[m];
    HeaderLineColumns(ms, k);
  }
}
