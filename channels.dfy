/** The channel index: reading mass numbers from the first line of a
    tab-separated data file and turning them into column positions, in the
    three ways the tools do it, and loading the chosen columns
    (`np.loadtxt(..., skiprows=1, usecols=...)`). */
module Channels {
  import opened Text

  /** The label the first column of a data file carries. It is two tokens
      for `str.split()`, which is why the whitespace readers skip two. */
  const Label: string := "Push number"

  /** `[int(x) for x in ts]`; `None` when some token is not an integer
      (Python raises `ValueError` at the first such token). */
  function ParseAll(ts: seq<string>): (r: Option<seq<int>>)
    ensures r.Some? ==> |r.value| == |ts|
    ensures r.Some? ==> forall i :: 0 <= i < |ts| ==> ParseInt(ts[i]) == Some(r.value[i])
    ensures r.None? ==> exists i :: 0 <= i < |ts| && ParseInt(ts[i]).None? &&
                                    forall k :: 0 <= k < i ==> ParseInt(ts[k]).Some?
  {
    if ts == [] then Some([])
    else
      match ParseInt(ts[0])
      case None => None
      case Some(v) =>
        match ParseAll(ts[1..])
        case None => None
        case Some(vs) =>
          assert forall i :: 1 <= i < |ts| ==> ts[i] == ts[1..][i - 1];
          Some([v] + vs)
  }

  /** Python's `s[k:]` (empty when `k` is past the end). */
  function Drop<T>(s: seq<T>, k: nat): seq<T> {
    if |s| <= k then [] else s[k..]
  }

  /** Header masses as data_calibrator.py and data_selector.py read them:
      `[int(x) for x in line.split()[2:]]`. */
  function WsMasses(line: string): Option<seq<int>> {
    ParseAll(Drop(SplitWs(line), 2))
  }

  /** `line[:-1].split("\t")`: the header fields once the last character
      (the newline `readline` keeps) is dropped. */
  function TabFields(line: string): seq<string> {
    Split(if line == [] then [] else line[..|line| - 1], '\t')
  }

  /** Header masses as data_viewer.py and data_detector.py read them:
      `[int(m) for m in line[:-1].split("\t")[1:]]`. */
  function TabMasses(line: string): Option<seq<int>> {
    ParseAll(TabFields(line)[1..])
  }

  /** `dict(zip(available, range(1, len(available) + 1)))`: every header
      mass to its 1-based column. A mass listed twice keeps its LAST
      position, because later pairs overwrite earlier ones. */
  function ColumnDict(available: seq<int>): (d: map<int, nat>)
    ensures forall m :: m in d <==> m in available
    ensures forall m :: m in d ==> 1 <= d[m] <= |available| && available[d[m] - 1] == m
    ensures forall m, j :: m in d && d[m] <= j < |available| ==> available[j] != m
  {
    map m | m in available :: LastIndexOf(available, m).value + 1
  }

  /** Zipping one more mass onto the dictionary overwrites that mass's entry
      with the new last column, as `dict` does with a repeated key. */
  lemma ColumnDictSnoc(available: seq<int>, x: int)
    ensures ColumnDict(available + [x]) == ColumnDict(available)[x := |available| + 1]
  {
    var d := ColumnDict(available + [x]);
    var e := ColumnDict(available)[x := |available| + 1];
    forall m | m in available + [x]
      ensures m in e && d[m] == e[m]
    {
      LastIndexOfSnoc(available, x, m);
    }
    assert d.Keys == e.Keys;
  }

  lemma LastIndexOfSnoc(s: seq<int>, x: int, m: int)
    ensures LastIndexOf(s + [x], m) == if m == x then Some(|s|) else LastIndexOf(s, m)
  {
    assert (s + [x])[..|s|] == s;
  }

  /** The last position of `x` in `s`, if any. */
  function LastIndexOf(s: seq<int>, x: int): (r: Option<nat>)
    ensures r.Some? ==> r.value < |s| && s[r.value] == x
    ensures r.Some? ==> forall j :: r.value < j < |s| ==> s[j] != x
    ensures r.None? <==> x !in s
  {
    if s == [] then None
    else if s[|s| - 1] == x then Some(|s| - 1)
    else LastIndexOf(s[..|s| - 1], x)
  }

  /** `s.index(x)`: the first position of `x`; `None` where Python raises
      `ValueError`. */
  function IndexOf(s: seq<int>, x: int): (r: Option<nat>)
    ensures r.Some? ==> r.value < |s| && s[r.value] == x
    ensures r.Some? ==> forall j :: 0 <= j < r.value ==> s[j] != x
    ensures r.None? <==> x !in s
  {
    if s == [] then None
    else if s[0] == x then Some(0)
    else
      match IndexOf(s[1..], x)
      case None => None
      case Some(i) => Some(i + 1)
  }

  /** `[str(m) for m in ms]`. */
  function Strings(ms: seq<int>): (r: seq<string>)
    ensures |r| == |ms|
  {
    seq(|ms|, i requires 0 <= i < |ms| => IntToString(ms[i]))
  }

  /** The first line of a data file listing `ms`: the label, then every
      mass, tab-separated, newline-terminated. data_selector.py writes its
      output files in exactly this form. */
  function HeaderLine(ms: seq<int>): string {
    Label + "\t" + Join(Strings(ms), '\t') + "\n"
  }

  /** A data file: its first line as `readline` returns it, and its data
      rows as numbers (the parsing of numeric fields is not modelled). */
  datatype DataFile = DataFile(header: string, rows: seq<seq<real>>)

  /** `np.loadtxt(path, delimiter="\t", skiprows=1, usecols=cols)`: the
      listed columns of every data row, in the listed order; `None` where a
      row lacks one of them and numpy raises. */
  function LoadColumns(rows: seq<seq<real>>, cols: seq<nat>): (r: Option<seq<seq<real>>>)
    ensures r.Some? <==> forall i, j :: 0 <= i < |rows| && 0 <= j < |cols| ==> cols[j] < |rows[i]|
    ensures r.Some? ==> |r.value| == |rows|
  {
    if forall i, j :: 0 <= i < |rows| && 0 <= j < |cols| ==> cols[j] < |rows[i]| then
      Some(seq(|rows|, i requires 0 <= i < |rows| =>
        seq(|cols|, j requires 0 <= j < |cols| && cols[j] < |rows[i]| => rows[i][cols[j]])))
    else None
  }

  /** Cell `j` of loaded row `i` is cell `cols[j]` of data row `i`. */
  lemma LoadColumnsCell(rows: seq<seq<real>>, cols: seq<nat>, i: nat, j: nat)
    requires LoadColumns(rows, cols).Some? && i < |rows| && j < |cols|
    ensures |LoadColumns(rows, cols).value[i]| == |cols| && cols[j] < |rows[i]|
    ensures LoadColumns(rows, cols).value[i][j] == rows[i][cols[j]]
  {
  }

  /** `np.loadtxt(..., usecols=[col])`: one column as a vector. */
  function LoadColumn(rows: seq<seq<real>>, col: nat): (r: Option<seq<real>>)
    ensures r.Some? <==> forall i :: 0 <= i < |rows| ==> col < |rows[i]|
  {
    if forall i :: 0 <= i < |rows| ==> col < |rows[i]| then
      Some(seq(|rows|, i requires 0 <= i < |rows| && col < |rows[i]| => rows[i][col]))
    else None
  }

  // ---------------------------------------------------------------------
  // Properties

  /** The parsed masses of `str(m)` tokens are the `m`s. */
  lemma {:induction false} ParseAllStrings(ms: seq<int>)
    ensures ParseAll(Strings(ms)) == Some(ms)
  {
    if ms != [] {
      ParseIntToString(ms[0]);
      ParseAllStrings(ms[1..]);
      assert Strings(ms)[0] == IntToString(ms[0]);
      assert Strings(ms)[1..] == Strings(ms[1..]);
      assert [ms[0]] + ms[1..] == ms;
    }
  }

  lemma StringsAreTokens(ms: seq<int>)
    ensures forall i :: 0 <= i < |ms| ==> IsToken(Strings(ms)[i])
    ensures forall i :: 0 <= i < |ms| ==> '\t' !in Strings(ms)[i]
  {
    forall i | 0 <= i < |ms|
      ensures IsToken(Strings(ms)[i]) && '\t' !in Strings(ms)[i]
    {
      IntToStringIsToken(ms[i]);
    }
  }

  /** The whitespace reader (`split()[2:]`) reads a header line back as
      the masses it lists, including when it lists none. */
  lemma WsMassesHeaderLine(ms: seq<int>)
    ensures WsMasses(HeaderLine(ms)) == Some(ms)
  {
    HeaderLineTokens(ms);
    var t := SplitWs(HeaderLine(ms));
    assert Drop(t, 2) == t[2..];
    ParseAllStrings(ms);
  }

  /** `split()` sees the two words of the label, then one token per mass. */
  lemma HeaderLineTokens(ms: seq<int>)
    ensures SplitWs(HeaderLine(ms)) == ["Push", "number"] + Strings(ms)
  {
    var afterNumber := ['\t'] + Join(Strings(ms), '\t') + "\n";
    MassTokens(ms);
    LabelTokens(afterNumber, Strings(ms));
    HeaderLineShape(ms);
  }

  lemma MassTokens(ms: seq<int>)
    ensures SplitWs(['\t'] + Join(Strings(ms), '\t') + "\n") == Strings(ms)
  {
    var tail := Join(Strings(ms), '\t') + "\n";
    StringsAreTokens(ms);
    SplitWsJoin(Strings(ms));
    SplitWsSpace('\t', tail);
    assert ['\t'] + Join(Strings(ms), '\t') + "\n" == ['\t'] + tail;
  }

  lemma LabelTokens(x: string, ts: seq<string>)
    requires x != [] && x[0] == '\t' && SplitWs(x) == ts
    ensures SplitWs("Push" + ([' '] + ("number" + x))) == ["Push", "number"] + ts
  {
    TokenAfter("number", x, ts);
    SplitWsSpace(' ', "number" + x);
    TokenAfter("Push", [' '] + ("number" + x), ["number"] + ts);
  }

  lemma HeaderLineShape(ms: seq<int>)
    ensures HeaderLine(ms) == "Push" + ([' '] + ("number" + (['\t'] + Join(Strings(ms), '\t') + "\n")))
  {
    LabelWords();
  }

  lemma TokenAfter(t: string, rest: string, ts: seq<string>)
    requires IsToken(t) && rest != [] && IsSpace(rest[0]) && SplitWs(rest) == ts
    ensures SplitWs(t + rest) == [t] + ts
  {
    SplitWsToken(t, rest);
  }

  lemma LabelWords()
    ensures Label == "Push" + [' '] + "number"
  {
  }

  /** The tab reader sees the label, then one field per listed mass. */
  lemma TabFieldsHeaderLine(ms: seq<int>)
    requires ms != []
    ensures TabFields(HeaderLine(ms)) == [Label] + Strings(ms)
  {
    var j := Join(Strings(ms), '\t');
    var line := HeaderLine(ms);
    assert line[..|line| - 1] == Label + ['\t'] + j;
    SplitField(Label, '\t', j);
    StringsAreTokens(ms);
    SplitJoin(Strings(ms), '\t');
  }

  /** The tab reader (`[:-1].split("\t")[1:]`) reads a header line back as
      the masses it lists, provided it lists at least one. */
  lemma TabMassesHeaderLine(ms: seq<int>)
    requires ms != []
    ensures TabMasses(HeaderLine(ms)) == Some(ms)
  {
    TabFieldsHeaderLine(ms);
    assert TabFields(HeaderLine(ms))[1..] == Strings(ms);
    ParseAllStrings(ms);
  }

  /** A header line that lists no mass is "Push number\t\n"; the tab
      reader then meets an empty field and `int("")` raises. */
  lemma TabMassesEmptyHeaderLine()
    ensures TabMasses(HeaderLine([])) == None
  {
    var line := HeaderLine([]);
    assert line[..|line| - 1] == Label + ['\t'] + [];
    SplitField(Label, '\t', []);
    assert TabFields(line)[1..] == [[]];
    assert ParseInt([]) == None;
  }

  /** The name the header line written for `ms` gives column `k`: the
      label first, then the masses. */
  function ColumnName(ms: seq<int>, k: nat): string
    requires k <= |ms|
  {
    if k == 0 then Label else IntToString(ms[k - 1])
  }

  /** In a header line, column `k` (0-based, as numpy counts) is headed by
      the label for `k == 0` and by the `k`-th listed mass otherwise. */
  lemma HeaderLineColumns(ms: seq<int>, k: nat)
    requires ms != [] && k <= |ms|
    ensures |TabFields(HeaderLine(ms))| == |ms| + 1
    ensures TabFields(HeaderLine(ms))[k] == ColumnName(ms, k)
  {
    TabFieldsHeaderLine(ms);
    var fields := TabFields(HeaderLine(ms));
    if k > 0 {
      assert fields[k] == Strings(ms)[k - 1];
    }
  }
}
