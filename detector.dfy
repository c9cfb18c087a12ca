/** The event detector script data_detector.py: load the columns of four
    masses through the header dictionary, find the events of one mass,
    integrate another mass's signal over each event, turn the sums into
    masses through the calibration line, and keep the plausible ones. */
module Detector {
  import opened Text
  import opened Channels
  import opened DictColumns
  import opened Stats

  // ---------------------------------------------------------------------
  // Configuration

  /** `LOAD_MASSES`: the masses whose columns are loaded, in this order. */
  const LoadMasses: seq<int> := [142, 175, 193, 195]
  /** `MASS_FOR_SELECTION`: the mass whose peaks are the events. */
  const MassForSelection: int := 193
  /** `MASS_OF_INTEREST`: the mass whose signal is integrated. */
  const MassOfInterest: int := 175
  /** `DT`: 13 microseconds per push, in seconds. */
  const DT: real := 0.000013
  /** `FLOW`: 30 microlitres per minute, in microlitres per second. */
  const Flow: real := 0.5
  /** `TE`: the transport efficiency, 10 %. */
  const TE: real := 0.1
  /** The bound of the validation plot: masses of 120 fg and above are
      dropped. */
  const Limit: real := 120.0

  // ---------------------------------------------------------------------
  // Loading

  /** How loading the data file ends. */
  datatype Loading =
    | BadHeader               // a tab field of the header is not an integer
    | MissingMass(m: int)     // the `assert mass in masses` fails for `m`
    | BadRows                 // `np.loadtxt` met a row without a wanted column
    | NotTable                // exactly one row: `np.loadtxt` squeezes the
                              // result to one dimension and `ar.shape[1]` raises;
                              // no rows give a (0, 4) array, which stays a table
    | Table(ar: seq<seq<real>>)

  /** The script up to the array: the header dictionary, the presence check
      in `LOAD_MASSES` order, and `np.loadtxt(..., usecols=...)`. */
  function LoadArray(file: DataFile): Loading {
    match TabMasses(file.header)
    case None => BadHeader
    case Some(available) => LoadWanted(available, LoadMasses, file.rows)
  }

  /** Loading the `wanted` masses' columns once the header masses are
      known. */
  function LoadWanted(available: seq<int>, wanted: seq<int>, rows: seq<seq<real>>): (r: Loading)
    ensures !r.BadHeader?
  {
    var d := ColumnDict(available);
    match FirstUnknown(d, wanted)
    case Some(k) => MissingMass(wanted[k])
    case None =>
      match LoadColumns(rows, UseCols(d, wanted))
      case None => BadRows
      case Some(ar) => if |ar| == 1 then NotTable else Table(ar)
  }

  /** `mass_dict = dict(zip(LOAD_MASSES, range(len(LOAD_MASSES))))`. */
  function MassDict(): map<int, nat> {
    map m | m in LoadMasses :: LastIndexOf(LoadMasses, m).value
  }

  /** `ar[:, c]`: column `c` of the loaded array. */
  function Column(ar: seq<seq<real>>, c: nat): (r: seq<real>)
    requires forall i :: 0 <= i < |ar| ==> c < |ar[i]|
    ensures |r| == |ar| && forall i :: 0 <= i < |ar| ==> r[i] == ar[i][c]
  {
    seq(|ar|, i requires 0 <= i < |ar| => ar[i][c])
  }

  /** An array with one column per loaded mass, as `Table` holds: any
      number of rows but one. */
  predicate Shaped(ar: seq<seq<real>>) {
    |ar| != 1 && forall i :: 0 <= i < |ar| ==> |ar[i]| == |LoadMasses|
  }

  // ---------------------------------------------------------------------
  // Events

  /** An event as the peak search reports it: rows `left` up to `right`. */
  datatype Window = Window(left: int, right: int)

  /** `events_by_mass`: for each loaded column, in order, the events the
      peak search `detect` finds in it, under that column's mass. */
  method EventsByMass(ar: seq<seq<real>>, detect: seq<real> -> seq<Window>)
    returns (events: map<int, seq<Window>>)
    requires Shaped(ar)
    ensures forall m :: m in events <==> m in LoadMasses
    ensures forall i :: 0 <= i < |LoadMasses| ==> events[LoadMasses[i]] == detect(Column(ar, i))
  {
    events := map[];
    var i := 0;
    while i < |LoadMasses|  // `ar.shape[1]`, also for an array of no rows
      invariant 0 <= i <= |LoadMasses|
      invariant forall m :: m in events <==> m in LoadMasses[..i]
      invariant forall k :: 0 <= k < i ==> events[LoadMasses[k]] == detect(Column(ar, k))
    {
      events := events[LoadMasses[i] := detect(Column(ar, i))];
      i := i + 1;
    }
  }

  /** Where a slice bound `k` lands in a sequence of length `n`: a negative
      bound counts from the end, and the result is clipped to 0..n. */
  function SliceBound(k: int, n: nat): (b: nat)
    ensures b <= n
  {
    if k < 0 then (if k + n < 0 then 0 else k + n)
    else if k > n then n
    else k
  }

  /** `np.sum(ar[w.left : w.right, c])`. */
  function WindowSum(ar: seq<seq<real>>, c: nat, w: Window): real
    requires forall i :: 0 <= i < |ar| ==> c < |ar[i]|
  {
    var lo := SliceBound(w.left, |ar|);
    var hi := SliceBound(w.right, |ar|);
    if lo < hi then Sum(Column(ar, c)[lo..hi]) else 0.0
  }

  /** `sum_I`: one integral of the mass of interest per event. */
  function SumI(ar: seq<seq<real>>, windows: seq<Window>): (r: seq<real>)
    requires Shaped(ar)
    ensures |r| == |windows|
  {
    MassDictIndex();
    seq(|windows|, k requires 0 <= k < |windows| => WindowSum(ar, MassDict()[MassOfInterest], windows[k]))
  }

  // ---------------------------------------------------------------------
  // Masses

  /** `(I - X0) / X1 * DT * FLOW / TE`: the mass, in fg, of an event whose
      integral is `i`, through the calibration line of intercept `x0` and
      slope `x1`. */
  function ToMass(i: real, x0: real, x1: real): real
    requires x1 != 0.0
  {
    (i - x0) / x1 * DT * Flow / TE
  }

  /** The integral the calibration line gives for an event of mass `m`. */
  function ToIntensity(m: real, x0: real, x1: real): real {
    x0 + x1 * (m * TE / (DT * Flow))
  }

  /** `event_mass_interest`: the mass of every event, in order. */
  function EventMasses(sumI: seq<real>, x0: real, x1: real): (r: seq<real>)
    requires x1 != 0.0
    ensures |r| == |sumI|
  {
    seq(|sumI|, k requires 0 <= k < |sumI| => ToMass(sumI[k], x0, x1))
  }

  /** `masses[masses < 120]`: the masses below the limit, in order. */
  function Plausible(ms: seq<real>): seq<real> {
    if ms == [] then []
    else (if ms[0] < Limit then [ms[0]] else []) + Plausible(ms[1..])
  }

  // ---------------------------------------------------------------------
  // The script

  /** What the script computes, or where it stops. */
  datatype Detection =
    | Stopped(loading: Loading)
    | Detected(events: map<int, seq<Window>>, sumI: seq<real>, eventMasses: seq<real>, plausible: seq<real>)

  /** The script from the file to the masses it plots, with the peak search
      `detect` and the calibration `x0`, `x1` as inputs. */
  method Detect(file: DataFile, detect: seq<real> -> seq<Window>, x0: real, x1: real)
    returns (r: Detection)
    requires x1 != 0.0
    ensures !LoadArray(file).Table? ==> r == Stopped(LoadArray(file))
    ensures LoadArray(file).Table? ==>
      Shaped(LoadArray(file).ar) && Analysed(LoadArray(file).ar, detect, x0, x1, r)
  {
    var loading := LoadArray(file);
    if !loading.Table? {
      return Stopped(loading);
    }
    LoadArrayShaped(file);
    r := Analyse(loading.ar, detect, x0, x1);
  }

  /** The script past loading: events of every loaded mass, the integrals
      over the selection mass's events, their masses, and the plausible
      ones. */
  method Analyse(ar: seq<seq<real>>, detect: seq<real> -> seq<Window>, x0: real, x1: real)
    returns (r: Detection)
    requires Shaped(ar) && x1 != 0.0
    ensures Analysed(ar, detect, x0, x1, r)
  {
    var events := EventsByMass(ar, detect);
    assert LoadMasses[2] == MassForSelection;
    var sumI := SumI(ar, events[MassForSelection]);
    var eventMasses := EventMasses(sumI, x0, x1);
    r := Detected(events, sumI, eventMasses, Plausible(eventMasses));
  }

  /** `r` holds the events of each loaded mass under that mass, the
      integrals of the mass of interest over the selection mass's events,
      their masses in order, and those below the limit. */
  ghost predicate Analysed(ar: seq<seq<real>>, detect: seq<real> -> seq<Window>, x0: real, x1: real, r: Detection)
    requires Shaped(ar) && x1 != 0.0
  {
    r.Detected? &&
    (forall m :: m in r.events <==> m in LoadMasses) &&
    (forall i :: 0 <= i < |LoadMasses| ==> r.events[LoadMasses[i]] == detect(Column(ar, i))) &&
    r.sumI == SumI(ar, r.events[MassForSelection]) &&
    r.eventMasses == EventMasses(r.sumI, x0, x1) &&
    r.plausible == Plausible(r.eventMasses)
  }

  /** What the analysis gives, event by event: the selection mass's events
      come from the third loaded column, each integral sums the second
      loaded column (mass 175) over its event, each mass converts its
      integral, and the plausible masses are those below the limit. */
  lemma AnalysedEvents(ar: seq<seq<real>>, detect: seq<real> -> seq<Window>, x0: real, x1: real, r: Detection)
    requires Shaped(ar) && x1 != 0.0 && Analysed(ar, detect, x0, x1, r)
    ensures r.events[MassForSelection] == detect(Column(ar, 2))
    ensures |r.sumI| == |r.events[MassForSelection]| == |r.eventMasses|
    ensures forall k :: 0 <= k < |r.sumI| ==>
      r.sumI[k] == WindowSum(ar, 1, r.events[MassForSelection][k]) &&
      r.eventMasses[k] == ToMass(r.sumI[k], x0, x1)
    ensures forall m :: m in r.plausible <==> m in r.eventMasses && m < Limit
  {
    assert LoadMasses[2] == MassForSelection;
    SumIEntries(ar, r.events[MassForSelection]);
    PlausibleMembers(r.eventMasses);
  }

  // ---------------------------------------------------------------------
  // Properties of loading

  /** Loading stops at the header; otherwise it is `LoadWanted` on the
      header's masses. */
  lemma LoadArrayStages(file: DataFile)
    ensures LoadArray(file) == BadHeader <==> TabMasses(file.header).None?
    ensures TabMasses(file.header).Some? ==>
      LoadArray(file) == LoadWanted(TabMasses(file.header).value, LoadMasses, file.rows)
  {
  }

  /** Loading stops at the first wanted mass the header lacks; it yields a
      table exactly when the header lists every wanted mass and there are
      a row count other than one, each row reaching every wanted column. */
  lemma LoadWantedOutcomes(available: seq<int>, wanted: seq<int>, rows: seq<seq<real>>)
    ensures var r := LoadWanted(available, wanted, rows);
      r.MissingMass? <==> exists j :: 0 <= j < |wanted| && wanted[j] !in available
    ensures var r := LoadWanted(available, wanted, rows);
      r.MissingMass? ==> r.m in wanted && r.m !in available
    ensures LoadWanted(available, wanted, rows).Table? <==>
      (forall j :: 0 <= j < |wanted| ==> wanted[j] in available) &&
      |rows| != 1 &&
      forall i, j :: 0 <= i < |rows| && 0 <= j < |wanted| ==>
        LastIndexOf(available, wanted[j]).Some? &&
        LastIndexOf(available, wanted[j]).value + 1 < |rows[i]|
  {
    var d := ColumnDict(available);
    if forall j :: 0 <= j < |wanted| ==> wanted[j] in available {
      LoadByDictSome(available, wanted, rows);
      UseColsAt(available, wanted);
    } else {
      var j :| 0 <= j < |wanted| && wanted[j] !in available;
      assert wanted[j] !in d;
    }
  }

  /** A table holds the wanted masses' columns in order: column `j` of each
      row is the field one past the last position of `wanted[j]` among the
      header masses. */
  lemma LoadWantedTable(available: seq<int>, wanted: seq<int>, rows: seq<seq<real>>)
    requires LoadWanted(available, wanted, rows).Table?
    ensures var ar := LoadWanted(available, wanted, rows).ar;
      |ar| != 1 && (forall i :: 0 <= i < |ar| ==> |ar[i]| == |wanted|) &&
      DictTable(available, wanted, rows, ar)
  {
    LoadByDict(available, wanted, rows);
  }

  /** The loaded table is shaped for the rest of the script. */
  lemma LoadArrayShaped(file: DataFile)
    requires LoadArray(file).Table?
    ensures TabMasses(file.header).Some?
    ensures Shaped(LoadArray(file).ar)
  {
    LoadWantedTable(TabMasses(file.header).value, LoadMasses, file.rows);
  }

  /** `mass_dict` sends each loaded mass to its column of the array. */
  lemma MassDictIndex()
    ensures forall m :: m in MassDict() <==> m in LoadMasses
    ensures forall i :: 0 <= i < |LoadMasses| ==> MassDict()[LoadMasses[i]] == i
    ensures MassDict()[MassOfInterest] == 1 && MassDict()[MassForSelection] == 2
  {
    forall i | 0 <= i < |LoadMasses|
      ensures MassDict()[LoadMasses[i]] == i
    {
      var m := LoadMasses[i];
      var k := LastIndexOf(LoadMasses, m).value;
      assert LoadMasses[k] == m;
    }
    assert LoadMasses[1] == MassOfInterest && LoadMasses[2] == MassForSelection;
  }

  // ---------------------------------------------------------------------
  // Properties of the integrals

  /** A non-negative bound is clipped to the length; a negative one counts
      from the end, and past the start it is clipped to 0. */
  lemma SliceBoundCases(k: int, n: nat)
    ensures 0 <= k ==> SliceBound(k, n) == if k <= n then k else n
    ensures -(n as int) <= k < 0 ==> SliceBound(k, n) == k + n
    ensures k < -(n as int) ==> SliceBound(k, n) == 0
  {
  }

  /** An event that starts at or after its end, or past the last row, sums
      to 0. */
  lemma WindowSumEmpty(ar: seq<seq<real>>, c: nat, w: Window)
    requires forall i :: 0 <= i < |ar| ==> c < |ar[i]|
    requires 0 <= w.left && 0 <= w.right
    requires w.right <= w.left || |ar| <= w.left
    ensures WindowSum(ar, c, w) == 0.0
  {
  }

  /** An event running past the last row sums only the rows there are. */
  lemma WindowSumClip(ar: seq<seq<real>>, c: nat, left: int, right: int)
    requires forall i :: 0 <= i < |ar| ==> c < |ar[i]|
    requires 0 <= left && |ar| <= right
    ensures WindowSum(ar, c, Window(left, right)) == WindowSum(ar, c, Window(left, |ar|))
  {
  }

  /** A one-row event sums that row's value. */
  lemma WindowSumOne(ar: seq<seq<real>>, c: nat, i: nat)
    requires forall i :: 0 <= i < |ar| ==> c < |ar[i]|
    requires i < |ar|
    ensures WindowSum(ar, c, Window(i, i + 1)) == ar[i][c]
  {
    var col := Column(ar, c);
    var one := [ar[i][c]];
    assert SliceBound(i, |ar|) == i && SliceBound(i + 1, |ar|) == i + 1;
    assert col[i..i + 1] == one;
    assert SumFrom(one, 1) == 0.0;
    assert Sum(one) == SumAt(one, 0) == one[0] + SumFrom(one, 1);
  }

  /** Cutting an event in two splits its sum. */
  lemma WindowSumSplit(ar: seq<seq<real>>, c: nat, left: int, mid: int, right: int)
    requires forall i :: 0 <= i < |ar| ==> c < |ar[i]|
    requires 0 <= left <= mid <= right <= |ar|
    ensures WindowSum(ar, c, Window(left, right)) ==
      WindowSum(ar, c, Window(left, mid)) + WindowSum(ar, c, Window(mid, right))
  {
    var col := Column(ar, c);
    assert col[left..right] == col[left..mid] + col[mid..right];
    SumConcat(col[left..mid], col[mid..right]);
  }

  /** A bound from the end names the same row as its positive form. */
  lemma WindowSumFromEnd(ar: seq<seq<real>>, c: nat, left: int, right: int)
    requires forall i :: 0 <= i < |ar| ==> c < |ar[i]|
    requires -|ar| <= left < 0
    ensures WindowSum(ar, c, Window(left, right)) == WindowSum(ar, c, Window(left + |ar|, right))
  {
  }

  /** A signal that is never negative has no negative integral. */
  lemma WindowSumNonneg(ar: seq<seq<real>>, c: nat, w: Window)
    requires forall i :: 0 <= i < |ar| ==> c < |ar[i]| && 0.0 <= ar[i][c]
    ensures 0.0 <= WindowSum(ar, c, w)
  {
    var lo := SliceBound(w.left, |ar|);
    var hi := SliceBound(w.right, |ar|);
    if lo < hi {
      SumNonneg(Column(ar, c)[lo..hi]);
    }
  }

  /** `sum_I` has one entry per event, in order: the integral of the mass
      of interest's column over that event. */
  lemma SumIEntries(ar: seq<seq<real>>, windows: seq<Window>)
    requires Shaped(ar)
    ensures |SumI(ar, windows)| == |windows|
    ensures forall k :: 0 <= k < |windows| ==>
      SumI(ar, windows)[k] == WindowSum(ar, 1, windows[k])
  {
    MassDictIndex();
  }

  // ---------------------------------------------------------------------
  // Properties of the masses

  /** The conversion inverts the calibration line: an integral on the line
      at `c` gives the mass `c * DT * FLOW / TE`, that is `c * 0.000065`. */
  lemma ToMassOfLine(c: real, x0: real, x1: real)
    requires x1 != 0.0
    ensures ToMass(x0 + x1 * c, x0, x1) == c * DT * Flow / TE == c * 0.000065
  {
    assert (x0 + x1 * c - x0) / x1 == c;
    FactorScale(c);
  }

  /** `ToMass` and `ToIntensity` undo each other. */
  lemma ToMassRoundTrip(m: real, i: real, x0: real, x1: real)
    requires x1 != 0.0
    ensures ToMass(ToIntensity(m, x0, x1), x0, x1) == m
    ensures ToIntensity(ToMass(i, x0, x1), x0, x1) == i
  {
    var c := m * TE / (DT * Flow);
    FactorScale(m);
    FactorScale(c);
    assert ToIntensity(m, x0, x1) == x0 + x1 * c;
    ToMassOfLine(c, x0, x1);
    assert c * 0.000065 == m;
    var q := (i - x0) / x1;
    FactorScale(q);
    assert ToMass(i, x0, x1) == q * 0.000065;
    assert ToIntensity(q * 0.000065, x0, x1) == x0 + x1 * q;
    DivMul(i - x0, x1);
  }

  /** Scaling by the conversion factor and back. */
  lemma FactorScale(q: real)
    ensures q * DT * Flow / TE == q * 0.000065
    ensures (q * 0.000065) * TE / (DT * Flow) == q
    ensures q * TE / (DT * Flow) == q / 0.000065
  {
    assert DT == 0.000013 && Flow == 0.5 && TE == 0.1;
  }

  lemma DivMul(a: real, b: real)
    requires b != 0.0
    ensures b * (a / b) == a
  {
  }

  /** With a rising calibration line, a larger integral is a larger mass;
      with a falling one, a smaller mass. */
  lemma ToMassMonotone(i: real, j: real, x0: real, x1: real)
    requires x1 != 0.0 && i <= j
    ensures 0.0 < x1 ==> ToMass(i, x0, x1) <= ToMass(j, x0, x1)
    ensures x1 < 0.0 ==> ToMass(j, x0, x1) <= ToMass(i, x0, x1)
  {
    assert ToMass(i, x0, x1) == (i - x0) / x1 * 0.000065;
    assert ToMass(j, x0, x1) == (j - x0) / x1 * 0.000065;
    if 0.0 < x1 {
      assert (i - x0) / x1 <= (j - x0) / x1;
    } else {
      assert (j - x0) / x1 <= (i - x0) / x1;
    }
  }

  /** Every event mass is its integral converted, in order; for integrals
      on the calibration line they are the line's concentrations scaled. */
  lemma EventMassesOfLine(sumI: seq<real>, cs: seq<real>, x0: real, x1: real)
    requires x1 != 0.0 && |cs| == |sumI|
    requires forall k :: 0 <= k < |sumI| ==> sumI[k] == x0 + x1 * cs[k]
    ensures forall k :: 0 <= k < |sumI| ==> EventMasses(sumI, x0, x1)[k] == cs[k] * DT * Flow / TE
  {
    forall k | 0 <= k < |sumI|
      ensures EventMasses(sumI, x0, x1)[k] == cs[k] * DT * Flow / TE
    {
      ToMassOfLine(cs[k], x0, x1);
    }
  }

  // ---------------------------------------------------------------------
  // Properties of the filter

  /** The filter keeps a mass exactly when it is below the limit. */
  lemma {:induction false} PlausibleMembers(ms: seq<real>)
    ensures forall m :: m in Plausible(ms) <==> m in ms && m < Limit
    ensures |Plausible(ms)| <= |ms|
  {
    if ms != [] {
      PlausibleMembers(ms[1..]);
      assert ms == [ms[0]] + ms[1..];
    }
  }

  /** The filter works piece by piece, so it keeps the original order. */
  lemma {:induction false} PlausibleAppend(a: seq<real>, b: seq<real>)
    ensures Plausible(a + b) == Plausible(a) + Plausible(b)
  {
    if a != [] {
      assert (a + b)[1..] == a[1..] + b;
      PlausibleAppend(a[1..], b);
    } else {
      assert a + b == b;
    }
  }

  /** Masses all below the limit pass unchanged, and filtering twice is
      filtering once. */
  lemma {:induction false} PlausibleKeeps(ms: seq<real>)
    ensures (forall k :: 0 <= k < |ms| ==> ms[k] < Limit) ==> Plausible(ms) == ms
    ensures Plausible(Plausible(ms)) == Plausible(ms)
  {
    if ms != [] {
      PlausibleKeeps(ms[1..]);
      var head := if ms[0] < Limit then [ms[0]] else [];
      PlausibleAppend(head, Plausible(ms[1..]));
      if ms[0] < Limit {
        assert Plausible(head) == head;
      } else {
        assert head == [];
      }
    }
  }
}
