/** The grid of mass check boxes that data_selector.py and data_viewer.py
    both build for the masses 75 to 209 (`number_vars` holds whether a box
    is checked, `number_buttons` whether it is enabled), the rules that
    check, clear, enable and disable them, and the narrowing of the offered
    masses to those a file's header lists. */
module Checkboxes {
  import opened Text

  /** The first mass offered and one past the last: `range(75, 210)`. */
  const FirstMass: int := 75
  const EndMass: int := 210

  predicate IsBox(n: int) {
    FirstMass <= n < EndMass
  }

  /** `range(75, 210)` as a list. */
  function MassRange(): (r: seq<int>)
    ensures |r| == EndMass - FirstMass
    ensures forall i :: 0 <= i < |r| ==> r[i] == FirstMass + i
  {
    seq(EndMass - FirstMass, i => FirstMass + i)
  }

  predicate Increasing(s: seq<int>) {
    forall i, j :: 0 <= i < j < |s| ==> s[i] < s[j]
  }

  /** `[i for i in available if i in found]`. */
  function Keep(available: seq<int>, found: seq<int>): seq<int> {
    if available == [] then []
    else (if available[0] in found then [available[0]] else []) + Keep(available[1..], found)
  }

  /** The boxes offered once every readable header has been seen:
      `available_masses` narrowed by each header in turn; a header that
      could not be read (`None`) leaves it as it was. */
  function Narrow(available: seq<int>, headers: seq<Option<seq<int>>>): seq<int>
    decreases |headers|
  {
    if headers == [] then available
    else
      var last := headers[|headers| - 1];
      var before := Narrow(available, headers[..|headers| - 1]);
      if last.Some? then Keep(before, last.value) else before
  }

  /** `[number for number, var in number_vars.items() if var.get()]`: the
      checked masses in the dictionary's order, which is ascending. */
  function Checked(ms: seq<int>, checked: map<int, bool>): seq<int>
    requires forall i :: 0 <= i < |ms| ==> ms[i] in checked
  {
    if ms == [] then []
    else (if checked[ms[0]] then [ms[0]] else []) + Checked(ms[1..], checked)
  }

  // ---------------------------------------------------------------------
  // The boxes as widgets

  class Panel {
    /** `number_vars`: whether the box of each mass is checked. */
    var checked: map<int, bool>
    /** `number_buttons`: whether the box of each mass is enabled. */
    var enabled: map<int, bool>

    /** There is one box per mass of the range, and a box can only be
        checked while it is enabled (a disabled box does not respond to
        clicks, and disabling a box always unchecks it). */
    ghost predicate Valid()
      reads this
    {
      (forall n :: n in checked <==> IsBox(n))
      && (forall n :: n in enabled <==> IsBox(n))
      && forall n :: n in checked && checked[n] ==> n in enabled && enabled[n]
    }

    /** The window's start: every box created unchecked and disabled. */
    constructor ()
      ensures Valid()
      ensures forall n :: IsBox(n) ==> !checked[n] && !enabled[n]
    {
      MassRangeMembers();
      checked := map n | n in MassRange() :: false;
      enabled := map n | n in MassRange() :: false;
    }

    /** The masses whose boxes are checked, ascending. */
    function Selected(): (r: seq<int>)
      requires Valid()
      reads this
    {
      MassRangeMembers();
      Checked(MassRange(), checked)
    }

    /** A click on a box: an enabled box flips, a disabled one ignores it. */
    method Toggle(n: int)
      requires Valid() && IsBox(n)
      modifies this
      ensures Valid()
      ensures enabled == old(enabled)
      ensures checked == if old(enabled[n]) then old(checked)[n := !old(checked[n])] else old(checked)
    {
      if enabled[n] {
        checked := checked[n := !checked[n]];
      }
    }

    /** `enable_buttons(available)`: every box is unchecked, and enabled
        exactly when its mass is in `available`. */
    method EnableButtons(available: seq<int>)
      requires Valid()
      modifies this
      ensures Valid()
      ensures forall n :: IsBox(n) ==> !checked[n] && (enabled[n] <==> n in available)
    {
      var num := FirstMass;
      while num < EndMass
        invariant FirstMass <= num <= EndMass
        invariant Valid()
        invariant forall n :: FirstMass <= n < num ==> !checked[n] && (enabled[n] <==> n in available)
      {
        checked := checked[num := false];
        enabled := enabled[num := num in available];
        num := num + 1;
      }
    }

    /** `disable_buttons()`: every box unchecked and disabled. */
    method DisableButtons()
      requires Valid()
      modifies this
      ensures Valid()
      ensures forall n :: IsBox(n) ==> !checked[n] && !enabled[n]
    {
      var num := FirstMass;
      while num < EndMass
        invariant FirstMass <= num <= EndMass
        invariant Valid()
        invariant forall n :: FirstMass <= n < num ==> !checked[n] && !enabled[n]
      {
        checked := checked[num := false];
        enabled := enabled[num := false];
        num := num + 1;
      }
    }

    /** `clear_selection()`: every box unchecked, none enabled or disabled. */
    method ClearSelection()
      requires Valid()
      modifies this
      ensures Valid()
      ensures enabled == old(enabled)
      ensures forall n :: IsBox(n) ==> !checked[n]
    {
      var ms := MassRange();
      var i := 0;
      while i < |ms|
        invariant 0 <= i <= |ms|
        invariant Valid() && enabled == old(enabled)
        invariant forall k :: 0 <= k < i ==> !checked[ms[k]]
      {
        checked := checked[ms[i] := false];
        i := i + 1;
      }
      forall n | IsBox(n)
        ensures !checked[n]
      {
        assert ms[n - FirstMass] == n;
      }
    }
  }

  // ---------------------------------------------------------------------
  // Properties

  /** The masses offered at first are exactly the range, ascending. */
  lemma MassRangeMembers()
    ensures Increasing(MassRange())
    ensures forall m :: m in MassRange() <==> IsBox(m)
  {
    var r := MassRange();
    forall m | IsBox(m)
      ensures m in r
    {
      assert r[m - FirstMass] == m;
    }
  }

  /** `Keep` retains exactly the masses that are both offered and found. */
  lemma {:induction false} KeepMembers(available: seq<int>, found: seq<int>)
    ensures forall m :: m in Keep(available, found) <==> m in available && m in found
  {
    if available != [] {
      KeepMembers(available[1..], found);
      assert available == [available[0]] + available[1..];
    }
  }

  /** `Keep` keeps the offered masses in their order. */
  lemma {:induction false} KeepIncreasing(available: seq<int>, found: seq<int>)
    requires Increasing(available)
    ensures Increasing(Keep(available, found))
  {
    if available != [] {
      var rest := Keep(available[1..], found);
      KeepIncreasing(available[1..], found);
      KeepMembers(available[1..], found);
      forall j | 0 <= j < |rest|
        ensures available[0] < rest[j]
      {
        assert rest[j] in rest;
        assert rest[j] in available[1..];
        var t :| 0 <= t < |available| - 1 && available[1..][t] == rest[j];
        assert available[t + 1] == rest[j];
      }
    }
  }

  /** After narrowing the range by a run of headers, a mass is offered
      exactly when it is in the range and in every header that was read;
      the offered masses stay ascending. */
  lemma {:induction false} NarrowCommon(headers: seq<Option<seq<int>>>)
    ensures Increasing(Narrow(MassRange(), headers))
    ensures forall m :: m in Narrow(MassRange(), headers) <==>
      IsBox(m) && forall k :: 0 <= k < |headers| && headers[k].Some? ==> m in headers[k].value
  {
    MassRangeMembers();
    if headers != [] {
      var n := |headers| - 1;
      var init := headers[..n];
      NarrowCommon(init);
      var before := Narrow(MassRange(), init);
      if headers[n].Some? {
        KeepMembers(before, headers[n].value);
        KeepIncreasing(before, headers[n].value);
      }
      forall m
        ensures m in Narrow(MassRange(), headers) <==>
          IsBox(m) && forall k :: 0 <= k < |headers| && headers[k].Some? ==> m in headers[k].value
      {
        assert forall k :: 0 <= k < n ==> init[k] == headers[k];
      }
    }
  }

  /** The selected masses are the checked ones, ascending. */
  lemma {:induction false} CheckedMembers(ms: seq<int>, checked: map<int, bool>)
    requires forall i :: 0 <= i < |ms| ==> ms[i] in checked
    ensures forall m :: m in Checked(ms, checked) <==> m in ms && checked[m]
  {
    if ms != [] {
      CheckedMembers(ms[1..], checked);
      assert ms == [ms[0]] + ms[1..];
    }
  }

  lemma {:induction false} CheckedIncreasing(ms: seq<int>, checked: map<int, bool>)
    requires forall i :: 0 <= i < |ms| ==> ms[i] in checked
    requires Increasing(ms)
    ensures Increasing(Checked(ms, checked))
  {
    if ms != [] {
      var rest := Checked(ms[1..], checked);
      CheckedIncreasing(ms[1..], checked);
      CheckedMembers(ms[1..], checked);
      forall j | 0 <= j < |rest|
        ensures ms[0] < rest[j]
      {
        assert rest[j] in rest;
        assert rest[j] in ms[1..];
        var t :| 0 <= t < |ms| - 1 && ms[1..][t] == rest[j];
        assert ms[t + 1] == rest[j];
      }
    }
  }

  /** What a panel reports as selected: the checked masses, ascending, each
      of them enabled. */
  lemma SelectedMembers(p: Panel)
    requires p.Valid()
    ensures Increasing(p.Selected())
    ensures forall m :: m in p.Selected() <==> IsBox(m) && p.checked[m]
    ensures forall m :: m in p.Selected() ==> m in p.enabled && p.enabled[m]
  {
    MassRangeMembers();
    CheckedMembers(MassRange(), p.checked);
    CheckedIncreasing(MassRange(), p.checked);
  }
}
