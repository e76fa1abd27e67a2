/** A checkbox group with a "select all / select none" button.

    The component keeps one piece of state, the list of checked values, in
    the order in which they were checked. Toggling one checkbox and pressing
    the select-all button each replace that list and report the new list to
    the parent component. */
module CheckboxGroup {

  /** One option of the group: the label shown, the value reported, and an
      optional description (empty when absent). */
  datatype CheckboxOption = CheckboxOption(name: string, value: string, description: string)

  /** An event the user can cause: clicking one checkbox (the browser reports
      the clicked value and the checkbox's new checked state) or pressing the
      select-all button. */
  datatype Event = Click(value: string, isChecked: bool) | SelectAll

  // ---------------------------------------------------------------------------
  // Sequence vocabulary

  /** No value occurs twice in `s`. */
  ghost predicate Distinct(s: seq<string>)
  {
    forall i, j :: 0 <= i < j < |s| ==> s[i] != s[j]
  }

  /** The set of values that occur in `s`. */
  ghost function Elems(s: seq<string>): set<string>
  {
    set x | x in s
  }

  /** A checkbox whose value is `value` is displayed as checked. */
  predicate Shown(items: seq<string>, value: string)
  {
    value in items
  }

  // ---------------------------------------------------------------------------
  // The new-list computations

  /** The option values in the order the options are given. */
  function Values(options: seq<CheckboxOption>): (r: seq<string>)
    ensures |r| == |options|
    ensures forall i :: 0 <= i < |options| ==> r[i] == options[i].value
  {
    if options == [] then [] else [options[0].value] + Values(options[1..])
  }

  /** `items` with every occurrence of `v` dropped and the rest kept in order. */
  function Without(items: seq<string>, v: string): (r: seq<string>)
    ensures v !in r
    ensures forall x :: x != v ==> (x in r <==> x in items)
    ensures multiset(r) == multiset(items)[v := 0]
    ensures |r| == |items| - multiset(items)[v]
  {
    if items == [] then []
    else
      var rest := Without(items[1..], v);
      assert items == [items[0]] + items[1..];
      if items[0] == v then rest else [items[0]] + rest
  }

  /** The list after a click on the checkbox with value `v`: checking appends
      `v` at the end whether or not it is already there, unchecking drops
      every occurrence of `v`. */
  function Toggled(items: seq<string>, v: string, isChecked: bool): (r: seq<string>)
    ensures isChecked ==> |r| == |items| + 1 && r[..|items|] == items && r[|items|] == v
    ensures !isChecked ==> v !in r && multiset(r) == multiset(items)[v := 0]
  {
    if isChecked then items + [v] else Without(items, v)
  }

  /** The list after the select-all button: it is cleared when its length
      equals the number of options, and otherwise becomes all option values. */
  function CheckedAll(items: seq<string>, allValues: seq<string>): (r: seq<string>)
    ensures r == [] || r == allValues
    ensures |items| == |allValues| ==> r == []
    ensures |items| != |allValues| ==> |r| == |allValues|
  {
    if |allValues| == |items| then [] else allValues
  }

  /** The list after one event: a click leaves the clicked value displayed
      as the click says, select-all leaves nothing or every value. */
  function Step(items: seq<string>, allValues: seq<string>, e: Event): (r: seq<string>)
    ensures e.Click? ==> (Shown(r, e.value) <==> e.isChecked)
    ensures e.SelectAll? ==> r == [] || r == allValues
  {
    match e
    case Click(v, isChecked) => Toggled(items, v, isChecked)
    case SelectAll => CheckedAll(items, allValues)
  }

  /** The list after a sequence of events, starting from `items`. The last
      event decides what its own value, or select-all, leaves behind. */
  function Run(items: seq<string>, allValues: seq<string>, events: seq<Event>): (r: seq<string>)
    ensures events != [] && events[|events| - 1].Click? ==>
              (Shown(r, events[|events| - 1].value) <==> events[|events| - 1].isChecked)
    ensures events != [] && events[|events| - 1].SelectAll? ==> r == [] || r == allValues
    decreases |events|
  {
    if events == [] then items
    else Run(Step(items, allValues, events[0]), allValues, events[1..])
  }

  // ---------------------------------------------------------------------------
  // The component

  class CheckboxInput {
    /** The options the parent passes in; the component never changes them. */
    const options: seq<CheckboxOption>
    /** The checked values, in the order in which they were checked. */
    var checkedItems: seq<string>

    /** A freshly mounted group: nothing is checked. */
    constructor (options: seq<CheckboxOption>)
      ensures this.options == options
      ensures checkedItems == []
    {
      this.options := options;
      checkedItems := [];
    }

    /** A click on the checkbox with value `value`, whose new checked state is
        `isChecked`. Returns the list reported to the parent. */
    method Toggle(value: string, isChecked: bool) returns (notified: seq<string>)
      modifies this
      ensures checkedItems == Toggled(old(checkedItems), value, isChecked)
      ensures isChecked ==> checkedItems == old(checkedItems) + [value]
      ensures !isChecked ==> checkedItems == Without(old(checkedItems), value)
      ensures notified == checkedItems
      ensures Consistent(old(checkedItems), Values(options)) &&
              Issuable(old(checkedItems), Values(options), Click(value, isChecked)) ==>
                Consistent(checkedItems, Values(options))
    {
      if Consistent(checkedItems, Values(options)) &&
         Issuable(checkedItems, Values(options), Click(value, isChecked)) {
        ToggleKeepsConsistent(checkedItems, Values(options), value, isChecked);
      }
      // The reported list is computed from the state before the event by the
      // same rule as the new state.
      notified := Toggled(checkedItems, value, isChecked);
      checkedItems := Toggled(checkedItems, value, isChecked);
    }

    /** A press on the select-all button. Returns the list reported to the
        parent. */
    method CheckAll() returns (notified: seq<string>)
      modifies this
      ensures checkedItems == CheckedAll(old(checkedItems), Values(options))
      ensures |options| == |old(checkedItems)| ==> checkedItems == []
      ensures |options| != |old(checkedItems)| ==> checkedItems == Values(options)
      ensures notified == checkedItems
      ensures Distinct(Values(options)) ==> Consistent(checkedItems, Values(options))
    {
      if Distinct(Values(options)) {
        CheckAllKeepsConsistent(checkedItems, Values(options));
      }
      if |options| == |checkedItems| {
        checkedItems := [];
        notified := [];
      } else {
        var allValues := Values(options);
        checkedItems := allValues;
        notified := allValues;
      }
    }

    /** Whether the checkbox of option `i` is displayed as checked. */
    method DisplayedChecked(i: nat) returns (checked: bool)
      requires i < |options|
      ensures checked <==> Shown(checkedItems, options[i].value)
      ensures checked <==> exists k :: 0 <= k < |checkedItems| && checkedItems[k] == options[i].value
    {
      checked := Shown(checkedItems, options[i].value);
    }
  }

  // ---------------------------------------------------------------------------
  // Properties of the new-list computations

  /** Unchecking keeps the relative order of the remaining values: dropping
      `v` from a concatenation drops it from each part. */
  lemma {:induction false} WithoutConcat(a: seq<string>, b: seq<string>, v: string)
    ensures Without(a + b, v) == Without(a, v) + Without(b, v)
  {
    if a == [] {
      assert a + b == b;
    } else {
      assert (a + b)[1..] == a[1..] + b;
      WithoutConcat(a[1..], b, v);
    }
  }

  /** Unchecking a value that is not checked changes nothing. */
  lemma {:induction false} WithoutAbsent(items: seq<string>, v: string)
    requires v !in items
    ensures Without(items, v) == items
  {
    if items != [] {
      WithoutAbsent(items[1..], v);
      assert items == [items[0]] + items[1..];
    }
  }

  /** A list is duplicate-free exactly when its head is not in its tail and
      its tail is duplicate-free. */
  lemma DistinctCons(x: string, t: seq<string>)
    ensures Distinct([x] + t) <==> x !in t && Distinct(t)
  {
    var s := [x] + t;
    if x !in t && Distinct(t) {
      forall i, j | 0 <= i < j < |s| ensures s[i] != s[j] {
        assert s[j] == t[j - 1];
        if i > 0 { assert s[i] == t[i - 1]; }
      }
    }
    if Distinct(s) {
      forall k | 0 <= k < |t| ensures t[k] != x {
        assert s[0] == x && t[k] == s[k + 1];
      }
      forall i, j | 0 <= i < j < |t| ensures t[i] != t[j] {
        assert t[i] == s[i + 1] && t[j] == s[j + 1];
      }
    }
  }

  /** Dropping values keeps a duplicate-free list duplicate-free. */
  lemma {:induction false} WithoutKeepsDistinct(items: seq<string>, v: string)
    requires Distinct(items)
    ensures Distinct(Without(items, v))
  {
    if items != [] {
      assert items == [items[0]] + items[1..];
      DistinctCons(items[0], items[1..]);
      WithoutKeepsDistinct(items[1..], v);
      if items[0] != v {
        DistinctCons(items[0], Without(items[1..], v));
      }
    }
  }

  /** A duplicate-free list has as many distinct values as elements. */
  lemma {:induction false} DistinctCard(s: seq<string>)
    requires Distinct(s)
    ensures |Elems(s)| == |s|
  {
    if s != [] {
      var t := s[1..];
      assert s == [s[0]] + t;
      DistinctCons(s[0], t);
      DistinctCard(t);
      assert Elems(s) == Elems(t) + {s[0]};
    }
  }

  /** A subset has at most as many elements; a subset of the same size is
      the whole set. */
  lemma {:induction false} SubsetCard(a: set<string>, b: set<string>)
    requires a <= b
    ensures |a| <= |b|
    ensures |a| == |b| ==> a == b
  {
    if a != {} {
      var x :| x in a;
      SubsetCard(a - {x}, b - {x});
    } else if b != {} {
      var y :| y in b;
      assert |b| >= 1 by { assert {y} <= b; }
    }
  }

  // ---------------------------------------------------------------------------
  // The invariant of the component under events a real checkbox can issue

  /** The checked list is duplicate-free and holds only option values. */
  ghost predicate Consistent(items: seq<string>, allValues: seq<string>)
  {
    Distinct(items) && forall x :: x in items ==> x in allValues
  }

  /** An event a rendered group can issue in state `items`: a checkbox click
      names an option value and flips what that checkbox displays, which is
      membership of its value in the list. */
  ghost predicate Issuable(items: seq<string>, allValues: seq<string>, e: Event)
  {
    match e
    case Click(v, isChecked) => v in allValues && (isChecked <==> !Shown(items, v))
    case SelectAll => true
  }

  /** Every event of `events` is issuable in the state it reaches. */
  ghost predicate IssuableRun(items: seq<string>, allValues: seq<string>, events: seq<Event>)
    decreases |events|
  {
    events != [] ==>
      Issuable(items, allValues, events[0]) &&
      IssuableRun(Step(items, allValues, events[0]), allValues, events[1..])
  }

  /** Checking an unchecked option or unchecking a checked one keeps the list
      duplicate-free and within the option values. */
  lemma ToggleKeepsConsistent(items: seq<string>, allValues: seq<string>, v: string, isChecked: bool)
    requires Consistent(items, allValues)
    requires Issuable(items, allValues, Click(v, isChecked))
    ensures Consistent(Toggled(items, v, isChecked), allValues)
  {
    var r := Toggled(items, v, isChecked);
    if isChecked {
      forall i, j | 0 <= i < j < |r| ensures r[i] != r[j] {
        if j == |items| {
          assert r[i] == items[i];
        } else {
          assert r[i] == items[i] && r[j] == items[j];
        }
      }
    } else {
      WithoutKeepsDistinct(items, v);
    }
  }

  /** Pressing select-all keeps the list duplicate-free and within the option
      values, provided the option values are distinct. */
  lemma CheckAllKeepsConsistent(items: seq<string>, allValues: seq<string>)
    requires Distinct(allValues)
    ensures Consistent(CheckedAll(items, allValues), allValues)
  {
  }

  /** The invariant holds along every run of issuable events. */
  lemma {:induction false} RunKeepsConsistent(items: seq<string>, allValues: seq<string>, events: seq<Event>)
    requires Distinct(allValues)
    requires Consistent(items, allValues)
    requires IssuableRun(items, allValues, events)
    ensures Consistent(Run(items, allValues, events), allValues)
    decreases |events|
  {
    if events != [] {
      var next := Step(items, allValues, events[0]);
      if events[0].Click? {
        ToggleKeepsConsistent(items, allValues, events[0].value, events[0].isChecked);
      } else {
        CheckAllKeepsConsistent(items, allValues);
      }
      RunKeepsConsistent(next, allValues, events[1..]);
    }
  }

  /** Under the invariant and with distinct option values, the length test of
      the select-all button coincides with "every option is checked". */
  lemma FullIffAllChecked(items: seq<string>, allValues: seq<string>)
    requires Distinct(allValues)
    requires Consistent(items, allValues)
    ensures |items| == |allValues| <==> forall x :: x in allValues ==> x in items
  {
    DistinctCard(items);
    DistinctCard(allValues);
    assert Elems(items) <= Elems(allValues);
    SubsetCard(Elems(items), Elems(allValues));
    if forall x :: x in allValues ==> x in items {
      assert Elems(allValues) <= Elems(items);
      SubsetCard(Elems(allValues), Elems(items));
    }
    if |items| == |allValues| {
      forall x | x in allValues ensures x in items {
        assert x in Elems(allValues);
      }
    }
  }

  /** Every checkbox is displayed as checked: its value is in the list. */
  ghost predicate AllDisplayed(items: seq<string>, options: seq<CheckboxOption>)
  {
    forall i :: 0 <= i < |options| ==> Shown(items, options[i].value)
  }

  /** Every checkbox is displayed as checked exactly when every option value
      is in the list. */
  lemma AllShownIffAllIn(items: seq<string>, options: seq<CheckboxOption>)
    ensures AllDisplayed(items, options) <==>
            (forall x :: x in Values(options) ==> x in items)
  {
  }

  /** The same fact over the rendered options: when the option values are
      distinct, the select-all button's length test holds exactly when every
      checkbox is displayed as checked. */
  lemma FullIffAllDisplayed(items: seq<string>, options: seq<CheckboxOption>, allValues: seq<string>)
    requires allValues == Values(options)
    requires Distinct(allValues)
    requires Consistent(items, allValues)
    ensures |items| == |options| <==> AllDisplayed(items, options)
  {
    FullIffAllChecked(items, allValues);
    AllShownIffAllIn(items, options);
  }

  /** With repeated option values the length test and "every option is
      checked" part ways: two options with the same value are both displayed
      checked after one click, yet select-all then checks all instead of
      clearing. */
  lemma RepeatedValuesSelectAll()
    ensures var allValues := ["a", "a"];
            var items := Toggled([], "a", true);
            (forall x :: x in allValues ==> x in items) &&
            CheckedAll(items, allValues) == allValues
  {
  }

  /** Two presses of select-all from a list shorter or longer than the options
      give all values and then nothing; from a list as long as the options,
      nothing and then all values (when there is an option). */
  lemma CheckAllTwice(items: seq<string>, allValues: seq<string>)
    ensures |items| != |allValues| ==>
              CheckedAll(items, allValues) == allValues &&
              CheckedAll(CheckedAll(items, allValues), allValues) == []
    ensures |items| == |allValues| && allValues != [] ==>
              CheckedAll(items, allValues) == [] &&
              CheckedAll(CheckedAll(items, allValues), allValues) == allValues
  {
  }

  /** Select-all is not idempotent: on any non-empty option list, pressing it
      twice never leaves the list as one press does. */
  lemma CheckAllNotIdempotent(items: seq<string>, allValues: seq<string>)
    requires allValues != []
    ensures CheckedAll(CheckedAll(items, allValues), allValues) != CheckedAll(items, allValues)
  {
  }

  /** After unchecking `v`, no option with value `v` is displayed as checked,
      and every other option keeps its displayed state. */
  lemma UncheckHidesValue(items: seq<string>, options: seq<CheckboxOption>, v: string)
    ensures forall i :: 0 <= i < |options| && options[i].value == v ==>
              !Shown(Toggled(items, v, false), options[i].value)
    ensures forall i :: 0 <= i < |options| && options[i].value != v ==>
              (Shown(Toggled(items, v, false), options[i].value) <==> Shown(items, options[i].value))
  {
  }

  /** Checking `v` displays every option with value `v` as checked and keeps
      every other option's displayed state. */
  lemma CheckShowsValue(items: seq<string>, options: seq<CheckboxOption>, v: string)
    ensures forall i :: 0 <= i < |options| && options[i].value == v ==>
              Shown(Toggled(items, v, true), options[i].value)
    ensures forall i :: 0 <= i < |options| && options[i].value != v ==>
              (Shown(Toggled(items, v, true), options[i].value) <==> Shown(items, options[i].value))
  {
  }

  /** The sequence of three options A, B, C: check A, check C, then press
      select-all twice. */
  method ThreeOptionsScenario()
  {
    var a := CheckboxOption("A", "A", "");
    var b := CheckboxOption("B", "B", "");
    var c := CheckboxOption("C", "C", "");
    var group := new CheckboxInput([a, b, c]);
    var reported := group.Toggle("A", true);
    assert reported == ["A"];
    reported := group.Toggle("C", true);
    assert reported == ["A", "C"];
    reported := group.CheckAll();
    assert Values([a, b, c]) == ["A", "B", "C"];
    assert reported == ["A", "B", "C"];
    reported := group.CheckAll();
    assert reported == [];
  }
}
