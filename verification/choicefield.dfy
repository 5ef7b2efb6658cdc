/** The selection logic of the choice field
    (src/components/questionnaire/ChoiceField.tsx): which options show as
    selected, and the value a click on an option reports back. */
module ChoiceField {
  import opened Seqs
  import opened Answers

  /** What `onChange` receives: one option in single mode, a list in
      multi-select mode. */
  datatype Choice = Single(option: string) | Multi(values: seq<string>)

  /** `Array.isArray(value) ? value : []`. */
  function CurrentValues(value: Value): seq<string> {
    if value.Arr? then value.items else []
  }

  /** `selectedValues`: the options the field shows as selected
      (`isSelected = selectedValues.includes(option)`). In multi-select mode an
      option is shown iff the value is an array holding it, in the array's
      order; in single mode at most one option is shown, the one the value
      equals, and the empty string never is. */
  function SelectedValues(multiple: bool, value: Value): (r: seq<string>)
    ensures forall o :: o in r <==>
              (multiple && value.Arr? && o in value.items) || (!multiple && value == Str(o) && o != "")
    ensures multiple ==> r == CurrentValues(value)
    ensures !multiple ==> |r| <= 1
  {
    if multiple then CurrentValues(value)
    else if value.Str? && Truthy(value) then [value.s]
    else []
  }

  /** The selection rule for a multi-select field: no exclusive option is
      mixed with another option. */
  predicate ExclusivityHolds(exclusive: seq<string>, vs: seq<string>) {
    (|vs| == 1 && vs[0] in exclusive) || (forall i :: 0 <= i < |vs| ==> vs[i] !in exclusive)
  }

  /** `v => !exclusiveOptions.includes(v)`. */
  function NotExclusive(exclusive: seq<string>): string -> bool {
    v => !Includes(exclusive, v)
  }

  /** `v => v !== option`. */
  function Other(option: string): string -> bool {
    v => v != option
  }

  /** `handleSelect(option)`: the value reported for a click on `option`. In
      single mode it is the option. In multi-select mode an exclusive option
      replaces the whole selection; any other option drops the exclusive
      options and is toggled: removed when selected, appended when not. */
  function HandleSelect(multiple: bool, exclusive: seq<string>, value: Value, option: string): (r: Choice)
    ensures !multiple ==> r == Single(option)
    ensures multiple ==> r.Multi?
    ensures multiple && option in exclusive ==> r == Multi([option])
    ensures multiple && option !in exclusive ==>
      && (forall i :: 0 <= i < |r.values| ==> r.values[i] !in exclusive)
      && (option in r.values <==> option !in CurrentValues(value))
      && (forall v :: v in r.values <==>
            (v in CurrentValues(value) && v !in exclusive && v != option)
            || (v == option && option !in CurrentValues(value)))
  {
    if !multiple then Single(option)
    else
      var current := CurrentValues(value);
      if Includes(exclusive, option) then Multi([option])
      else
        var filtered := Filter(current, NotExclusive(exclusive));
        FilterMembers(current, NotExclusive(exclusive));
        FilterMembers(filtered, Other(option));
        assert forall v :: v in filtered ==> v !in exclusive;
        if Includes(current, option) then Multi(Filter(filtered, Other(option)))
        else Multi(filtered + [option])
  }

  /** The field value `onChange` stores: the option itself, or the list. */
  function Reported(c: Choice): Value {
    match c
    case Single(o) => Str(o)
    case Multi(vs) => Arr(vs)
  }

  /** What the field shows after a click. In multi-select mode the shown
      selection obeys the exclusivity rule; in single mode exactly the
      clicked option is shown, unless it is the empty string, which shows
      nothing. */
  lemma ClickShowsSelection(multiple: bool, exclusive: seq<string>, value: Value, option: string)
    ensures var shown := SelectedValues(multiple, Reported(HandleSelect(multiple, exclusive, value, option)));
      && (multiple ==> ExclusivityHolds(exclusive, shown))
      && (!multiple ==> forall o :: o in shown <==> o == option && option != "")
  {
  }

  /** Every multi-select click leaves a selection that obeys the exclusivity
      rule, whatever the selection was before. */
  lemma ClickKeepsExclusivity(exclusive: seq<string>, value: Value, option: string)
    ensures ExclusivityHolds(exclusive, HandleSelect(true, exclusive, value, option).values)
  {
  }

  /** The options that survive a click keep their relative order: removing
      an option yields a subsequence of the previous selection, and adding one
      yields a subsequence of it followed by the new option. */
  lemma ClickKeepsOrder(exclusive: seq<string>, value: Value, option: string)
    requires option !in exclusive
    ensures var current := CurrentValues(value);
      var r := HandleSelect(true, exclusive, value, option).values;
      if option in current then IsSubsequence(r, current)
      else r != [] && r[|r| - 1] == option && IsSubsequence(r[..|r| - 1], current)
  {
    var current := CurrentValues(value);
    var filtered := Filter(current, NotExclusive(exclusive));
    var r := HandleSelect(true, exclusive, value, option).values;
    FilterIsSubsequence(current, NotExclusive(exclusive));
    if option in current {
      FilterIsSubsequence(filtered, Other(option));
      SubsequenceTransitive(r, filtered, current);
    } else {
      assert r[..|r| - 1] == filtered;
    }
  }

  /** A click introduces no duplicate into a duplicate-free selection. */
  lemma ClickKeepsDistinct(exclusive: seq<string>, value: Value, option: string)
    requires Distinct(CurrentValues(value))
    ensures Distinct(HandleSelect(true, exclusive, value, option).values)
  {
    var current := CurrentValues(value);
    if option !in exclusive {
      var filtered := Filter(current, NotExclusive(exclusive));
      FilterKeepsDistinct(current, NotExclusive(exclusive));
      FilterMembers(current, NotExclusive(exclusive));
      if option in current {
        FilterKeepsDistinct(filtered, Other(option));
      }
    }
  }

  /** Clicking an unselected ordinary option twice restores a selection that
      holds no exclusive option. */
  lemma ClickTwiceRestores(exclusive: seq<string>, current: seq<string>, option: string)
    requires option !in exclusive && option !in current
    requires forall i :: 0 <= i < |current| ==> current[i] !in exclusive
    ensures var once := HandleSelect(true, exclusive, Arr(current), option);
      HandleSelect(true, exclusive, Arr(once.values), option) == Multi(current)
  {
    var once := current + [option];
    FilterAll(current, NotExclusive(exclusive));
    assert HandleSelect(true, exclusive, Arr(current), option).values == once;
    FilterAll(once, NotExclusive(exclusive));
    FilterAppend(current, [option], Other(option));
    FilterAll(current, Other(option));
    assert Filter([option], Other(option)) == [];
  }
}
