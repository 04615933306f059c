/** A filter button of the filter bar: a multi-select list, a date range or
    an age range, the text on the button, whether it is highlighted, and
    what a click on an option does to a multi-select. */
module FilterDropdown {
  import opened Wrappers
  import opened Numbers
  import opened Seqs

  /** The value a dropdown edits; its kind is the dropdown's `type`. */
  datatype Selection =
    | Multi(items: seq<string>)
    | DateRange(from: string, to: string)
    | AgeRange(min: string, max: string)

  /** The value of the same kind with nothing chosen. */
  function Cleared(sel: Selection): Selection {
    match sel
    case Multi(_) => Multi([])
    case DateRange(_, _) => DateRange("", "")
    case AgeRange(_, _) => AgeRange("", "")
  }

  /** `isActive`: something is chosen. */
  function IsActive(sel: Selection): (r: bool)
    ensures r <==> sel != Cleared(sel)
  {
    match sel
    case Multi(items) => |items| > 0
    case DateRange(from, to) => from != "" || to != ""
    case AgeRange(min, max) => min != "" || max != ""
  }

  /** `getDisplayText()`: the label when nothing is chosen; for a list its
      one item, or the label and the count; for an age range the two ends,
      `Min` or `Max` standing in for an empty one; for a date range always
      the label. */
  function DisplayText(caption: string, sel: Selection): (r: string)
    ensures !IsActive(sel) ==> r == caption
    ensures sel.DateRange? ==> r == caption
    ensures sel.Multi? && |sel.items| == 1 ==> r == sel.items[0]
    ensures sel.AgeRange? && IsActive(sel) ==>
      r == (if sel.min != "" then sel.min else "Min") + " - " + (if sel.max != "" then sel.max else "Max")
  {
    match sel
    case Multi(items) =>
      if |items| == 0 then caption
      else if |items| == 1 then items[0]
      else caption + " (" + IntToString(|items|) + ")"
    case DateRange(_, _) => caption
    case AgeRange(min, max) =>
      if min == "" && max == "" then caption
      else (if min != "" then min else "Min") + " - " + (if max != "" then max else "Max")
  }

  /** With two or more items chosen the button reads the label, then the
      count in parentheses, which `parseInt` reads back. */
  lemma MultiCountShown(caption: string, items: seq<string>)
    requires |items| >= 2
    ensures var r := DisplayText(caption, Multi(items));
      |r| > |caption| + 2 && r[..|caption|] == caption && r[|caption|..|caption| + 2] == " (" &&
      r[|r| - 1] == ')' && ParseInt(r[|caption| + 2..]) == Some(|items|)
  {
    var r := DisplayText(caption, Multi(items));
    var tail := IntToString(|items|) + ")";
    assert r == caption + (" (" + tail);
    assert r[..|caption|] == caption;
    assert r[|caption|..|caption| + 2] == " (";
    assert r[|caption| + 2..] == tail;
    assert r[|r| - 1] == tail[|tail| - 1] == ')';
    ParseIntThen(|items|, ")");
  }

  /** A typed lower age bound (digits, as the number input gives) is what
      the button's text starts with. */
  lemma AgeRangeShowsMin(caption: string, min: string, max: string)
    requires |min| > 0 && AllDigits(min)
    ensures ParseInt(DisplayText(caption, AgeRange(min, max))) == Some(DigitsValue(min))
  {
    var shownMax := if max != "" then max else "Max";
    var rest := " - " + shownMax;
    assert DisplayText(caption, AgeRange(min, max)) == min + " - " + shownMax;
    assert min + " - " + shownMax == min + rest;
    assert rest[0] == ' ';
    ParseDigitsThen(min, rest);
  }

  /** `handleToggleOption(option)`: a chosen option is removed (every copy of
      it), any other is added at the end. */
  function ToggleOption(selected: seq<string>, option: string): seq<string> {
    if option in selected then Where(selected, item => item != option)
    else selected + [option]
  }

  /** A click flips whether the option is chosen and leaves every other
      option as it was; removing keeps the rest in their order. */
  lemma ToggleMembers(selected: seq<string>, option: string)
    ensures option in ToggleOption(selected, option) <==> option !in selected
    ensures forall y :: y != option ==> (y in ToggleOption(selected, option) <==> y in selected)
    ensures option in selected ==> IsSubsequence(ToggleOption(selected, option), selected)
  {
    var p := (item: string) => item != option;
    if option in selected {
      WhereMembers(selected, p, option);
      forall y | y != option
        ensures y in ToggleOption(selected, option) <==> y in selected
      {
        WhereMembers(selected, p, y);
      }
      WhereIsSubsequence(selected, p);
    }
  }

  /** Two clicks on an option that was not chosen give back the list as it
      was. */
  lemma ToggleTwiceUnchosen(selected: seq<string>, option: string)
    requires option !in selected
    ensures ToggleOption(ToggleOption(selected, option), option) == selected
  {
    var p := (item: string) => item != option;
    WhereSnoc(selected, option, p);
    WhereKeepsAll(selected, p);
  }

  /** Two clicks on a chosen option choose the same options again, now with
      that option once and at the end. */
  lemma ToggleTwiceChosen(selected: seq<string>, option: string)
    requires option in selected
    ensures ToggleOption(ToggleOption(selected, option), option) ==
      Where(selected, item => item != option) + [option]
    ensures forall y :: y in ToggleOption(ToggleOption(selected, option), option) <==> y in selected
  {
    ToggleMembers(selected, option);
  }
}
