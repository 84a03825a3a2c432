/** The radio group field (components/RadioGroupField.tsx): which value counts as
    current, which item is selected, and what a press forwards. */
module RadioGroup {
  import opened Common

  datatype RadioItem = RadioItem(value: string, caption: string)

  /** An item as rendered: its value and label, and whether it shows as selected. */
  datatype RenderedItem = RenderedItem(value: string, caption: string, isSelected: bool)

  /** `value || defaultValue`: the controlled value when it is a non-empty string,
      the default otherwise (which may itself be absent). */
  function CurrentValue(value: Option<string>, defaultValue: Option<string>): (r: Option<string>)
    ensures value.Some? && value.value != "" ==> r == value
    ensures value.None? || value.value == "" ==> r == defaultValue
  {
    if value.Some? && value.value != "" then value else defaultValue
  }

  /** `items.map(...)`: one rendered item per input item, in the same order; an item is
      selected exactly when its value is the current value. */
  function RenderItems(items: seq<RadioItem>, value: Option<string>, defaultValue: Option<string>)
    : (r: seq<RenderedItem>)
    ensures |r| == |items|
    ensures forall i :: 0 <= i < |items| ==> r[i].value == items[i].value && r[i].caption == items[i].caption
    ensures forall i :: 0 <= i < |items| ==>
              (r[i].isSelected <==> CurrentValue(value, defaultValue) == Some(items[i].value))
  {
    var current := CurrentValue(value, defaultValue);
    seq(|items|, i requires 0 <= i < |items| =>
      RenderedItem(items[i].value, items[i].caption, current == Some(items[i].value)))
  }

  predicate DistinctValues(items: seq<RadioItem>) {
    forall i, j :: 0 <= i < j < |items| ==> items[i].value != items[j].value
  }

  /** With distinct values at most one item is selected. */
  lemma AtMostOneSelected(items: seq<RadioItem>, value: Option<string>, defaultValue: Option<string>, i: int, j: int)
    requires DistinctValues(items)
    requires 0 <= i < |items| && 0 <= j < |items|
    requires RenderItems(items, value, defaultValue)[i].isSelected
    requires RenderItems(items, value, defaultValue)[j].isSelected
    ensures i == j
  {
  }

  /** A non-empty controlled value wins over the default: pressing an item and feeding
      its value back makes exactly that item the selected one. */
  lemma PressedItemBecomesSelected(items: seq<RadioItem>, defaultValue: Option<string>, k: int)
    requires DistinctValues(items) && 0 <= k < |items| && items[k].value != ""
    ensures forall i :: 0 <= i < |items| ==>
              (RenderItems(items, HandlePress(true, items[k].value), defaultValue)[i].isSelected <==> i == k)
  {
  }

  /** `handlePress`: the value passed to `onValueChange`, or None when no handler
      was given and nothing is called. */
  function HandlePress(hasHandler: bool, itemValue: string): (forwarded: Option<string>)
    ensures hasHandler ==> forwarded == Some(itemValue)
    ensures !hasHandler ==> forwarded.None?
  {
    if hasHandler then Some(itemValue) else None
  }
}
