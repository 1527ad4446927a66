/**
 * The multi-select control: choosing an option toggles it in the current
 * value, and the new list is handed to onChange. The control keeps no
 * state of its own; the value it shows comes from its props.
 */
module MultiSelect {
  import opened Toggling

  /**
   * handleValueChange: the list passed, once, to onChange. An option not
   * yet chosen is appended at the end; a chosen one is dropped wherever it
   * occurs, every other option keeping its place in the order and its
   * count. Only the chosen option's membership changes, and a list without
   * duplicates stays without them. The incoming value is a value here, so
   * it cannot be altered.
   */
  method HandleValueChange(value: seq<Item>, selectedValue: Item) returns (newValue: seq<Item>)
    ensures selectedValue !in value ==> newValue == value + [selectedValue]
    ensures selectedValue in value ==>
              && selectedValue !in newValue
              && multiset(newValue) == multiset(value)[selectedValue := 0]
              && IsSubsequence(newValue, value)
    ensures forall v :: v != selectedValue ==> (v in newValue <==> v in value)
    ensures NoDuplicates(value) ==> NoDuplicates(newValue)
  {
    if selectedValue in value {
      ToggleRemovesAll(value, selectedValue);
    }
    if NoDuplicates(value) {
      ToggleNoDuplicates(value, selectedValue);
    }
    newValue := Toggle(value, selectedValue);
  }
}
