/**
 * The checklist of a task: an ordered sequence of items whose order is array position.
 * Both task dialogs edit it with the same three copy-on-write updaters, modelled here
 * once on `seq<ChecklistItem>`; a missing list (`checklist_items ?? []`) is read as empty.
 */
module Checklist {
  import opened Wrappers

  datatype ChecklistItem = ChecklistItem(text: string, completed: bool)

  /** The item a click on "Add Checklist Item" appends. */
  const EmptyItem := ChecklistItem("", false)

  /** `items ?? []`: a missing checklist is the empty one. */
  function OrEmpty(items: Option<seq<ChecklistItem>>): seq<ChecklistItem> {
    items.GetOr([])
  }

  /** `copy[index]` is truthy exactly when `index` addresses an item (every item is an object). */
  predicate InRange(items: seq<ChecklistItem>, index: int) {
    0 <= index < |items|
  }

  /** `[...items, { text: '', completed: false }]`. */
  function Append(items: seq<ChecklistItem>): (r: seq<ChecklistItem>)
    ensures |r| == |items| + 1
    ensures r[..|items|] == items
    ensures r[|items|] == EmptyItem
  {
    items + [EmptyItem]
  }

  /**
   * Copy the list and, when the slot at `index` holds an item, replace that item's text.
   * Only that item's text changes; its completion flag and every other item stay as they were.
   */
  function SetText(items: seq<ChecklistItem>, index: int, value: string): (r: seq<ChecklistItem>)
    ensures |r| == |items|
    ensures forall j :: 0 <= j < |r| ==> r[j].completed == items[j].completed
    ensures forall j :: 0 <= j < |r| && j != index ==> r[j] == items[j]
    ensures InRange(items, index) ==> r[index].text == value
    ensures !InRange(items, index) ==> r == items
  {
    if InRange(items, index) then items[index := items[index].(text := value)] else items
  }

  /** `items.filter((_, i) => i !== index)` on the part of the list that starts at position `from`. */
  function KeepOthers(items: seq<ChecklistItem>, index: int, from: int): (r: seq<ChecklistItem>)
    ensures |r| == if from <= index < from + |items| then |items| - 1 else |items|
    decreases |items|
  {
    if items == [] then []
    else (if from == index then [] else [items[0]]) + KeepOthers(items[1..], index, from + 1)
  }

  /** The filter removes exactly the item at position `index`, if there is one. */
  lemma {:induction false} KeepOthersRemovesIndex(items: seq<ChecklistItem>, index: int, from: int)
    ensures KeepOthers(items, index, from)
         == if from <= index < from + |items| then items[..index - from] + items[index - from + 1..] else items
    decreases |items|
  {
    if items != [] {
      var rest := items[1..];
      KeepOthersRemovesIndex(rest, index, from + 1);
      if from == index {
        assert items[..0] + items[1..] == rest;
      } else if from < index < from + |items| {
        var k := index - from;
        assert [items[0]] + (rest[..k - 1] + rest[k..]) == items[..k] + items[k + 1..];
      } else {
        assert [items[0]] + rest == items;
      }
    }
  }

  /**
   * Remove the item at `index` with a filter over positions. Items before `index` keep their
   * positions, items after it move down by one, and an index that addresses no item removes nothing.
   */
  function RemoveAt(items: seq<ChecklistItem>, index: int): (r: seq<ChecklistItem>)
    ensures r == if InRange(items, index) then items[..index] + items[index + 1..] else items
    ensures InRange(items, index) ==> |r| == |items| - 1
    ensures forall j :: 0 <= j < |r| && j < index ==> r[j] == items[j]
    ensures forall j :: 0 <= j < |r| && InRange(items, index) && index <= j ==> r[j] == items[j + 1]
  {
    KeepOthersRemovesIndex(items, index, 0);
    KeepOthers(items, index, 0)
  }

  /** Removing the freshly appended item gives back the list: Append and RemoveAt are inverse. */
  lemma RemoveAppended(items: seq<ChecklistItem>)
    ensures RemoveAt(Append(items), |items|) == items
  {
    assert Append(items)[..|items|] == items;
  }

  /** Writing the old text back undoes a text change. */
  lemma SetTextRestore(items: seq<ChecklistItem>, index: int, value: string)
    requires InRange(items, index)
    ensures SetText(SetText(items, index, value), index, items[index].text) == items
  {
    assert SetText(SetText(items, index, value), index, items[index].text)[index] == items[index];
  }

  /** Of two text changes at the same index, the later wins. */
  lemma SetTextLastWins(items: seq<ChecklistItem>, index: int, first: string, second: string)
    ensures SetText(SetText(items, index, first), index, second) == SetText(items, index, second)
  {
  }
}
