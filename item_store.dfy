/** `ItemCtrl`: the in-memory store. Its private `data` record becomes the
    fields of one object: the item list, the item being edited (a copy of it;
    None for null) and the last computed calorie total. */
module ItemStore {
  import opened Items
  import opened Decimal
  import Storage

  class ItemCtrl {
    var items: seq<Item>
    var currentItem: Option<Item>
    var totalCalories: int

    /** The store starts from whatever the storage slot holds, with nothing selected and a zero total. */
    constructor(storage: Storage.StorageCtrl)
      ensures items == storage.StoredList()
      ensures currentItem == None && totalCalories == 0
    {
      var stored := storage.GetStoredItems();
      items := stored;
      currentItem := None;
      totalCalories := 0;
    }

    /** `getItems`: the list itself. */
    method GetItems() returns (r: seq<Item>)
      ensures r == items
    {
      r := items;
    }

    /** `addItem`: the new item gets the last item's id plus one (0 on an empty
        list), carries the parsed calories and is appended; nothing else changes. */
    method AddItem(name: string, calories: string) returns (newItem: Item)
      requires IsDigits(calories)
      modifies this
      ensures newItem.id == if old(items) == [] then 0 else old(items)[|old(items)| - 1].id + 1
      ensures newItem.name == name && newItem.calories == DigitsValue(calories)
      ensures items == old(items) + [newItem] && items == Add(old(items), name, DigitsValue(calories))
      ensures IdsIncreasing(old(items)) ==> IdsIncreasing(items)
      ensures currentItem == old(currentItem) && totalCalories == old(totalCalories)
    {
      var itemId;
      if |items| > 0 {
        itemId := items[|items| - 1].id + 1;
      } else {
        itemId := 0;
      }
      var cals := DigitsValue(calories);
      newItem := Item(itemId, name, cals);
      items := items + [newItem];
    }

    /** `getItemById`: scans the whole list and keeps the last entry with the id. */
    method GetItemById(id: int) returns (result: Option<Item>)
      ensures result == LastWithId(items, id)
      ensures result.None? <==> id !in Ids(items)
      ensures result.Some? ==> result.value in items && result.value.id == id
    {
      result := None;
      for i := 0 to |items|
        invariant result == LastWithId(items[..i], id)
      {
        if items[i].id == id {
          result := Some(items[i]);
        }
        assert items[..i + 1][..i] == items[..i];
      }
      assert items[..|items|] == items;
    }

    /** `updateItem`: every entry whose id is the current item's id gets the new
        name and parsed calories; ids, order and the other entries stay. The
        source reads `data.currentItem.id` once per entry, so a selection must
        exist whenever the list is non-empty. The result is the updated entry,
        or None when no entry matched. */
    method UpdateItem(name: string, calories: string) returns (result: Option<Item>)
      requires IsDigits(calories)
      requires items != [] ==> currentItem.Some?
      modifies this
      ensures old(items) == [] ==> items == [] && result == None
      ensures old(items) != [] ==>
        var u := Item(old(currentItem).value.id, name, DigitsValue(calories));
        items == Replaced(old(items), u) &&
        result == if u.id in Ids(old(items)) then Some(u) else None
      ensures Ids(items) == Ids(old(items))
      ensures IdsIncreasing(old(items)) ==> IdsIncreasing(items)
      ensures currentItem == old(currentItem) && totalCalories == old(totalCalories)
    {
      var cals := DigitsValue(calories);
      result := None;
      ghost var before := items;
      ghost var u := Item(if before == [] then 0 else currentItem.value.id, name, cals);
      for i := 0 to |items|
        invariant |items| == |before|
        invariant currentItem == old(currentItem) && totalCalories == old(totalCalories)
        invariant before != [] ==> currentItem.Some? && currentItem.value.id == u.id
        invariant forall j :: 0 <= j < i ==> items[j] == if before[j].id == u.id then u else before[j]
        invariant forall j :: i <= j < |items| ==> items[j] == before[j]
        invariant result.None? ==> forall j :: 0 <= j < i ==> before[j].id != u.id
        invariant result.Some? ==> result == Some(u) && u.id in Ids(before)
      {
        if items[i].id == currentItem.value.id {
          var item := Item(items[i].id, name, cals);
          items := items[i := item];
          result := Some(item);
          assert Ids(before)[i] == u.id;
        }
      }
      ReplacedKeepsIds(before, u);
      if before != [] {
        assert items == Replaced(before, u);
      }
    }

    /** `deleteItem`: splice out at the index `indexOf` gives in the id projection
        (-1 for an absent id, which removes the last entry), and drop the selection. */
    method DeleteItem(id: int)
      modifies this
      ensures items == DeleteById(old(items), id)
      ensures id in Ids(old(items)) ==>
        var i := IndexOf(Ids(old(items)), id);
        0 <= i < |old(items)| && old(items)[i].id == id &&
        (forall j :: 0 <= j < i ==> old(items)[j].id != id) &&
        items == old(items)[..i] + old(items)[i + 1..]
      ensures id !in Ids(old(items)) ==> items == if old(items) == [] then [] else old(items)[..|old(items)| - 1]
      ensures IdsIncreasing(old(items)) ==> IdsIncreasing(items) && LastWithId(items, id) == None
      ensures currentItem == None && totalCalories == old(totalCalories)
    {
      var idsArr := Ids(items);
      var index := IndexOf(idsArr, id);
      var remaining := SpliceOne(items, index);
      DeleteByIdCases(items, id);
      if IdsIncreasing(items) {
        DeleteKeepsIncreasing(items, id);
        DeleteRemovesId(items, id);
      }
      items := remaining;
      currentItem := None;
    }

    /** `clearAll`: the list becomes empty; the selection and the total are left as they were. */
    method ClearAll()
      modifies this
      ensures items == [] && IdsIncreasing(items)
      ensures currentItem == old(currentItem) && totalCalories == old(totalCalories)
    {
      items := [];
    }

    /** `setCurrentItem`. */
    method SetCurrentItem(item: Option<Item>)
      modifies this
      ensures currentItem == item
      ensures items == old(items) && totalCalories == old(totalCalories)
    {
      currentItem := item;
    }

    /** `getCurrentItem`. */
    method GetCurrentItem() returns (r: Option<Item>)
      ensures r == currentItem
    {
      r := currentItem;
    }

    /** `calcTotalCals`: the sum of all entries' calories, also kept as the stored total. */
    method CalcTotalCals() returns (total: int)
      modifies this
      ensures total == Sum(items) && totalCalories == total
      ensures items == old(items) && currentItem == old(currentItem)
    {
      total := 0;
      for i := 0 to |items|
        invariant total == Sum(items[..i])
      {
        total := total + items[i].calories;
        assert items[..i + 1][..i] == items[..i];
      }
      assert items[..|items|] == items;
      totalCalories := total;
    }
  }
}
