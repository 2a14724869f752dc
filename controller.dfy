/** `App`: the event handlers that tie the store to storage, with every
    `UiCtrl` call (rendering, form reset, toasts) dropped. Form input arrives as
    the raw strings the handlers read; each handler changes the in-memory store,
    then the stored copy, then recomputes the total. */
module Controller {
  import opened Items
  import opened Decimal
  import opened DomIds
  import opened ItemStore
  import opened Storage

  /** The item `itemEditClick` selects for a clicked element id: `getItemById`
      on the parsed number, and nothing for NaN (no entry's id equals NaN). */
  function Selection(items: seq<Item>, elemId: string): (r: Option<Item>)
    ensures r.None? <==> ParseElemId(elemId).None? || ParseElemId(elemId).value !in Ids(items)
    ensures r.Some? ==> r.value in items && ParseElemId(elemId) == Some(r.value.id)
  {
    match ParseElemId(elemId)
    case None => None
    case Some(id) => LastWithId(items, id)
  }

  /** Clicking the edit icon of an entry with a non-negative id, in a list with
      distinct ids, selects exactly that entry. */
  lemma {:induction false} ClickSelectsItem(items: seq<Item>, i: nat)
    requires IdsDistinct(items)
    requires i < |items| && items[i].id >= 0
    ensures Selection(items, ElemId(items[i].id)) == Some(items[i])
  {
    ElemIdRoundTrip(items[i].id);
    LastWithIdUnique(items, i);
  }

  class App {
    const itemCtrl: ItemCtrl
    const storageCtrl: StorageCtrl

    /** The stored list equals the in-memory list. */
    predicate InSync()
      reads itemCtrl, storageCtrl
    {
      storageCtrl.StoredList() == itemCtrl.items
    }

    /** `App.init` over a store that has just loaded the stored list: the total
        is computed when there is something to show. */
    constructor(storage: StorageCtrl)
      ensures storageCtrl == storage && fresh(itemCtrl)
      ensures storage.slot == old(storage.slot)
      ensures InSync()
      ensures itemCtrl.totalCalories == Sum(itemCtrl.items) && itemCtrl.currentItem == None
    {
      storageCtrl := storage;
      itemCtrl := new ItemCtrl(storage);
      new;
      var items := itemCtrl.GetItems();
      if |items| > 0 {
        UpdateTotalCals();
      }
    }

    /** `updateTotalCals`: recompute the total (its display is dropped). */
    method UpdateTotalCals()
      modifies itemCtrl
      ensures itemCtrl.totalCalories == Sum(itemCtrl.items)
      ensures itemCtrl.items == old(itemCtrl.items) && itemCtrl.currentItem == old(itemCtrl.currentItem)
    {
      var total := itemCtrl.CalcTotalCals();
    }

    /** `itemAddSubmit`: with an empty name or calorie field nothing happens;
        otherwise the new item is appended to the store and to storage and the
        total is recomputed, so two lists that agreed still agree. */
    method ItemAddSubmit(name: string, calories: string)
      requires name != "" && calories != "" ==> IsDigits(calories)
      modifies itemCtrl, storageCtrl
      ensures name == "" || calories == "" ==> unchanged(itemCtrl) && unchanged(storageCtrl)
      ensures name != "" && calories != "" ==>
        itemCtrl.items == Add(old(itemCtrl.items), name, DigitsValue(calories)) &&
        storageCtrl.StoredList() == old(storageCtrl.StoredList()) + [itemCtrl.items[|itemCtrl.items| - 1]] &&
        itemCtrl.totalCalories == Sum(itemCtrl.items) &&
        itemCtrl.currentItem == old(itemCtrl.currentItem)
      ensures old(InSync()) ==> InSync()
      ensures IdsIncreasing(old(itemCtrl.items)) ==> IdsIncreasing(itemCtrl.items)
    {
      if name == "" || calories == "" {
        // only a warning is shown, which is not modelled
      } else {
        var newItem := itemCtrl.AddItem(name, calories);
        UpdateTotalCals();
        storageCtrl.StoreItem(newItem);
      }
    }

    /** `itemEditClick`: the clicked element id is parsed and the entry found by
        that id becomes the current item (None when there is none). */
    method ItemEditClick(elemId: string)
      modifies itemCtrl
      ensures itemCtrl.currentItem == Selection(old(itemCtrl.items), elemId)
      ensures itemCtrl.items == old(itemCtrl.items) && itemCtrl.totalCalories == old(itemCtrl.totalCalories)
    {
      var itemToEdit := None;
      match ParseElemId(elemId) {
        case None =>
        case Some(id) =>
          itemToEdit := itemCtrl.GetItemById(id);
      }
      itemCtrl.SetCurrentItem(itemToEdit);
    }

    /** `itemUpdateSubmit`: the input is not validated. The entries with the
        current item's id get the new name and calories in the store and in
        storage, and the total is recomputed; the selection stays. The source
        throws (a null item dereferenced while redrawing or storing) unless a
        non-empty list holds the current id, and unless storage is empty when
        the list is. */
    method ItemUpdateSubmit(name: string, calories: string)
      requires IsDigits(calories)
      requires itemCtrl.items != [] ==>
        itemCtrl.currentItem.Some? && itemCtrl.currentItem.value.id in Ids(itemCtrl.items)
      requires itemCtrl.items == [] ==> storageCtrl.StoredList() == []
      modifies itemCtrl, storageCtrl
      ensures old(itemCtrl.items) == [] ==> itemCtrl.items == [] && storageCtrl.slot == Some([])
      ensures old(itemCtrl.items) != [] ==>
        var u := Item(old(itemCtrl.currentItem).value.id, name, DigitsValue(calories));
        itemCtrl.items == Replaced(old(itemCtrl.items), u) &&
        storageCtrl.StoredList() == Replaced(old(storageCtrl.StoredList()), u)
      ensures itemCtrl.totalCalories == Sum(itemCtrl.items)
      ensures itemCtrl.currentItem == old(itemCtrl.currentItem)
      ensures old(InSync()) ==> InSync()
      ensures IdsIncreasing(old(itemCtrl.items)) ==> IdsIncreasing(itemCtrl.items)
    {
      var updatedItem := itemCtrl.UpdateItem(name, calories);
      UpdateTotalCals();
      storageCtrl.UpdateStoredItem(updatedItem);
    }

    /** `itemDeleteSubmit`: the current item's id is deleted from the store,
        which drops the selection. Then `deleteListItem` removes the element
        `item-${id}` from the rendered list, which holds one element per entry
        of the list before the delete. When no entry had the id there is no such
        element, `item.remove()` throws, and the stored delete and the total
        update never run. Otherwise the id is deleted from storage and the
        total is recomputed. With distinct ids, two lists that agreed still
        agree; an absent id on a non-empty list parts them. */
    method ItemDeleteSubmit()
      requires itemCtrl.currentItem.Some?
      modifies itemCtrl, storageCtrl
      ensures itemCtrl.items == DeleteById(old(itemCtrl.items), old(itemCtrl.currentItem).value.id)
      ensures itemCtrl.currentItem == None
      ensures IdsIncreasing(old(itemCtrl.items)) ==> IdsIncreasing(itemCtrl.items)
      ensures
        var id := old(itemCtrl.currentItem).value.id;
        id in Ids(old(itemCtrl.items)) ==>
          storageCtrl.StoredList() == DeleteStored(old(storageCtrl.StoredList()), id) &&
          itemCtrl.totalCalories == Sum(itemCtrl.items)
      ensures
        var id := old(itemCtrl.currentItem).value.id;
        id !in Ids(old(itemCtrl.items)) ==>
          storageCtrl.slot == old(storageCtrl.slot) &&
          itemCtrl.totalCalories == old(itemCtrl.totalCalories)
      ensures (old(InSync()) && IdsDistinct(old(itemCtrl.items)) &&
               old(itemCtrl.currentItem).value.id in Ids(old(itemCtrl.items))) ==> InSync()
      ensures (old(InSync()) && old(itemCtrl.items) != [] &&
               old(itemCtrl.currentItem).value.id !in Ids(old(itemCtrl.items))) ==> !InSync()
    {
      var currentItem := itemCtrl.GetCurrentItem();
      var id := currentItem.value.id;
      var rendered := id in Ids(itemCtrl.items);
      itemCtrl.DeleteItem(id);
      if rendered {
        storageCtrl.DeleteStoredItem(id);
        UpdateTotalCals();
        if old(InSync()) && IdsDistinct(old(itemCtrl.items)) {
          DeleteAgrees(old(itemCtrl.items), id);
        }
      } else if old(itemCtrl.items) != [] {
        // deleteListItem throws: the rest of the handler does not run
        assert |itemCtrl.items| == |old(itemCtrl.items)| - 1;
      }
    }

    /** `clearAllClick`: the store and storage are emptied and the total is
        zero; the selection is not touched. */
    method ClearAllClick()
      modifies itemCtrl, storageCtrl
      ensures itemCtrl.items == [] && storageCtrl.slot == None
      ensures itemCtrl.totalCalories == 0
      ensures itemCtrl.currentItem == old(itemCtrl.currentItem)
      ensures InSync()
    {
      itemCtrl.ClearAll();
      UpdateTotalCals();
      storageCtrl.ClearStorage();
    }
  }
}
