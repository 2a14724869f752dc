/** `StorageCtrl`: the persisted copy of the item list. The browser's
    `localStorage` slot named `items` is modelled as an optional list (the
    JSON text it really holds is not modelled); every list operation reads the
    whole list, changes it and writes the whole list back. */
module Storage {
  import opened Items

  /** The `forEach` loop of `deleteStoredItem` continued from position k: an
      entry with the id is spliced out, which shifts the next entry into the
      current position, and the walk then steps past it without looking at it.
      The entries before position k are kept and the list never grows. */
  function SpliceWalk(s: seq<Item>, k: nat, id: int): (r: seq<Item>)
    ensures |r| <= |s|
    ensures k <= |s| ==> k <= |r| && r[..k] == s[..k]
    decreases |s| - k
  {
    if k >= |s| then s
    else if s[k].id == id then SpliceWalk(s[..k] + s[k + 1..], k + 1, id)
    else SpliceWalk(s, k + 1, id)
  }

  /** The stored list after `deleteStoredItem(id)`: it never grows. */
  function DeleteStored(s: seq<Item>, id: int): (r: seq<Item>)
    ensures |r| <= |s|
  {
    SpliceWalk(s, 0, id)
  }

  /** The walk drops only entries that carry the id: every other entry keeps
      its number of occurrences, and nothing is added. */
  lemma {:induction false} SpliceWalkDropsOnlyId(s: seq<Item>, k: nat, id: int)
    ensures multiset(SpliceWalk(s, k, id)) <= multiset(s)
    ensures forall x: Item :: x.id != id ==> multiset(SpliceWalk(s, k, id))[x] == multiset(s)[x]
    decreases |s| - k
  {
    if k < |s| {
      if s[k].id == id {
        RemoveAtMultiset(s, k);
        SpliceWalkDropsOnlyId(s[..k] + s[k + 1..], k + 1, id);
      } else {
        SpliceWalkDropsOnlyId(s, k + 1, id);
      }
    }
  }

  /** Splicing out the entry at k takes exactly that one occurrence out of the multiset. */
  lemma RemoveAtMultiset(s: seq<Item>, k: nat)
    requires k < |s|
    ensures multiset(s) == multiset(s[..k] + s[k + 1..]) + multiset{s[k]}
  {
    assert s == s[..k] + [s[k]] + s[k + 1..];
  }

  /** `deleteStoredItem(id)` keeps every entry whose id differs, and adds nothing. */
  lemma {:induction false} DeleteStoredKeepsOthers(s: seq<Item>, id: int)
    ensures multiset(DeleteStored(s, id)) <= multiset(s)
    ensures forall x :: x in s && x.id != id ==> x in DeleteStored(s, id)
  {
    SpliceWalkDropsOnlyId(s, 0, id);
    var r := DeleteStored(s, id);
    forall x | x in s && x.id != id
      ensures x in r
    {
      assert multiset(r)[x] == multiset(s)[x] > 0;
    }
  }

  /** With no entry carrying the id from position k on, the walk changes nothing. */
  lemma {:induction false} SpliceWalkNoMatch(s: seq<Item>, k: nat, id: int)
    requires forall j :: k <= j < |s| ==> s[j].id != id
    ensures SpliceWalk(s, k, id) == s
    decreases |s| - k
  {
    if k < |s| {
      SpliceWalkNoMatch(s, k + 1, id);
    }
  }

  /** With exactly one entry carrying the id at or after position k, the walk removes just that entry. */
  lemma {:induction false} SpliceWalkSingle(s: seq<Item>, k: nat, i: nat, id: int)
    requires k <= i < |s| && s[i].id == id
    requires forall j :: k <= j < |s| && j != i ==> s[j].id != id
    ensures SpliceWalk(s, k, id) == s[..i] + s[i + 1..]
    decreases i - k
  {
    if k < i {
      SpliceWalkSingle(s, k + 1, i, id);
    } else {
      var t := s[..i] + s[i + 1..];
      forall j | i + 1 <= j < |t|
        ensures t[j].id != id
      {
        assert t[j] == s[j + 1];
      }
      SpliceWalkNoMatch(t, i + 1, id);
    }
  }

  /** `deleteStoredItem` leaves the list as it was when no entry has the id. */
  lemma {:induction false} DeleteStoredAbsent(s: seq<Item>, id: int)
    requires id !in Ids(s)
    ensures DeleteStored(s, id) == s
  {
    SpliceWalkNoMatch(s, 0, id);
  }

  /** With distinct ids, `deleteStoredItem` removes exactly the entry with the id. */
  lemma {:induction false} DeleteStoredUnique(s: seq<Item>, i: nat)
    requires IdsDistinct(s)
    requires i < |s|
    ensures DeleteStored(s, s[i].id) == s[..i] + s[i + 1..]
  {
    forall j | 0 <= j < |s| && j != i
      ensures s[j].id != s[i].id
    {
      if j < i {
        assert s[j].id != s[i].id;
      } else {
        assert s[i].id != s[j].id;
      }
    }
    SpliceWalkSingle(s, 0, i, s[i].id);
  }

  /** When the entries at k and k + 1 both carry the id, the walk splices out
      the first, steps past the second (now at position k) and keeps it. */
  lemma {:induction false} SpliceWalkSkipsNeighbour(s: seq<Item>, k: nat, id: int)
    requires k + 1 < |s| && s[k].id == id && s[k + 1].id == id
    ensures |SpliceWalk(s, k, id)| > k && SpliceWalk(s, k, id)[k] == s[k + 1]
  {
    var t := s[..k] + s[k + 1..];
    assert t[k] == s[k + 1];
  }

  /** For an id present in a list with distinct ids, deleting in memory and in storage agree. */
  lemma {:induction false} DeleteAgrees(s: seq<Item>, id: int)
    requires IdsDistinct(s)
    requires id in Ids(s)
    ensures DeleteById(s, id) == DeleteStored(s, id)
  {
    DeleteByIdCases(s, id);
    var i :| 0 <= i < |s| && s[i].id == id && DeleteById(s, id) == s[..i] + s[i + 1..];
    DeleteStoredUnique(s, i);
  }

  /** For an absent id on a non-empty list, the in-memory delete drops the last
      entry while the stored list keeps it: the two copies part. */
  lemma {:induction false} DeleteAbsentDiverges(s: seq<Item>, id: int)
    requires s != []
    requires id !in Ids(s)
    ensures DeleteById(s, id) == s[..|s| - 1]
    ensures DeleteStored(s, id) == s
    ensures DeleteById(s, id) != DeleteStored(s, id)
  {
    DeleteByIdCases(s, id);
    DeleteStoredAbsent(s, id);
    assert |s[..|s| - 1]| != |s|;
  }

  class StorageCtrl {
    /** The `items` slot of local storage; None when nothing is stored. */
    var slot: Option<seq<Item>>

    constructor(initial: Option<seq<Item>>)
      ensures slot == initial
    {
      slot := initial;
    }

    /** The list the slot stands for: the stored list, or empty when nothing is stored. */
    function StoredList(): seq<Item>
      reads this
    {
      match slot
      case None => []
      case Some(s) => s
    }

    /** `getStoredItems`: the stored list, or [] when the slot is empty. */
    method GetStoredItems() returns (items: seq<Item>)
      ensures slot.None? ==> items == []
      ensures slot.Some? ==> items == slot.value
    {
      match slot
      case None => items := [];
      case Some(s) => items := s;
    }

    /** `setStoredItems`: overwrite the slot with the whole list. */
    method SetStoredItems(items: seq<Item>)
      modifies this
      ensures slot == Some(items)
      ensures StoredList() == items
    {
      slot := Some(items);
    }

    /** `storeItem`: append the item at the end of the stored list. */
    method StoreItem(item: Item)
      modifies this
      ensures slot == Some(old(StoredList()) + [item])
    {
      var items := GetStoredItems();
      items := items + [item];
      SetStoredItems(items);
    }

    /** `updateStoredItem`: every stored entry with the updated item's id is
        replaced by it, in place. The source dereferences `updatedItem.id` once
        per stored entry, so a missing item (null) is only allowed on an empty list. */
    method UpdateStoredItem(updated: Option<Item>)
      requires updated.None? ==> StoredList() == []
      modifies this
      ensures updated.Some? ==> slot == Some(Replaced(old(StoredList()), updated.value))
      ensures updated.None? ==> slot == Some([])
      ensures |StoredList()| == |old(StoredList())| && Ids(StoredList()) == Ids(old(StoredList()))
    {
      var items := GetStoredItems();
      ghost var before := items;
      for index := 0 to |items|
        invariant |items| == |before|
        invariant |before| > 0 ==> updated.Some?
        invariant forall j :: 0 <= j < index ==> items[j] == Replaced(before, updated.value)[j]
        invariant forall j :: index <= j < |items| ==> items[j] == before[j]
      {
        if updated.value.id == items[index].id {
          // replace the entry in place
          items := items[index := updated.value];
        }
      }
      if updated.Some? {
        assert items == Replaced(before, updated.value);
        ReplacedKeepsIds(before, updated.value);
      }
      SetStoredItems(items);
    }

    /** `deleteStoredItem`: splice out entries with the id while walking the list. */
    method DeleteStoredItem(id: int)
      modifies this
      ensures slot == Some(DeleteStored(old(StoredList()), id))
      ensures id !in Ids(old(StoredList())) ==> StoredList() == old(StoredList())
    {
      var items := GetStoredItems();
      ghost var before := items;
      var n := |items|;
      for index := 0 to n
        invariant |items| <= n
        invariant SpliceWalk(items, index, id) == SpliceWalk(before, 0, id)
      {
        if index < |items| && id == items[index].id {
          items := items[..index] + items[index + 1..];
        }
      }
      SetStoredItems(items);
      if id !in Ids(before) {
        DeleteStoredAbsent(before, id);
      }
    }

    /** `clearStorage`: the slot holds nothing afterwards. */
    method ClearStorage()
      modifies this
      ensures slot == None
      ensures StoredList() == []
    {
      slot := None;
    }
  }
}
