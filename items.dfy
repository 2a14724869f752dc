/** The item list of the calorie tracker as a value: the entries, the
    operations `ItemCtrl` performs on its `data.items` array stated as functions
    on sequences, and what they keep (strictly increasing ids, the calorie sum). */
module Items {

  datatype Option<T> = None | Some(value: T)

  /** One logged meal: the source's `Item` constructor. */
  datatype Item = Item(id: int, name: string, calories: int)

  /** `items.map(item => item.id)`. */
  function Ids(s: seq<Item>): (r: seq<int>)
    ensures |r| == |s|
    ensures forall i :: 0 <= i < |s| ==> r[i] == s[i].id
  {
    if s == [] then [] else [s[0].id] + Ids(s[1..])
  }

  /** `Array.prototype.indexOf`: the first position of x, or -1 when x is absent. */
  function IndexOf(xs: seq<int>, x: int): (r: int)
    ensures -1 <= r < |xs|
    ensures r == -1 <==> x !in xs
    ensures 0 <= r ==> xs[r] == x && x !in xs[..r]
  {
    if xs == [] then -1
    else if xs[0] == x then 0
    else
      var k := IndexOf(xs[1..], x);
      assert x in xs[1..] ==> x in xs;
      assert 0 <= k ==> xs[..k + 1] == [xs[0]] + xs[1..][..k];
      if k == -1 then -1 else k + 1
  }

  /** The position `splice(start, 1)` removes at: a negative start counts back
      from the end, and the result is clamped to [0, len]. */
  function SpliceStart(len: nat, start: int): (k: nat)
    ensures k <= len
    ensures start < 0 && len + start >= 0 ==> k == len + start
    ensures start < 0 && len + start < 0 ==> k == 0
    ensures start >= 0 ==> k == if start <= len then start else len
  {
    if start < 0 then (if len + start < 0 then 0 else len + start)
    else if start > len then len
    else start
  }

  /** `s.splice(start, 1)`: the list after removing at most one entry. */
  function SpliceOne(s: seq<Item>, start: int): (r: seq<Item>)
    ensures start < |s| && s != [] ==> |r| == |s| - 1
    ensures SpliceStart(|s|, start) == |s| ==> r == s
    ensures var k := SpliceStart(|s|, start); k < |s| ==> r == s[..k] + s[k + 1..]
  {
    var k := SpliceStart(|s|, start);
    if k < |s| then s[..k] + s[k + 1..] else s
  }

  /** Ids strictly increase along the list, so in particular no id repeats. */
  predicate IdsIncreasing(s: seq<Item>) {
    forall i, j :: 0 <= i < j < |s| ==> s[i].id < s[j].id
  }

  /** No id occurs twice, in whatever order the ids come. */
  predicate IdsDistinct(s: seq<Item>) {
    forall i, j :: 0 <= i < j < |s| ==> s[i].id != s[j].id
  }

  /** Id assignment in `addItem`: the last entry's id plus one, or 0 for an
      empty list; in a list with increasing ids it is above every id. */
  function NextId(s: seq<Item>): (r: int)
    ensures IdsIncreasing(s) ==> forall i :: 0 <= i < |s| ==> s[i].id < r
  {
    if |s| > 0 then s[|s| - 1].id + 1 else 0
  }

  /** The list after `addItem(name, calories)`: the old entries, then one new
      entry; increasing ids stay increasing. */
  function Add(s: seq<Item>, name: string, calories: int): (r: seq<Item>)
    ensures |r| == |s| + 1 && r[..|s|] == s
    ensures r[|s|].name == name && r[|s|].calories == calories
    ensures IdsIncreasing(s) ==> IdsIncreasing(r)
  {
    s + [Item(NextId(s), name, calories)]
  }

  /** A run of `addItem` calls, one per (name, calories) pair, in order. */
  function AddAll(s: seq<Item>, inputs: seq<(string, int)>): seq<Item> {
    if inputs == [] then s
    else
      var last := inputs[|inputs| - 1];
      Add(AddAll(s, inputs[..|inputs| - 1]), last.0, last.1)
  }

  /** Where `getItemById` finds its result: the position of the last entry with the id, or -1. */
  function LastIndexWithId(s: seq<Item>, id: int): (k: int)
    ensures -1 <= k < |s|
    ensures k == -1 <==> forall j :: 0 <= j < |s| ==> s[j].id != id
    ensures 0 <= k ==> s[k].id == id && forall j :: k < j < |s| ==> s[j].id != id
  {
    if s == [] then -1
    else if s[|s| - 1].id == id then |s| - 1
    else LastIndexWithId(s[..|s| - 1], id)
  }

  /** What `getItemById` returns: the last entry whose id is `id`, or none
      exactly when no entry has the id. */
  function LastWithId(s: seq<Item>, id: int): (r: Option<Item>)
    ensures r.None? <==> id !in Ids(s)
    ensures r.Some? ==> r.value in s && r.value.id == id
  {
    var k := LastIndexWithId(s, id);
    if k < 0 then None else Some(s[k])
  }

  /** Every entry whose id is `u.id` replaced by `u`; the others are kept in place. */
  function Replaced(s: seq<Item>, u: Item): (r: seq<Item>)
    ensures |r| == |s|
    ensures forall i :: 0 <= i < |s| ==> r[i] == if s[i].id == u.id then u else s[i]
  {
    if s == [] then [] else [if s[0].id == u.id then u else s[0]] + Replaced(s[1..], u)
  }

  /** The list after `deleteItem(id)`: splice at the index that `indexOf` finds in the id projection. */
  function DeleteById(s: seq<Item>, id: int): (r: seq<Item>)
    ensures s == [] ==> r == []
    ensures s != [] ==> |r| == |s| - 1
  {
    SpliceOne(s, IndexOf(Ids(s), id))
  }

  /** The calorie total: the sum of all entries' calories; never negative when no entry is. */
  function Sum(s: seq<Item>): (r: int)
    ensures (forall i :: 0 <= i < |s| ==> s[i].calories >= 0) ==> r >= 0
  {
    if s == [] then 0 else Sum(s[..|s| - 1]) + s[|s| - 1].calories
  }

  // ---------------------------------------------------------------------------
  // Id assignment

  /** Starting from an empty list, n calls of `addItem` give the ids 0, 1, ..., n-1 in order. */
  lemma {:induction false} AddAllFromEmpty(inputs: seq<(string, int)>)
    ensures |AddAll([], inputs)| == |inputs|
    ensures forall i :: 0 <= i < |inputs| ==> AddAll([], inputs)[i].id == i
    ensures forall i :: 0 <= i < |inputs| ==>
      AddAll([], inputs)[i].name == inputs[i].0 && AddAll([], inputs)[i].calories == inputs[i].1
    ensures IdsIncreasing(AddAll([], inputs))
  {
    if inputs != [] {
      var init := inputs[..|inputs| - 1];
      AddAllFromEmpty(init);
      var prev := AddAll([], init);
      var r := AddAll([], inputs);
      assert r == Add(prev, inputs[|init|].0, inputs[|init|].1);
      forall i | 0 <= i < |inputs|
        ensures r[i].id == i && r[i].name == inputs[i].0 && r[i].calories == inputs[i].1
      {
        if i < |init| {
          assert r[i] == prev[i] && inputs[i] == init[i];
        }
      }
    }
  }

  // ---------------------------------------------------------------------------
  // Lookup

  /** In a list with distinct ids, `getItemById` finds the one entry carrying that id. */
  lemma {:induction false} LastWithIdUnique(s: seq<Item>, i: nat)
    requires IdsDistinct(s)
    requires i < |s|
    ensures LastWithId(s, s[i].id) == Some(s[i])
  {
  }

  // ---------------------------------------------------------------------------
  // Update

  /** Replacing entries by id keeps every id in place, so the order of ids is kept. */
  lemma {:induction false} ReplacedKeepsIds(s: seq<Item>, u: Item)
    ensures Ids(Replaced(s, u)) == Ids(s)
    ensures IdsIncreasing(s) ==> IdsIncreasing(Replaced(s, u))
  {
    var r := Replaced(s, u);
    assert forall i :: 0 <= i < |s| ==> Ids(r)[i] == Ids(s)[i];
  }

  /** With distinct ids, replacing the entry at i changes that one entry only. */
  lemma {:induction false} ReplacedUnique(s: seq<Item>, i: nat, u: Item)
    requires IdsDistinct(s)
    requires i < |s| && s[i].id == u.id
    ensures Replaced(s, u) == s[..i] + [u] + s[i + 1..]
  {
    var r := Replaced(s, u);
    var t := s[..i] + [u] + s[i + 1..];
    assert |r| == |t|;
    forall k | 0 <= k < |s|
      ensures r[k] == t[k]
    {
      if k < i {
        assert s[k].id != s[i].id;
      } else if i < k {
        assert s[i].id != s[k].id;
      }
    }
  }

  // ---------------------------------------------------------------------------
  // Deletion

  /** `splice(-1, 1)` removes the last entry of a non-empty list. */
  lemma {:induction false} SpliceMinusOne(s: seq<Item>)
    requires s != []
    ensures SpliceOne(s, -1) == s[..|s| - 1]
  {
  }

  /** What `deleteItem(id)` does to the list: the first entry with that id is
      removed and the rest keep their order; when no entry has that id,
      `indexOf` gives -1 and the last entry goes; an empty list stays empty. */
  lemma {:induction false} DeleteByIdCases(s: seq<Item>, id: int)
    ensures id in Ids(s) ==>
      var i := IndexOf(Ids(s), id);
      0 <= i < |s| && s[i].id == id && (forall j :: 0 <= j < i ==> s[j].id != id) &&
      DeleteById(s, id) == s[..i] + s[i + 1..]
    ensures id !in Ids(s) && s != [] ==> DeleteById(s, id) == s[..|s| - 1]
    ensures s == [] ==> DeleteById(s, id) == []
  {
    var ids := Ids(s);
    var i := IndexOf(ids, id);
    if id in ids {
      assert forall j :: 0 <= j < i ==> ids[j] == ids[..i][j];
      assert s[i].id == id && (forall j :: 0 <= j < i ==> s[j].id != id);
    } else if s != [] {
      SpliceMinusOne(s);
    }
  }

  /** Removing one entry keeps the ids of the others increasing. */
  lemma {:induction false} RemoveAtKeepsIncreasing(s: seq<Item>, i: nat)
    requires IdsIncreasing(s)
    requires i < |s|
    ensures IdsIncreasing(s[..i] + s[i + 1..])
  {
    var t := s[..i] + s[i + 1..];
    forall a, b | 0 <= a < b < |t|
      ensures t[a].id < t[b].id
    {
      var a' := if a < i then a else a + 1;
      var b' := if b < i then b else b + 1;
      assert t[a] == s[a'] && t[b] == s[b'];
    }
  }

  /** `deleteItem` keeps the ids increasing. */
  lemma {:induction false} DeleteKeepsIncreasing(s: seq<Item>, id: int)
    requires IdsIncreasing(s)
    ensures IdsIncreasing(DeleteById(s, id))
  {
    DeleteByIdCases(s, id);
    if id in Ids(s) {
      RemoveAtKeepsIncreasing(s, IndexOf(Ids(s), id));
    } else if s != [] {
      RemoveAtKeepsIncreasing(s, |s| - 1);
      assert s[..|s| - 1] + s[|s|..] == s[..|s| - 1];
    }
  }

  /** After `deleteItem(id)` on a list with distinct ids, `getItemById(id)` finds nothing. */
  lemma {:induction false} DeleteRemovesId(s: seq<Item>, id: int)
    requires IdsDistinct(s)
    ensures LastWithId(DeleteById(s, id), id) == None
  {
    DeleteByIdCases(s, id);
    var r := DeleteById(s, id);
    if id in Ids(s) {
      var i := IndexOf(Ids(s), id);
      forall k | 0 <= k < |r|
        ensures r[k].id != id
      {
        if k < i {
          assert r[k] == s[k] && s[k].id != s[i].id;
        } else {
          assert r[k] == s[k + 1] && s[i].id != s[k + 1].id;
        }
      }
    } else if s != [] {
      assert forall k :: 0 <= k < |r| ==> r[k] == s[k];
    }
  }

  // ---------------------------------------------------------------------------
  // The calorie total

  lemma {:induction false} SumConcat(a: seq<Item>, b: seq<Item>)
    ensures Sum(a + b) == Sum(a) + Sum(b)
  {
    if b != [] {
      SumConcat(a, b[..|b| - 1]);
      assert (a + b)[..|a + b| - 1] == a + b[..|b| - 1];
    } else {
      assert a + b == a;
    }
  }

  /** Adding an entry raises the total by its calories. */
  lemma {:induction false} SumAdd(s: seq<Item>, name: string, calories: int)
    ensures Sum(Add(s, name, calories)) == Sum(s) + calories
  {
    var t := Add(s, name, calories);
    assert t[..|t| - 1] == s;
  }

  /** Removing the entry at i lowers the total by its calories. */
  lemma {:induction false} SumRemoveAt(s: seq<Item>, i: nat)
    requires i < |s|
    ensures Sum(s[..i] + s[i + 1..]) == Sum(s) - s[i].calories
  {
    var a, b := s[..i], s[i + 1..];
    assert s == a + ([s[i]] + b);
    SumConcat(a, [s[i]] + b);
    SumConcat([s[i]], b);
    SumConcat(a, b);
    assert Sum([s[i]]) == s[i].calories by {
      assert [s[i]][..0] == [];
    }
  }

  /** With distinct ids, updating the entry at i changes the total by the difference in calories. */
  lemma {:induction false} SumReplaced(s: seq<Item>, i: nat, u: Item)
    requires IdsDistinct(s)
    requires i < |s| && s[i].id == u.id
    ensures Sum(Replaced(s, u)) == Sum(s) - s[i].calories + u.calories
  {
    ReplacedUnique(s, i, u);
    SumConcat(s[..i] + [u], s[i + 1..]);
    SumConcat(s[..i], [u]);
    SumRemoveAt(s, i);
    SumConcat(s[..i], s[i + 1..]);
    assert Sum([u]) == u.calories by {
      assert [u][..0] == [];
    }
  }

  /** The walk-through of adding two meals, editing the first and deleting the
      second: the ids given out, the lists and their totals. */
  lemma Scenario()
    ensures
      var s1 := Add([], "Eggs", 100);
      var s2 := Add(s1, "Toast", 200);
      var s3 := Replaced(s2, Item(0, "Eggs Scrambled", 150));
      var s4 := DeleteById(s3, 1);
      s1 == [Item(0, "Eggs", 100)] && Sum(s1) == 100 &&
      s2 == [Item(0, "Eggs", 100), Item(1, "Toast", 200)] && Sum(s2) == 300 &&
      s3 == [Item(0, "Eggs Scrambled", 150), Item(1, "Toast", 200)] && Sum(s3) == 350 &&
      s4 == [Item(0, "Eggs Scrambled", 150)] && Sum(s4) == 150
  {
    var s1 := Add([], "Eggs", 100);
    var s2 := Add(s1, "Toast", 200);
    var s3 := Replaced(s2, Item(0, "Eggs Scrambled", 150));
    SumAdd([], "Eggs", 100);
    SumAdd(s1, "Toast", 200);
    assert s2 == [Item(0, "Eggs", 100), Item(1, "Toast", 200)];
    SumReplaced(s2, 0, Item(0, "Eggs Scrambled", 150));
    assert s3 == [Item(0, "Eggs Scrambled", 150), Item(1, "Toast", 200)];
    assert Ids(s3) == [0, 1];
    assert IndexOf(Ids(s3), 1) == 1;
    SumRemoveAt(s3, 1);
  }
}
