/**
 * The item database (src/ItemDatabase.hpp, src/ItemDatabase.cpp): a vector of
 * items with pairwise distinct names, searched linearly by name.
 */
module Database {
  import opened Wrappers
  import opened Items

  /** Position of the first value called `name`, or -1 when there is none. */
  function IndexOf(vals: seq<ItemValue>, name: string): (r: int)
    ensures -1 <= r < |vals|
    ensures r >= 0 ==> vals[r].name == name
    ensures r >= 0 ==> forall j :: 0 <= j < r ==> vals[j].name != name
    ensures r == -1 <==> forall j :: 0 <= j < |vals| ==> vals[j].name != name
  {
    if |vals| == 0 then -1
    else if vals[0].name == name then 0
    else
      var k := IndexOf(vals[1..], name);
      if k == -1 then -1 else k + 1
  }

  /** The value stored under `name`, if any. */
  function Lookup(vals: seq<ItemValue>, name: string): (r: Option<ItemValue>)
    ensures r.None? <==> forall j :: 0 <= j < |vals| ==> vals[j].name != name
    ensures r.Some? ==> r.value.name == name && r.value in vals
  {
    var k := IndexOf(vals, name);
    if k < 0 then None else Some(vals[k])
  }

  /** No two stored items share a name. */
  ghost predicate UniqueNames(vals: seq<ItemValue>) {
    forall i, j :: 0 <= i < j < |vals| ==> vals[i].name != vals[j].name
  }

  /** With unique names, looking up the name at a position finds exactly that position. */
  lemma LookupAt(vals: seq<ItemValue>, i: int)
    requires UniqueNames(vals) && 0 <= i < |vals|
    ensures IndexOf(vals, vals[i].name) == i
    ensures Lookup(vals, vals[i].name) == Some(vals[i])
  {
  }

  /**
   * Appending a value under a fresh name keeps the names unique, makes the new
   * name find the appended value, and leaves every other lookup as it was.
   */
  lemma LookupAppend(vals: seq<ItemValue>, v: ItemValue, name: string)
    requires UniqueNames(vals) && Lookup(vals, v.name).None?
    ensures UniqueNames(vals + [v])
    ensures Lookup(vals + [v], name) == if name == v.name then Some(v) else Lookup(vals, name)
  {
    var all := vals + [v];
    if name == v.name {
      LookupAt(all, |vals|);
    } else {
      var k := IndexOf(vals, name);
      if k >= 0 {
        LookupAt(vals, k);
        LookupAt(all, k);
      } else {
        assert forall j :: 0 <= j < |all| ==> all[j].name != name;
      }
    }
  }

  /**
   * Replacing the value at a position by one with the same name keeps the
   * names unique and changes only the lookup of that name.
   */
  lemma LookupReplace(vals: seq<ItemValue>, i: int, w: ItemValue, name: string)
    requires UniqueNames(vals) && 0 <= i < |vals| && w.name == vals[i].name
    ensures UniqueNames(vals[i := w])
    ensures Lookup(vals[i := w], name) == if name == w.name then Some(w) else Lookup(vals, name)
  {
    var after := vals[i := w];
    assert forall j :: 0 <= j < |vals| ==> after[j].name == vals[j].name;
    if name == w.name {
      LookupAt(after, i);
    } else {
      var k := IndexOf(vals, name);
      if k >= 0 {
        LookupAt(vals, k);
        LookupAt(after, k);
      }
    }
  }

  class ItemDatabase {
    /** mItems: the database's own copies of the inserted items. */
    var items: seq<Item>
    /** The values of `items`, position by position. */
    ghost var contents: seq<ItemValue>

    ghost predicate Valid()
      reads this, items
    {
      |items| == |contents|
      && (forall i :: 0 <= i < |items| ==> items[i].Value() == contents[i])
      && UniqueNames(contents)
      && (forall i :: 0 <= i < |contents| ==> contents[i].Valid())
    }

    /** ItemDatabase(): no items. */
    constructor ()
      ensures Valid() && items == [] && contents == []
    {
      items := [];
      contents := [];
    }

    /** The `find_if` by name shared by every operation: the first matching position, or -1. */
    method Find(name: string) returns (idx: int)
      requires Valid()
      ensures idx == IndexOf(contents, name)
    {
      var i := 0;
      while i < |items| && items[i].name != name
        invariant 0 <= i <= |items|
        invariant forall j :: 0 <= j < i ==> contents[j].name != name
      {
        i := i + 1;
      }
      if i == |items| {
        return -1;
      }
      assert contents[i].name == name;
      return i;
    }

    /**
     * insertItem: refuses an item whose name is already stored; otherwise
     * appends a copy of it at the end.
     */
    method InsertItem(item: Item) returns (ok: bool)
      requires Valid() && item.Valid()
      modifies this
      ensures Valid()
      ensures ok <==> Lookup(old(contents), item.name).None?
      ensures ok ==> contents == old(contents) + [item.Value()]
      ensures ok ==> |items| == |old(items)| + 1 && items[..|old(items)|] == old(items) && fresh(items[|old(items)|])
      ensures !ok ==> contents == old(contents) && items == old(items)
    {
      var i := Find(item.name);
      if i >= 0 {
        return false;
      }
      var copy := new Item.Copy(item);
      LookupAppend(contents, item.Value(), item.name);
      items := items + [copy];
      contents := contents + [copy.Value()];
      return true;
    }

    /** The item stored under `name`, by value. */
    method GetItem(name: string) returns (r: Option<ItemValue>)
      requires Valid()
      ensures r == Lookup(contents, name)
    {
      var i := Find(name);
      if i < 0 {
        return None;
      }
      return Some(items[i].Value());
    }

    /** getItemPrice: the stored item's price, or none when the name is absent. */
    method GetItemPrice(name: string) returns (r: Option<real>)
      requires Valid()
      ensures r.None? <==> Lookup(contents, name).None?
      ensures r.Some? ==> r.value == Lookup(contents, name).value.price
    {
      var i := Find(name);
      if i < 0 {
        return None;
      }
      return Some(items[i].price);
    }

    /**
     * setItemPrice: refuses an absent name; otherwise the stored item's
     * setPrice decides, and no other item changes.
     */
    method SetItemPrice(name: string, price: real) returns (ok: bool)
      requires Valid()
      modifies this, items
      ensures Valid() && items == old(items)
      ensures Lookup(old(contents), name).None? ==> !ok && contents == old(contents)
      ensures Lookup(old(contents), name).Some? ==> ok == (price >= 0.0)
      ensures forall n :: Lookup(contents, n)
                == (if n == name && ok then Some(Lookup(old(contents), name).value.(price := price)) else Lookup(old(contents), n))
    {
      var i := Find(name);
      if i < 0 {
        return false;
      }
      ghost var before := contents;
      LookupAt(before, i);
      ok := items[i].SetPrice(price);
      contents := contents[i := items[i].Value()];
      forall j | 0 <= j < |items| && j != i
        ensures items[j].Value() == contents[j]
      {
        assert before[j].name != before[i].name;
      }
      forall n
        ensures Lookup(contents, n)
          == if n == name && ok then Some(Lookup(before, name).value.(price := price)) else Lookup(before, n)
      {
        LookupReplace(before, i, contents[i], n);
      }
    }
  }
}
