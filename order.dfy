/**
 * An order (src/Order.cpp): a cart from item name to scanned amount and a
 * running total that each scan adjusts by the change in that item's total.
 * The order reads its database and never changes it.
 */
module Orders {
  import opened Wrappers
  import opened Specials
  import opened Items
  import opened Database

  /** A cart amount, the `std::variant<int, float>`: a unit count or a weight. */
  datatype Amount = Count(count: int) | Weighed(weight: real)

  /** The amount's kind is the one the sale type calls for. */
  predicate KindMatches(t: SaleType, amt: Amount) {
    (t == Unit && amt.Count?) || (t == Weight && amt.Weighed?)
  }

  /** A cart entry is present only with a positive amount. */
  predicate Positive(amt: Amount) {
    match amt
    case Count(n) => n >= 1
    case Weighed(w) => w > 0.0
  }

  /**
   * getItemTotalPrice: base price times the count or the weight. Markdown and
   * special play no part here.
   */
  function ItemTotalPrice(v: ItemValue, amt: Amount): (r: real)
    requires KindMatches(v.saleType, amt)
    ensures v.price >= 0.0 && Positive(amt) ==> r >= 0.0
    ensures v.price == 0.0 ==> r == 0.0
  {
    if v.saleType == Unit then v.price * amt.count as real else v.price * amt.weight
  }

  /** Every cart entry names a stored item, with an amount of that item's kind. */
  ghost predicate CartMatches(cart: map<string, Amount>, vals: seq<ItemValue>) {
    forall name :: name in cart ==>
      Lookup(vals, name).Some? && KindMatches(Lookup(vals, name).value.saleType, cart[name]) && Positive(cart[name])
  }

  /** Setting an entry for a stored item, with an amount of its kind, keeps the cart matching. */
  lemma CartMatchesSet(cart: map<string, Amount>, vals: seq<ItemValue>, name: string, amt: Amount)
    requires CartMatches(cart, vals)
    requires Lookup(vals, name).Some? && KindMatches(Lookup(vals, name).value.saleType, amt) && Positive(amt)
    ensures CartMatches(cart[name := amt], vals)
  {
  }

  /** The sum of a map's values. */
  ghost function Sum(m: map<string, real>): real
    decreases |m|
  {
    if m == map[] then 0.0
    else
      var key :| key in m;
      m[key] + Sum(m - {key})
  }

  /** Any one entry can be taken out of the sum first. */
  lemma {:induction false} SumRemove(m: map<string, real>, key: string)
    requires key in m
    ensures Sum(m) == m[key] + Sum(m - {key})
    decreases |m|
  {
    var first :| first in m && Sum(m) == m[first] + Sum(m - {first});
    if first != key {
      SumRemove(m - {first}, key);
      SumRemove(m - {key}, first);
      assert m - {first} - {key} == m - {key} - {first};
    }
  }

  /**
   * Setting one entry changes the sum by the new value less the old one
   * (nothing when the key was absent).
   */
  lemma SumUpdate(m: map<string, real>, key: string, x: real)
    ensures Sum(m[key := x]) == Sum(m) + x - (if key in m then m[key] else 0.0)
  {
    SumRemove(m[key := x], key);
    assert m[key := x] - {key} == m - {key};
    if key in m {
      SumRemove(m, key);
    } else {
      assert m - {key} == m;
    }
  }

  /** Each cart entry's getItemTotalPrice. */
  ghost function EntryTotals(cart: map<string, Amount>, vals: seq<ItemValue>): map<string, real>
    requires CartMatches(cart, vals)
  {
    map name | name in cart :: ItemTotalPrice(Lookup(vals, name).value, cart[name])
  }

  /** The sum of getItemTotalPrice over the cart's entries. */
  ghost function CartTotal(cart: map<string, Amount>, vals: seq<ItemValue>): real
    requires CartMatches(cart, vals)
  {
    Sum(EntryTotals(cart, vals))
  }

  /**
   * Setting one cart entry changes the cart's sum by the new entry's total less
   * the old entry's total (nothing when the name was absent); every other
   * entry keeps contributing what it did.
   */
  lemma CartTotalUpdate(cart: map<string, Amount>, vals: seq<ItemValue>, name: string, amt: Amount)
    requires CartMatches(cart, vals) && CartMatches(cart[name := amt], vals)
    ensures var v := Lookup(vals, name).value;
            CartTotal(cart[name := amt], vals)
              == CartTotal(cart, vals) + ItemTotalPrice(v, amt)
                 - (if name in cart then ItemTotalPrice(v, cart[name]) else 0.0)
  {
    var v := Lookup(vals, name).value;
    var before := EntryTotals(cart, vals);
    EntryTotalsUpdate(cart, vals, name, amt);
    SumUpdate(before, name, ItemTotalPrice(v, amt));
  }

  /** Setting one cart entry sets that one entry total and leaves the others. */
  lemma EntryTotalsUpdate(cart: map<string, Amount>, vals: seq<ItemValue>, name: string, amt: Amount)
    requires CartMatches(cart, vals) && CartMatches(cart[name := amt], vals)
    ensures EntryTotals(cart[name := amt], vals)
              == EntryTotals(cart, vals)[name := ItemTotalPrice(Lookup(vals, name).value, amt)]
  {
    var updated := cart[name := amt];
    var after := EntryTotals(updated, vals);
    var expected := EntryTotals(cart, vals)[name := ItemTotalPrice(Lookup(vals, name).value, amt)];
    EntryTotalsKeys(updated, vals);
    EntryTotalsKeys(cart, vals);
    assert after.Keys == expected.Keys;
    forall n | n in after
      ensures after[n] == expected[n]
    {
      EntryTotalAt(updated, vals, n);
      if n != name {
        EntryTotalAt(cart, vals, n);
      }
    }
  }

  /** There is one entry total per cart entry. */
  lemma EntryTotalsKeys(cart: map<string, Amount>, vals: seq<ItemValue>)
    requires CartMatches(cart, vals)
    ensures EntryTotals(cart, vals).Keys == cart.Keys
  {
  }

  /** An entry's total is the getItemTotalPrice of its amount. */
  lemma EntryTotalAt(cart: map<string, Amount>, vals: seq<ItemValue>, n: string)
    requires CartMatches(cart, vals) && n in cart
    ensures n in EntryTotals(cart, vals)
    ensures EntryTotals(cart, vals)[n] == ItemTotalPrice(Lookup(vals, n).value, cart[n])
  {
  }

  /** The sum of two amounts of one kind. */
  function Plus(a: Amount, b: Amount): (r: Amount)
    requires a.Count? == b.Count?
    ensures r.Count? == a.Count?
    ensures r.Count? ==> r.count == a.count + b.count
    ensures r.Weighed? ==> r.weight == a.weight + b.weight
  {
    match a
    case Count(n) => Count(n + b.count)
    case Weighed(w) => Weighed(w + b.weight)
  }

  /**
   * The total of a combined amount is the sum of the parts' totals, so the
   * running total does not depend on how a quantity was split into scans.
   */
  lemma ItemTotalPricePlus(v: ItemValue, a: Amount, b: Amount)
    requires KindMatches(v.saleType, a) && KindMatches(v.saleType, b)
    ensures KindMatches(v.saleType, Plus(a, b))
    ensures ItemTotalPrice(v, Plus(a, b)) == ItemTotalPrice(v, a) + ItemTotalPrice(v, b)
  {
    if v.saleType == Unit {
      assert (a.count + b.count) as real == a.count as real + b.count as real;
    }
  }

  /**
   * The cart and running total after a successful scan of `add` of the stored
   * value `v` under `name`: the entry grows by `add` (or starts at it), no
   * other entry changes, and the total moves by the entry's new
   * getItemTotalPrice less its old one (nothing when it was absent).
   */
  function AddToCart(cart: map<string, Amount>, total: real, v: ItemValue, name: string, add: Amount)
    : (r: (map<string, Amount>, real))
    requires KindMatches(v.saleType, add) && (name in cart ==> KindMatches(v.saleType, cart[name]))
    ensures r.0.Keys == cart.Keys + {name}
    ensures forall n :: n in cart && n != name ==> r.0[n] == cart[n]
    ensures r.0[name] == if name in cart then Plus(cart[name], add) else add
    ensures KindMatches(v.saleType, r.0[name])
    ensures r.1 == total + ItemTotalPrice(v, r.0[name]) - (if name in cart then ItemTotalPrice(v, cart[name]) else 0.0)
  {
    var next := if name in cart then Plus(cart[name], add) else add;
    var prevPrice := if name in cart then ItemTotalPrice(v, cart[name]) else 0.0;
    (cart[name := next], total + ItemTotalPrice(v, next) - prevPrice)
  }

  /**
   * A successful scan of a stored item keeps the cart matching the database,
   * and a total that was the cart's sum stays its sum.
   */
  lemma AddToCartConsistent(cart: map<string, Amount>, total: real, vals: seq<ItemValue>, name: string, add: Amount)
    requires CartMatches(cart, vals)
    requires Lookup(vals, name).Some? && KindMatches(Lookup(vals, name).value.saleType, add) && Positive(add)
    ensures var r := AddToCart(cart, total, Lookup(vals, name).value, name, add);
            CartMatches(r.0, vals) && (total == CartTotal(cart, vals) ==> r.1 == CartTotal(r.0, vals))
  {
    var v := Lookup(vals, name).value;
    var r := AddToCart(cart, total, v, name, add);
    var next := r.0[name];
    assert Positive(next) by {
      if name in cart {
        assert Positive(cart[name]);
      }
    }
    assert r.0 == cart[name := next];
    CartMatchesSet(cart, vals, name, next);
    CartTotalUpdate(cart, vals, name, next);
  }

  /**
   * Scanning `a` and then `b` of one item leaves the same cart and total as
   * scanning `a` and `b` together: ten separate unit scans count ten, and two
   * weighings add up.
   */
  lemma AddToCartTwice(cart: map<string, Amount>, total: real, v: ItemValue, name: string, a: Amount, b: Amount)
    requires KindMatches(v.saleType, a) && KindMatches(v.saleType, b)
    requires name in cart ==> KindMatches(v.saleType, cart[name])
    ensures var first := AddToCart(cart, total, v, name, a);
            AddToCart(first.0, first.1, v, name, b) == AddToCart(cart, total, v, name, Plus(a, b))
  {
    var first := AddToCart(cart, total, v, name, a);
    var second := AddToCart(first.0, first.1, v, name, b);
    var once := AddToCart(cart, total, v, name, Plus(a, b));
    assert second.0[name] == once.0[name];
    assert second.0 == once.0;
  }

  /**
   * Scans of two different items commute: the cart comes out the same in
   * either order, and so does the total.
   */
  lemma AddToCartCommutes(cart: map<string, Amount>, total: real, v: ItemValue, x: string, a: Amount,
                          w: ItemValue, y: string, b: Amount)
    requires x != y
    requires KindMatches(v.saleType, a) && (x in cart ==> KindMatches(v.saleType, cart[x]))
    requires KindMatches(w.saleType, b) && (y in cart ==> KindMatches(w.saleType, cart[y]))
    ensures var xy := AddToCart(cart, total, v, x, a);
            var yx := AddToCart(cart, total, w, y, b);
            AddToCart(xy.0, xy.1, w, y, b) == AddToCart(yx.0, yx.1, v, x, a)
  {
    var xy := AddToCart(cart, total, v, x, a);
    var yx := AddToCart(cart, total, w, y, b);
    var left := AddToCart(xy.0, xy.1, w, y, b);
    var right := AddToCart(yx.0, yx.1, v, x, a);
    assert left.0 == right.0;
  }

  /**
   * Scans from an empty cart: two unit scans of chips at 3 total 6, weighings
   * of 0.5 and 0.25 of apples at 1.5 total 1.125. Markdown and special play no
   * part: chips at 3 with a markdown of 0.5 still total 3 for one scan, and
   * three scans under buy two get one free total 9, where the special's own
   * price for three is 6.
   */
  lemma AddToCartWorkedCases()
    ensures var chips := ItemValue("Chips", Unit, 3.0, 0.0, None);
            var one := AddToCart(map[], 0.0, chips, "Chips", Count(1));
            var two := AddToCart(one.0, one.1, chips, "Chips", Count(1));
            two.0 == map["Chips" := Count(2)] && two.1 == 6.0
    ensures var apple := ItemValue("Apple", Weight, 1.5, 0.0, None);
            var one := AddToCart(map[], 0.0, apple, "Apple", Weighed(0.5));
            var two := AddToCart(one.0, one.1, apple, "Apple", Weighed(0.25));
            two.0 == map["Apple" := Weighed(0.75)] && two.1 == 1.125
    ensures var marked := ItemValue("Chips", Unit, 3.0, 0.5, None);
            AddToCart(map[], 0.0, marked, "Chips", Count(1)).1 == 3.0
    ensures var bogo := NewBuyOneGetOneUnit(2, 1, 100.0);
            var chips := ItemValue("Chips", Unit, 3.0, 0.0, Some(bogo));
            var one := AddToCart(map[], 0.0, chips, "Chips", Count(1));
            var two := AddToCart(one.0, one.1, chips, "Chips", Count(1));
            var three := AddToCart(two.0, two.1, chips, "Chips", Count(1));
            three.1 == 9.0 && CalcPrice(bogo, 3.0, 3.0) == 6.0
  {
    assert (3.0).Floor == 3;
  }

  /**
   * A price change between scans leaves the running total stale: chips at 3
   * are scanned once, the price becomes 5, and a second scan brings the total
   * to 8, while the two chips now total 10.
   */
  lemma StaleTotalAfterPriceChange()
    ensures var at3 := ItemValue("Chips", Unit, 3.0, 0.0, None);
            var at5 := at3.(price := 5.0);
            var one := AddToCart(map[], 0.0, at3, "Chips", Count(1));
            var two := AddToCart(one.0, one.1, at5, "Chips", Count(1));
            two.1 == 8.0 && CartMatches(two.0, [at5]) && CartTotal(two.0, [at5]) == 10.0
  {
    var at5 := ItemValue("Chips", Unit, 5.0, 0.0, None);
    var cart := map["Chips" := Count(2)];
    assert Lookup([at5], "Chips") == Some(at5);
    var totals := EntryTotals(cart, [at5]);
    EntryTotalAt(cart, [at5], "Chips");
    EntryTotalsKeys(cart, [at5]);
    SumRemove(totals, "Chips");
    assert totals - {"Chips"} == map[];
    assert totals["Chips"] == 10.0;
    var at3 := at5.(price := 3.0);
    var one := AddToCart(map[], 0.0, at3, "Chips", Count(1));
    assert one == (map["Chips" := Count(1)], 3.0);
    var two := AddToCart(one.0, one.1, at5, "Chips", Count(1));
    assert two.0 == cart && two.1 == 8.0;
  }

  class Order {
    /** The database the order reads; it outlives the order. */
    const db: ItemDatabase
    var total: real
    var cart: map<string, Amount>

    ghost predicate Valid()
      reads this, db, db.items
    {
      db.Valid() && CartMatches(cart, db.contents)
    }

    /** The running total equals the sum of getItemTotalPrice over the cart. */
    ghost predicate Consistent()
      reads this, db
    {
      CartMatches(cart, db.contents) && total == CartTotal(cart, db.contents)
    }

    /** Order(db): an empty cart and a zero total. */
    constructor (db: ItemDatabase)
      requires db.Valid()
      ensures Valid() && Consistent()
      ensures this.db == db && cart == map[] && total == 0.0
    {
      this.db := db;
      total := 0.0;
      cart := map[];
    }

    /** getTotalPrice: the running total, which is the cart's sum while the order is consistent. */
    function GetTotalPrice(): (r: real)
      reads this, db
      ensures Consistent() ==> r == CartTotal(cart, db.contents)
    {
      total
    }

    /**
     * ScanItem(name): refuses a name the database lacks or an item not sold by
     * unit, changing nothing; otherwise adds one to the item's count (starting
     * at one) and moves the total by the change in that item's total.
     */
    method ScanItem(name: string) returns (ok: bool)
      requires Valid()
      modifies this
      ensures Valid()
      ensures ok <==> Lookup(db.contents, name).Some? && Lookup(db.contents, name).value.saleType == Unit
      ensures !ok ==> cart == old(cart) && total == old(total)
      ensures ok ==> (cart, total) == AddToCart(old(cart), old(total), Lookup(db.contents, name).value, name, Count(1))
      ensures old(Consistent()) ==> Consistent()
    {
      var it := db.GetItem(name);
      if it.None? || it.value.saleType != Unit {
        return false;
      }
      AddToCartConsistent(cart, total, db.contents, name, Count(1));
      var r := AddToCart(cart, total, it.value, name, Count(1));
      cart, total := r.0, r.1;
      return true;
    }

    /**
     * ScanItem(name, weight): refuses a weight that is not positive, a name the
     * database lacks or an item not sold by weight, changing nothing; otherwise
     * adds the weight to the item's weight (starting from it) and moves the
     * total by the change in that item's total.
     */
    method ScanItemByWeight(name: string, weight: real) returns (ok: bool)
      requires Valid()
      modifies this
      ensures Valid()
      ensures ok <==> weight > 0.0 && Lookup(db.contents, name).Some? && Lookup(db.contents, name).value.saleType == Weight
      ensures !ok ==> cart == old(cart) && total == old(total)
      ensures ok ==> (cart, total) == AddToCart(old(cart), old(total), Lookup(db.contents, name).value, name, Weighed(weight))
      ensures old(Consistent()) ==> Consistent()
    {
      if weight <= 0.0 {
        return false;
      }
      var it := db.GetItem(name);
      if it.None? || it.value.saleType != Weight {
        return false;
      }
      AddToCartConsistent(cart, total, db.contents, name, Weighed(weight));
      var r := AddToCart(cart, total, it.value, name, Weighed(weight));
      cart, total := r.0, r.1;
      return true;
    }
  }
}
