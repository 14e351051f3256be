/**
 * A sellable item (src/Item.hpp, src/Item.cpp): a name and a sale type fixed at
 * construction, and a price, a markdown and an optional special that
 * validated setters change in place.
 */
module Items {
  import opened Wrappers
  import opened Specials

  /** Item::Sale_t: sold per unit, or by weight in $/lb. */
  datatype SaleType = Unit | Weight

  /** The value of an item: what a copy of it carries. */
  datatype ItemValue = ItemValue(name: string, saleType: SaleType, price: real, markdown: real, special: Option<Special>)
  {
    /** Price and markdown are never negative. */
    predicate Valid() {
      price >= 0.0 && markdown >= 0.0
    }
  }

  class Item {
    const name: string
    const saleType: SaleType
    var price: real
    var markdown: real
    var special: Option<Special>

    function Value(): ItemValue
      reads this
    {
      ItemValue(name, saleType, price, markdown, special)
    }

    ghost predicate Valid()
      reads this
    {
      Value().Valid()
    }

    /** Item(name, type, price): the absolute value of the price, no markdown and no special. */
    constructor (name: string, saleType: SaleType, price: real)
      ensures Valid()
      ensures Value() == ItemValue(name, saleType, Abs(price), 0.0, None)
    {
      this.name := name;
      this.saleType := saleType;
      this.price := Abs(price);
      this.markdown := 0.0;
      this.special := None;
    }

    /** The copy made when an item is passed or stored by value. */
    constructor Copy(other: Item)
      ensures Value() == other.Value()
    {
      name := other.name;
      saleType := other.saleType;
      price := other.price;
      markdown := other.markdown;
      special := other.special;
    }

    /** setPrice: refuses a negative price and then changes nothing. */
    method SetPrice(newPrice: real) returns (ok: bool)
      requires Valid()
      modifies this`price
      ensures Valid()
      ensures ok <==> newPrice >= 0.0
      ensures Value() == old(Value()).(price := if ok then newPrice else old(price))
    {
      if newPrice < 0.0 {
        return false;
      }
      price := newPrice;
      return true;
    }

    /**
     * setMarkdown: refuses a negative markdown or one above the current price
     * and then changes nothing; the price is never touched.
     */
    method SetMarkdown(newMarkdown: real) returns (ok: bool)
      requires Valid()
      modifies this`markdown
      ensures Valid()
      ensures ok <==> 0.0 <= newMarkdown <= price
      ensures Value() == old(Value()).(markdown := if ok then newMarkdown else old(markdown))
    {
      if newMarkdown < 0.0 || newMarkdown > price {
        return false;
      }
      markdown := newMarkdown;
      return true;
    }

    /** setSpecial: replaces the special (None clears it) without any check. */
    method SetSpecial(s: Option<Special>)
      requires Valid()
      modifies this`special
      ensures Valid()
      ensures Value() == old(Value()).(special := s)
    {
      special := s;
    }
  }
}
