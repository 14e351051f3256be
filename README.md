# Checkout pricing core

A model of the pricing core of a supermarket checkout (the Checkout Kata):

- **items** (`Items`): a name and a sale type (per unit or by weight), plus a
  base price, a markdown and an optional special. Validated setters refuse bad
  input and then change nothing.
- **the item database** (`Database`): the database's own copies of the
  inserted items, with pairwise distinct names, searched linearly by name.
- **specials** (`Specials`): three pricing rules. They are buy N get M at X%
  off for whole units, the same for weights, and N for a fixed price.
- **orders** (`Orders`): a cart from item name to scanned amount (a unit count
  or a weight) and a running total. Each scan moves the total by the change in
  that item's total.

Money and weights are `real`, and unit counts are integers. `Item`,
`ItemDatabase` and `Order` are classes whose methods update their fields in
place. Specials, item values and cart amounts are datatypes. The pricing rules
are functions, because `calcPrice` is `const` in the source.

The database keeps a ghost `contents`, the values of its items position by
position. An order keeps two invariants:

- `Valid`: every cart entry names a stored item, with a positive amount of that
  item's kind.
- `Consistent`: the running total is the sum of getItemTotalPrice over the cart.

Each scan keeps `Valid`, and it keeps `Consistent` when it held before the scan.
A price changed in the database between scans leaves the source's running total
stale, so `Consistent` is not an invariant of the database as a whole
(`Orders.StaleTotalAfterPriceChange` shows a case).

The bodies of `BuyOneGetOneWeight` and `NforX` are not in the source, only their
declarations and doc comments in src/Special.hpp. Their behaviour here follows
those comments and the expectations of unit-tests/CheckoutTests.cpp.

## Model

| member | source | states |
|---|---|---|
| Specials.Abs | src/Item.cpp:6 | `fabs`: non-negative, equal to the argument or its negation, and the argument itself when that is non-negative |
| Specials.PercentFraction | src/Special.cpp:8-13 | the stored fraction lies in [0, 1]; for a percentage in [0, 100] it is that percentage over 100, and otherwise it is 0 |
| Specials.NewBuyOneGetOneUnit | src/Special.cpp:5-14 | the unit BOGO constructor stores `needed` and `receive` unchanged and the clamped fraction, so the rule is valid |
| Specials.NewBuyOneGetOneWeight | src/Special.hpp:35-37 | the weight BOGO constructor stores the absolute values of the two weights and the clamped fraction |
| Specials.NewNforX | src/Special.hpp:48-49 | the N-for-X constructor stores `needed` and the absolute value of the group price |
| Specials.CheckArgs | src/Special.hpp:15-16 | the corrected amount and price are non-negative, each is the argument or its negation, and a non-negative argument is kept |
| Specials.BogoUnitDiscountForm | src/Special.cpp:17-30 | the group div/mod formula equals full price for every item, less the percentage on `receive` items of each complete group |
| Specials.BogoUnitTotal | src/Special.cpp:17-30 | `BuyOneGetOneUnit::calcPrice` as written; its own contract says only that fewer items than one group of `needed + receive` pay full price, and `BogoUnitDiscountForm`, `BogoUnitBounds`, `BogoUnitZeroPercent` and `BogoUnitWorkedCases` state the rest |
| Specials.BogoUnitZeroPercent | src/Special.cpp:8-10 | a rule built from a percentage outside [0, 100] (or 0) charges full price for any number of items |
| Specials.BogoUnitBounds | src/Special.cpp:25-28 | for a non-negative price the total lies between full price less the `receive` items of every group, and full price |
| Specials.BogoUnitWorkedCases | unit-tests/CheckoutTests.cpp:521-574 | buy two get one free: 2 and 3 items cost 2 prices, 4 items cost 3, 7 items cost 5 |
| Specials.BogoWeightSplit | unit-tests/CheckoutTests.cpp:618-713 | the walk splits the weight into a full-price part and a discounted part that add up to it; no discount up to `needed`; exactly the weight past `needed` in a short group; some discount past `needed` |
| Specials.BogoWeightSplitShift | unit-tests/CheckoutTests.cpp:673-713 | each further whole group of `needed + receive` adds `needed` at full price and `receive` at the discount, so a short last group after any number of whole groups is pro-rated on exactly the weight past `needed` |
| Specials.BogoWeightTotal | src/Special.hpp:38 | `BuyOneGetOneWeight::calcPrice` on a corrected weight; its own contract says only that a weight not above `needed` pays full price, and `BogoWeightBounds`, `BogoWeightSplit`, `BogoWeightSplitShift` and `BogoWeightWorkedCases` state the rest |
| Specials.BogoWeightBounds | src/Special.hpp:32-44 | the weight BOGO total lies between the discounted and the full price of the whole weight, and a weight not above `needed` pays full price |
| Specials.BogoWeightWorkedCases | unit-tests/CheckoutTests.cpp:618-713 | 1.5 needed, 0.5 free: 1.0 pays for 1.0; 2.0 and 1.75 pay for 1.5; 2.5 pays for 2.0; 3.75 pays for 3.0, or 3.0 plus 0.75 at 75% when the discount is 25% |
| Specials.NforXAgainstFullPrice | src/Special.hpp:46-55 | a group price of `needed` full prices changes nothing; a lower one never charges more than full price; fewer than `needed` items pay full price |
| Specials.NforXTotal | src/Special.hpp:50 | `NforX::calcPrice` on a corrected count; its own contract says only that fewer than `needed` items pay full price, and `NforXAgainstFullPrice` and `NforXWorkedCases` state the rest |
| Specials.NforXWorkedCases | unit-tests/CheckoutTests.cpp:716-762 | three for 10 at 5.5: 2 items cost 11, 3 cost 10, 4 cost 15.5, 7 cost 25.5 |
| Specials.CalcPrice | src/Special.hpp:10-16 | the virtual `calcPrice` after `checkArgs`: the price is never negative; `CalcPriceBounds` and `CalcPriceIgnoresSigns` state the upper bound and the sign blindness |
| Specials.CalcPriceBounds | src/Special.hpp:10-12 | whatever the signs of the arguments, a constructed special prices to a non-negative total, and the two BOGO rules never exceed full price for the corrected amount |
| Specials.CalcPriceIgnoresSigns | src/Special.hpp:10-16 | negating the amount or the unit price does not change the price |
| Specials.BogoUnitNegativePriceAsWritten | src/Special.cpp:17-30 | three items at -1.5 under buy two get one free: the formula as written gives -3, and the dispatch through `checkArgs` gives 3 |
| Items.Item.constructor | src/Item.cpp:5-8 | a new item holds the given name and sale type, the absolute value of the price, markdown 0 and no special |
| Items.Item.Copy | src/ItemDatabase.cpp:5-12 | the copy made when an item is passed and stored by value has the same value as the original |
| Items.Item.SetPrice | src/Item.cpp:18-25 | succeeds exactly for a non-negative price; it then sets the price and nothing else, and on failure nothing changes |
| Items.Item.SetMarkdown | src/Item.hpp:33-34 | succeeds exactly for a markdown in [0, price]; it then sets the markdown and nothing else, and on failure nothing changes |
| Items.Item.SetSpecial | src/Item.hpp:36-37 | replaces the special unconditionally (None clears it) and changes nothing else |
| Database.IndexOf | src/ItemDatabase.cpp:7 | the position of the first value with the name, or -1 exactly when no value has it |
| Database.Lookup | src/ItemDatabase.cpp:18-23 | none exactly when no stored value has the name; otherwise a stored value with that name |
| Database.LookupAt | src/ItemDatabase.hpp:14-15 | with unique names, looking up the name at a position finds that position and its value |
| Database.LookupAppend | src/ItemDatabase.cpp:5-13 | appending under a fresh name keeps names unique, makes the new name find the new value, and leaves every other lookup unchanged |
| Database.LookupReplace | src/ItemDatabase.cpp:26-34 | replacing a value by one with the same name keeps names unique and changes only that name's lookup |
| Database.ItemDatabase.constructor | src/ItemDatabase.hpp:12 | a new database holds no items |
| Database.ItemDatabase.Find | src/ItemDatabase.cpp:7 | the linear search returns the first position holding the name, or -1 |
| Database.ItemDatabase.InsertItem | src/ItemDatabase.cpp:5-14 | succeeds exactly when no stored item has the name; it then appends a fresh copy at the end, and on failure nothing changes; names stay unique |
| Database.ItemDatabase.GetItem | src/Order.cpp:17 | the value stored under the name, or none |
| Database.ItemDatabase.GetItemPrice | src/ItemDatabase.cpp:16-24 | none exactly when the name is absent, otherwise the stored item's price |
| Database.ItemDatabase.SetItemPrice | src/ItemDatabase.cpp:26-35 | an absent name fails with no change; a present one succeeds exactly for a non-negative price; only that item's price changes, and every other lookup is as before |
| Orders.ItemTotalPrice | src/Order.cpp:74-81 | price times count or weight: non-negative for a non-negative price and a positive amount, and 0 at price 0 |
| Orders.ItemTotalPricePlus | src/Order.cpp:74-81 | the item total of a combined amount is the sum of the parts' item totals, so how a quantity is split into scans does not change its total |
| Orders.AddToCart | src/Order.cpp:27-37 | a successful scan adds the name's entry to the cart, grows it by the scanned amount (or starts it there), keeps every other entry, and moves the total by the entry's new total less its old |
| Orders.AddToCartConsistent | src/Order.cpp:36-37 | a scan keeps the cart matching the database, and a total equal to the sum of item totals stays equal to it |
| Orders.CartTotalUpdate | src/Order.cpp:37 | setting one entry changes the sum of item totals by the new entry's total less the old one |
| Orders.EntryTotalsUpdate | src/Order.cpp:29-34 | setting one entry sets that entry's item total and leaves the others |
| Orders.AddToCartTwice | src/Order.cpp:29-34 | scanning `a` and then `b` of one item leaves the same cart and total as scanning `a + b` at once |
| Orders.AddToCartCommutes | src/Order.cpp:29-37 | scans of two different items give the same cart and total in either order |
| Orders.AddToCartWorkedCases | unit-tests/CheckoutTests.cpp:246-353 | two chips at 3 total 6; apples at 1.5 weighed 0.5 and 0.25 total 1.125; markdown and special do not enter the order's total |
| Orders.StaleTotalAfterPriceChange | src/Order.cpp:36-37 | chips at 3 scanned once, repriced to 5 and scanned again give a running total of 8 while the cart's item totals sum to 10 |
| Orders.Order.constructor | src/Order.cpp:5-9 | a new order has an empty cart and total 0, and is consistent |
| Orders.Order.GetTotalPrice | src/Order.cpp:11-13 | the running total, which equals the sum of item totals while the order is consistent |
| Orders.Order.ScanItem | src/Order.cpp:15-40 | fails with no change exactly when the name is absent or not sold by unit; otherwise the cart and total are those of a one-unit `AddToCart`; keeps the order valid and consistent |
| Orders.Order.ScanItemByWeight | src/Order.cpp:42-72 | fails with no change exactly when the weight is not positive or the name is absent or not sold by weight; otherwise the cart and total are those of an `AddToCart` of that weight; keeps the order valid and consistent |

## Left out

- Float rounding: amounts and prices are exact reals, so nothing models the
  `float` rounding of the source or its tests' tolerances.
- Console output: the warning the unit BOGO constructor prints for a bad
  percentage is not modelled.
- Shared ownership: the special is a value (`Option<Special>`), not a shared
  pointer, so pointer identity between items is not captured.
- Integer width: `needed` and `receive` are unbounded naturals, and a cart
  count (`Amount.Count`) is an unbounded `int`; only the order's `Valid`
  (through `Positive`) keeps a cart count at 1 or more. Unsigned wrap-around
  and overflow of `int` counts are not modelled.
- Specials.CalcPrice: the unit BOGO rule and the N-for-X rule both take the
  floor of the corrected amount. For the unit rule this stands for the
  float-to-unsigned conversion between the declaration in src/Special.hpp:24
  and the definition at src/Special.cpp:17. For N for X it is the model's own
  choice: `NforX::calcPrice` has no body and takes a `float`
  (src/Special.hpp:50), so what it does with a fractional amount is not known.
- Specials.CalcPrice: requires a non-empty group (`needed + receive > 0`, or
  `needed > 0` for N for X). The unit BOGO rule divides by that group
  (src/Special.cpp:19,22) and N for X is priced here by dividing by `needed`,
  so both would fail on an empty one. Nothing divides in the weight rule, but
  with an empty group the weight walk would never end.
- Specials.NewBuyOneGetOneUnit: the base-class constructor call at
  src/Special.cpp:6 does not match src/Special.hpp:8. `needed` is stored in
  the rule's own field.
- Items.Item.constructor: src/Item.cpp:5-8 leaves the markdown uninitialised.
  The model stores 0, as the unit tests expect (unit-tests/CheckoutTests.cpp:39-40).
- Orders.ItemTotalPrice: price times amount, with no markdown and no special,
  as src/Order.cpp:74-81 writes it. The unit tests at
  unit-tests/CheckoutTests.cpp:265-275, 323-332 and 334-353 expect markdowns and
  specials to apply; `Orders.AddToCartWorkedCases` records what the source
  computes instead.
- Orders.Order.ScanItem: the total stays the sum of item totals only while
  database prices do not change between scans. Hence the scans promise
  consistency only when it held before.
- Database.ItemDatabase.GetItem: src/Order.cpp:17 calls `getItem`, which
  src/ItemDatabase.hpp does not declare. It is modelled as a lookup returning
  the stored item's value or none.
- Getters (`getName`, `getSaleType`, `getPrice`, `getMarkdown`, `getSpecial`)
  are reads of the item's fields and have no members of their own.
- Item limits, `RemoveItem`, `setItemMarkdown`, `setItemSpecial` and
  markdown- or special-aware order pricing appear only in the unit tests, not
  in the source. src/Order.hpp is an outline without code.

## Findings

| source | as written | input that shows it | evidently intended | confidence | as-written member | corrected member |
|---|---|---|---|---|---|---|
| src/Special.cpp:17-30 | `BuyOneGetOneUnit::calcPrice` prices the amount and price as given and never applies `checkArgs` | buy two get one free at 100%, three items at price -1.5: the total is -3 | absolute values are used (src/Special.hpp:10-11), giving 3, as unit-tests/CheckoutTests.cpp:512-516 expects | not executed | Specials.BogoUnitNegativePriceAsWritten | Specials.CalcPriceIgnoresSigns |
