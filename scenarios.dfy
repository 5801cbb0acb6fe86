/** Worked bills: a coffee and a tea, split without a total, with a surcharge, with a discount, and an empty bill. */
module Scenarios {
  import opened ItemList
  import opened Calculator

  function CoffeeAndTea(): seq<Item> {
    [Item(1, "Coffee", 20000.0), Item(2, "Tea", 10000.0)]
  }

  lemma CoffeeAndTeaSubtotal()
    ensures Subtotal(CoffeeAndTea()) == 30000.0
  {
    assert CoffeeAndTea()[..1] == [Item(1, "Coffee", 20000.0)];
  }

  /** The split of the two-row bill, row by row, for any multiplier the paid total gives. */
  lemma CoffeeAndTeaRows(totalPaid: real)
    ensures Split(CoffeeAndTea(), totalPaid) == Some([
      Row(Item(1, "Coffee", 20000.0), 30000.0, Multiplier(totalPaid, 30000.0)),
      Row(Item(2, "Tea", 10000.0), 30000.0, Multiplier(totalPaid, 30000.0))])
  {
    CoffeeAndTeaSubtotal();
    var r := Split(CoffeeAndTea(), totalPaid).value;
    assert r == [r[0], r[1]];
  }

  /** No total entered: everyone pays their own price; shares are two thirds and one third. */
  lemma NoTotalScenario()
    ensures Split(CoffeeAndTea(), 0.0) == Some([
      CalculatedItem(1, "Coffee", 20000.0, 20000.0, 200.0 / 3.0),
      CalculatedItem(2, "Tea", 10000.0, 10000.0, 100.0 / 3.0)])
    ensures !ShowBadge(0.0, 30000.0)
  {
    CoffeeAndTeaRows(0.0);
  }

  /** 33000 paid for 30000 worth: a multiplier of 1.1 and a 10% surcharge badge. */
  lemma SurchargeScenario()
    ensures Split(CoffeeAndTea(), 33000.0) == Some([
      CalculatedItem(1, "Coffee", 20000.0, 22000.0, 200.0 / 3.0),
      CalculatedItem(2, "Tea", 10000.0, 11000.0, 100.0 / 3.0)])
    ensures Multiplier(33000.0, 30000.0) == 1.1
    ensures Diff(33000.0, 30000.0) == 3000.0 && DiffPercentage(33000.0, 30000.0) == 10.0
    ensures ShowBadge(33000.0, 30000.0) && !IsDiscount(33000.0, 30000.0)
  {
    CoffeeAndTeaRows(33000.0);
  }

  /** 27000 paid for 30000 worth: a multiplier of 0.9 and a 10% discount badge. */
  lemma DiscountScenario()
    ensures Split(CoffeeAndTea(), 27000.0) == Some([
      CalculatedItem(1, "Coffee", 20000.0, 18000.0, 200.0 / 3.0),
      CalculatedItem(2, "Tea", 10000.0, 9000.0, 100.0 / 3.0)])
    ensures Multiplier(27000.0, 30000.0) == 0.9
    ensures Diff(27000.0, 30000.0) == -3000.0 && DiffPercentage(27000.0, 30000.0) == 10.0
    ensures ShowBadge(27000.0, 30000.0) && IsDiscount(27000.0, 30000.0)
  {
    CoffeeAndTeaRows(27000.0);
  }

  /** Half a unit over the subtotal: the rows are scaled, but the badge stays hidden. */
  lemma WithinOneUnitScenario()
    ensures ShowBadge(30000.5, 30000.0) == false
  {
  }

  /** A single row of price 0 has nothing to split. */
  lemma ZeroBillScenario(totalPaid: real)
    ensures Split([Item(1, "Coffee", 0.0)], totalPaid).None?
  {
    assert [Item(1, "Coffee", 0.0)][..0] == [];
  }
}
