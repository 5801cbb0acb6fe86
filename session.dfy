/** The bill-splitting page's session: its state and the handlers that replace parts of it. */
module BillSession {
  import opened ItemList
  import opened Calculator

  /** The state of one page session. Each field is one piece of the page's state; each method one handler. */
  class Session {
    var items: seq<Item>
    var totalPaid: real
    var calculatedItems: seq<CalculatedItem>
    var isDarkMode: bool

    /** The result on display is empty ("not yet calculated") or shares the bill out in percentages summing to 100. */
    ghost predicate Valid()
      reads this
    {
      calculatedItems == [] || TotalPercentage(calculatedItems) == 100.0
    }

    /** The surcharge/discount badge is on screen: it sits inside the result panel, drawn only while a result is shown. */
    predicate BadgeShown()
      reads this
      ensures BadgeShown() <==>
        (calculatedItems != [] && totalPaid > 0.0 &&
         (totalPaid > Subtotal(items) + 1.0 || totalPaid < Subtotal(items) - 1.0))
    {
      |calculatedItems| > 0 && ShowBadge(totalPaid, Subtotal(items))
    }

    /** The badge, when shown, reads "discount"; like the badge itself it uses the current items and total. */
    predicate BadgeReadsDiscount()
      reads this
      ensures BadgeReadsDiscount() <==> totalPaid < Subtotal(items)
    {
      IsDiscount(totalPaid, Subtotal(items))
    }

    /** The initial state: two blank rows, no total, no result, dark theme. */
    constructor ()
      ensures Valid()
      ensures items == DefaultItems() && totalPaid == 0.0 && calculatedItems == [] && isDarkMode
    {
      items := DefaultItems();
      totalPaid := 0.0;
      calculatedItems := [];
      isDarkMode := true;
    }

    /** Flips the theme; nothing else changes. */
    method ToggleTheme()
      requires Valid()
      modifies this
      ensures Valid()
      ensures isDarkMode == !old(isDarkMode)
      ensures items == old(items) && totalPaid == old(totalPaid) && calculatedItems == old(calculatedItems)
    {
      isDarkMode := !isDarkMode;
    }

    /** Appends a blank row with identifier `id`; ids stay unique exactly when `id` was unused. */
    method AddItem(id: int)
      requires Valid()
      modifies this
      ensures Valid()
      ensures items == old(items) + [Blank(id)]
      ensures IdsUnique(items) <==> IdsUnique(old(items)) && id !in Ids(old(items))
      ensures Subtotal(items) == Subtotal(old(items))
      ensures totalPaid == old(totalPaid) && calculatedItems == old(calculatedItems) && isDarkMode == old(isDarkMode)
    {
      AppendKeepsUnique(items, Blank(id));
      SubtotalAddBlank(items, id);
      items := items + [Blank(id)];
    }

    /** Drops every row carrying `id`, keeping the others in order. */
    method RemoveItem(id: int)
      requires Valid()
      modifies this
      ensures Valid()
      ensures items == RemoveById(old(items), id)
      ensures forall it :: it in items <==> it in old(items) && it.id != id
      ensures IdsUnique(old(items)) ==> IdsUnique(items)
      ensures totalPaid == old(totalPaid) && calculatedItems == old(calculatedItems) && isDarkMode == old(isDarkMode)
    {
      RemoveByIdMembers(items, id);
      if IdsUnique(items) {
        RemoveByIdKeepsUnique(items, id);
      }
      items := RemoveById(items, id);
    }

    /** Replaces one field of every row carrying `id`; every other row and field stays as it was. */
    method UpdateItem(id: int, e: Edit)
      requires Valid()
      modifies this
      ensures Valid()
      ensures items == UpdateById(old(items), id, e)
      ensures Ids(items) == Ids(old(items))
      ensures e.SetName? ==> Subtotal(items) == Subtotal(old(items))
      ensures totalPaid == old(totalPaid) && calculatedItems == old(calculatedItems) && isDarkMode == old(isDarkMode)
    {
      if e.SetName? {
        SubtotalRename(items, id, e.name);
      }
      items := UpdateById(items, id, e);
    }

    /** Stores the amount actually paid; nothing else changes. */
    method SetTotalPaid(amount: real)
      requires Valid()
      modifies this
      ensures Valid()
      ensures totalPaid == amount
      ensures items == old(items) && calculatedItems == old(calculatedItems) && isDarkMode == old(isDarkMode)
    {
      totalPaid := amount;
    }

    /** Restores two blank rows, clears the paid total and discards the result; the theme is kept. */
    method ResetAll()
      requires Valid()
      modifies this
      ensures Valid()
      ensures items == DefaultItems() && totalPaid == 0.0 && calculatedItems == []
      ensures isDarkMode == old(isDarkMode)
    {
      items := DefaultItems();
      totalPaid := 0.0;
      calculatedItems := [];
    }

    /** Computes the split and shows it; with a zero subtotal it returns early and the previous result stays. */
    method CalculateSplit()
      requires Valid()
      modifies this
      ensures Valid()
      ensures items == old(items) && totalPaid == old(totalPaid) && isDarkMode == old(isDarkMode)
      ensures calculatedItems == NextResult(items, totalPaid, old(calculatedItems))
      ensures Subtotal(items) == 0.0 ==> calculatedItems == old(calculatedItems)
      ensures Subtotal(items) != 0.0 ==> Split(items, totalPaid) == Some(calculatedItems)
      ensures Subtotal(items) != 0.0 ==>
        TotalFinal(calculatedItems) == EffectiveTotal(totalPaid, Subtotal(items)) &&
        TotalPercentage(calculatedItems) == 100.0
      ensures Subtotal(items) != 0.0 && BadgeShown() ==> (BadgeReadsDiscount() <==> TotalFinal(calculatedItems) < Subtotal(items))
    {
      var subtotal := Subtotal(items);
      if subtotal == 0.0 {
        return;
      }
      var multiplier := Multiplier(totalPaid, subtotal);
      calculatedItems := Rows(items, subtotal, multiplier);
      SplitSumsToEffectiveTotal(items, totalPaid);
      SplitPercentagesSumTo100(items, totalPaid);
      if ShowBadge(totalPaid, subtotal) {
        BadgeAgreesWithSplit(items, totalPaid);
      }
    }
  }

  /** The result shown after a calculation, given the one shown before. */
  function NextResult(items: seq<Item>, totalPaid: real, previous: seq<CalculatedItem>): (r: seq<CalculatedItem>)
    ensures Subtotal(items) == 0.0 ==> r == previous
    ensures Subtotal(items) != 0.0 ==> Split(items, totalPaid) == Some(r)
    ensures Subtotal(items) != 0.0 ==>
      (|r| == |items| && TotalFinal(r) == EffectiveTotal(totalPaid, Subtotal(items)) && TotalPercentage(r) == 100.0)
    ensures (previous == [] || TotalPercentage(previous) == 100.0) ==> (r == [] || TotalPercentage(r) == 100.0)
  {
    if Subtotal(items) != 0.0 then
      SplitSumsToEffectiveTotal(items, totalPaid);
      SplitPercentagesSumTo100(items, totalPaid);
      Split(items, totalPaid).value
    else
      previous
  }

  /** Calculating twice with unchanged inputs shows the same result as calculating once. */
  lemma CalculateIdempotent(items: seq<Item>, totalPaid: real, previous: seq<CalculatedItem>)
    ensures NextResult(items, totalPaid, NextResult(items, totalPaid, previous)) == NextResult(items, totalPaid, previous)
  {
  }

  /** Right after a reset the calculation has nothing to split, so it keeps the (empty) result. */
  lemma CalculateAfterResetIsNoOp(totalPaid: real)
    ensures Subtotal(DefaultItems()) == 0.0
    ensures Split(DefaultItems(), totalPaid).None?
  {
    SubtotalOfZeroPrices(DefaultItems());
  }

  /** In the initial and reset state nothing reads as a discount: the difference is 0, not negative. */
  lemma ResetShowsNoDiscount()
    ensures !IsDiscount(0.0, Subtotal(DefaultItems())) && !ShowBadge(0.0, Subtotal(DefaultItems()))
  {
    CalculateAfterResetIsNoOp(0.0);
  }

  /** A client of the class: the two-row bill of the page, paid with a surcharge, then reset. */
  method SessionScenario() returns (paid: real, afterReset: seq<CalculatedItem>)
    ensures paid == 33000.0
    ensures afterReset == []
  {
    var s := new Session();
    s.UpdateItem(1, SetName("Coffee"));
    s.UpdateItem(1, SetPrice(20000.0));
    s.UpdateItem(2, SetName("Tea"));
    s.UpdateItem(2, SetPrice(10000.0));
    s.SetTotalPaid(33000.0);
    assert s.items == [Item(1, "Coffee", 20000.0), Item(2, "Tea", 10000.0)];
    assert s.items[..1] == [Item(1, "Coffee", 20000.0)];
    s.CalculateSplit();
    paid := TotalFinal(s.calculatedItems);
    s.ResetAll();
    CalculateAfterResetIsNoOp(s.totalPaid);
    s.CalculateSplit();
    afterReset := s.calculatedItems;
  }

  /**
   * A client of the class: changing the paid total after a calculation leaves the shown rows as they were,
   * while the badge follows the new total. Here a "discount" badge is shown beside rows that pay a surcharge.
   */
  method StaleBadgeScenario() returns (badge: bool, discount: bool, rowsPay: real, subtotal: real)
    ensures badge && discount
    ensures rowsPay == 33000.0 && subtotal == 30000.0
  {
    var s := new Session();
    s.UpdateItem(1, SetPrice(20000.0));
    s.UpdateItem(2, SetPrice(10000.0));
    s.SetTotalPaid(33000.0);
    assert s.items[..1] == [Item(1, "", 20000.0)];
    assert Subtotal(s.items) == 30000.0;
    s.CalculateSplit();
    s.SetTotalPaid(27000.0);
    badge, discount := s.BadgeShown(), s.BadgeReadsDiscount();
    rowsPay, subtotal := TotalFinal(s.calculatedItems), Subtotal(s.items);
  }

  /**
   * A client of the class: a calculation with a zero subtotal returns early and keeps the old rows, which the
   * badge then disagrees with. A row priced -100 is split, its price is cleared to 0 and 50 is entered as paid:
   * the badge reads "surcharge" beside rows that pay less than the (zero) subtotal.
   */
  method ZeroSubtotalStaleBadgeScenario() returns (badge: bool, discount: bool, rowsPay: real, subtotal: real)
    ensures badge && !discount
    ensures rowsPay == -100.0 && subtotal == 0.0
  {
    var s := new Session();
    s.RemoveItem(2);
    assert s.items == [Blank(1)];
    s.UpdateItem(1, SetPrice(-100.0));
    assert s.items == [Item(1, "", -100.0)];
    s.CalculateSplit();
    s.UpdateItem(1, SetPrice(0.0));
    assert s.items == [Item(1, "", 0.0)];
    s.SetTotalPaid(50.0);
    s.CalculateSplit();
    badge, discount := s.BadgeShown(), s.BadgeReadsDiscount();
    rowsPay, subtotal := TotalFinal(s.calculatedItems), Subtotal(s.items);
  }
}
