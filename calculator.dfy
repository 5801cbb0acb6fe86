/** The proportional split: every row pays its share of the subtotal, scaled to the amount actually paid. */
module Calculator {
  import opened ItemList

  /** One row of the computed result. */
  datatype CalculatedItem = CalculatedItem(id: int, name: string, originalPrice: real, finalPrice: real, percentage: real)

  /** `None` stands for "nothing to split": the previous result stays as it is. */
  datatype Option<T> = None | Some(value: T)

  /** Sum of the prices, folded from the left as `items.reduce((sum, item) => sum + item.price, 0)`. */
  function Subtotal(items: seq<Item>): (r: real)
    ensures |items| == 1 ==> r == items[0].price
  {
    if items == [] then 0.0 else Subtotal(items[..|items| - 1]) + items[|items| - 1].price
  }

  /** Sum of the final prices of a result. */
  function TotalFinal(rows: seq<CalculatedItem>): real {
    if rows == [] then 0.0 else TotalFinal(rows[..|rows| - 1]) + rows[|rows| - 1].finalPrice
  }

  /** Sum of the percentages of a result. */
  function TotalPercentage(rows: seq<CalculatedItem>): real {
    if rows == [] then 0.0 else TotalPercentage(rows[..|rows| - 1]) + rows[|rows| - 1].percentage
  }

  /** The factor applied to every price: paid over nominal when a total was entered, 1 otherwise. */
  function Multiplier(totalPaid: real, subtotal: real): (m: real)
    requires subtotal != 0.0
    ensures totalPaid > 0.0 ==> m * subtotal == totalPaid
    ensures totalPaid <= 0.0 ==> m == 1.0
  {
    if totalPaid > 0.0 then totalPaid / subtotal else 1.0
  }

  /** The amount the rows are scaled to: the paid total when one was entered, else the subtotal. */
  function EffectiveTotal(totalPaid: real, subtotal: real): (r: real)
    ensures r == totalPaid || r == subtotal
    ensures r == subtotal <==> totalPaid <= 0.0 || totalPaid == subtotal
    ensures totalPaid > 0.0 || subtotal > 0.0 ==> r > 0.0
  {
    if totalPaid > 0.0 then totalPaid else subtotal
  }

  /** A blank name is shown as the placeholder "Item"; any other name is kept. */
  function DisplayName(name: string): (r: string)
    ensures r != ""
    ensures name == "" ==> r == "Item"
    ensures name != "" ==> r == name
  {
    if name == "" then "Item" else name
  }

  /** The result row computed for one item. */
  function Row(it: Item, subtotal: real, multiplier: real): (r: CalculatedItem)
    requires subtotal != 0.0
    ensures r.id == it.id && r.name == DisplayName(it.name) && r.originalPrice == it.price
    ensures r.finalPrice == r.originalPrice * multiplier
    ensures r.percentage * subtotal == 100.0 * it.price
  {
    assert it.price / subtotal * subtotal == it.price;
    CalculatedItem(it.id, DisplayName(it.name), it.price, it.price * multiplier, it.price / subtotal * 100.0)
  }

  /** `items.map(...)`: one result row per item, in the same order. */
  function Rows(items: seq<Item>, subtotal: real, multiplier: real): (r: seq<CalculatedItem>)
    requires subtotal != 0.0
    ensures |r| == |items|
    ensures forall i :: 0 <= i < |items| ==> r[i] == Row(items[i], subtotal, multiplier)
  {
    if items == [] then []
    else Rows(items[..|items| - 1], subtotal, multiplier) + [Row(items[|items| - 1], subtotal, multiplier)]
  }

  /** The split of a bill, or `None` when the subtotal is zero. */
  function Split(items: seq<Item>, totalPaid: real): (r: Option<seq<CalculatedItem>>)
    ensures r.None? <==> Subtotal(items) == 0.0
    ensures r.Some? ==> |r.value| == |items|
    ensures r.Some? ==> forall i :: 0 <= i < |items| ==>
      r.value[i].id == items[i].id &&
      r.value[i].name == DisplayName(items[i].name) &&
      r.value[i].originalPrice == items[i].price
  {
    var subtotal := Subtotal(items);
    if subtotal == 0.0 then None else Some(Rows(items, subtotal, Multiplier(totalPaid, subtotal)))
  }

  /** `Math.abs`. */
  function Abs(x: real): (r: real)
    ensures r >= 0.0
    ensures r == x || r == -x
  {
    if x < 0.0 then -x else x
  }

  /** Paid minus nominal: positive is a surcharge, negative a discount. */
  function Diff(totalPaid: real, subtotal: real): (d: real)
    ensures subtotal + d == totalPaid
  {
    totalPaid - subtotal
  }

  /** The size of the difference as a percentage of the subtotal; 0 when the subtotal is not positive. */
  function DiffPercentage(totalPaid: real, subtotal: real): (p: real)
    ensures p >= 0.0
    ensures subtotal <= 0.0 ==> p == 0.0
    ensures subtotal > 0.0 ==> p * subtotal == 100.0 * Abs(totalPaid - subtotal)
  {
    if subtotal > 0.0 then Abs(Diff(totalPaid, subtotal)) / subtotal * 100.0 else 0.0
  }

  /** Whether the difference reads as a discount. */
  function IsDiscount(totalPaid: real, subtotal: real): (b: bool)
    ensures b <==> totalPaid < subtotal
  {
    Diff(totalPaid, subtotal) < 0.0
  }

  /** Whether the surcharge/discount badge is shown: a total was entered and it is off by more than one unit. */
  function ShowBadge(totalPaid: real, subtotal: real): (b: bool)
    ensures b <==> totalPaid > 0.0 && (totalPaid > subtotal + 1.0 || totalPaid < subtotal - 1.0)
  {
    totalPaid > 0.0 && Abs(Diff(totalPaid, subtotal)) > 1.0
  }

  // ---------------------------------------------------------------------------
  // Sums over sequences

  /** The subtotal of a concatenation is the sum of the subtotals, so the fold order does not matter. */
  lemma {:induction false} SubtotalAppend(a: seq<Item>, b: seq<Item>)
    ensures Subtotal(a + b) == Subtotal(a) + Subtotal(b)
  {
    if b == [] {
      assert a + b == a;
    } else {
      var b' := b[..|b| - 1];
      assert (a + b)[..|a + b| - 1] == a + b';
      SubtotalAppend(a, b');
    }
  }

  /** A bill whose rows all cost 0, such as the default two blank rows, has a subtotal of 0. */
  lemma {:induction false} SubtotalOfZeroPrices(items: seq<Item>)
    requires forall i :: 0 <= i < |items| ==> items[i].price == 0.0
    ensures Subtotal(items) == 0.0
  {
    if items != [] {
      var n := |items| - 1;
      forall i | 0 <= i < n ensures items[..n][i].price == 0.0 {
        assert items[..n][i] == items[i];
      }
      SubtotalOfZeroPrices(items[..n]);
    }
  }

  /** Adding a blank row leaves the subtotal unchanged. */
  lemma {:induction false} SubtotalAddBlank(items: seq<Item>, id: int)
    ensures Subtotal(items + [Blank(id)]) == Subtotal(items)
  {
    assert (items + [Blank(id)])[..|items|] == items;
  }

  /** Renaming rows leaves the subtotal unchanged. */
  lemma {:induction false} SubtotalRename(items: seq<Item>, id: int, name: string)
    ensures Subtotal(UpdateById(items, id, SetName(name))) == Subtotal(items)
  {
    if items != [] {
      var r := UpdateById(items, id, SetName(name));
      var n := |items| - 1;
      assert r[..n] == UpdateById(items[..n], id, SetName(name));
      SubtotalRename(items[..n], id, name);
    }
  }

  /** With no negative price, every price is at most the subtotal, which is then non-negative. */
  lemma {:induction false} PriceAtMostSubtotal(items: seq<Item>)
    requires forall i :: 0 <= i < |items| ==> items[i].price >= 0.0
    ensures Subtotal(items) >= 0.0
    ensures forall i :: 0 <= i < |items| ==> items[i].price <= Subtotal(items)
  {
    if items != [] {
      var n := |items| - 1;
      PriceAtMostSubtotal(items[..n]);
      forall i | 0 <= i < n ensures items[i].price <= Subtotal(items) {
        assert items[..n][i] == items[i];
      }
    }
  }

  /** Row `c` pays its nominal `price` scaled by `m`. */
  predicate PaysScaled(c: CalculatedItem, price: real, m: real) {
    c.finalPrice == price * m
  }

  /** Row `c`'s percentage is its nominal `price` relative to `s`. */
  predicate WeighsPrice(c: CalculatedItem, price: real, s: real) {
    c.percentage * s == 100.0 * price
  }

  /** Rows whose final prices are the item prices scaled by `m` add up to the subtotal scaled by `m`. */
  lemma {:induction false} TotalFinalScaled(rows: seq<CalculatedItem>, items: seq<Item>, m: real)
    requires |rows| == |items|
    requires forall i :: 0 <= i < |items| ==> PaysScaled(rows[i], items[i].price, m)
    ensures TotalFinal(rows) == m * Subtotal(items)
  {
    if items != [] {
      var n := |items| - 1;
      forall i | 0 <= i < n ensures PaysScaled(rows[..n][i], items[..n][i].price, m) {
        assert rows[..n][i] == rows[i] && items[..n][i] == items[i];
      }
      assert PaysScaled(rows[n], items[n].price, m);
      TotalFinalScaled(rows[..n], items[..n], m);
      ScaledSumStep(TotalFinal(rows[..n]), rows[n].finalPrice, Subtotal(items[..n]), items[n].price, m);
    }
  }

  /** Rows whose percentages are the item prices relative to `s` add up to the subtotal relative to `s`. */
  lemma {:induction false} TotalPercentageScaled(rows: seq<CalculatedItem>, items: seq<Item>, s: real)
    requires |rows| == |items|
    requires forall i :: 0 <= i < |items| ==> WeighsPrice(rows[i], items[i].price, s)
    ensures TotalPercentage(rows) * s == 100.0 * Subtotal(items)
  {
    if items != [] {
      var n := |items| - 1;
      forall i | 0 <= i < n ensures WeighsPrice(rows[..n][i], items[..n][i].price, s) {
        assert rows[..n][i] == rows[i] && items[..n][i] == items[i];
      }
      assert WeighsPrice(rows[n], items[n].price, s);
      TotalPercentageScaled(rows[..n], items[..n], s);
      WeightedSumStep(TotalPercentage(rows[..n]), rows[n].percentage, Subtotal(items[..n]), items[n].price, s);
    }
  }

  // ---------------------------------------------------------------------------
  // Arithmetic on one row

  /** One step of summing scaled prices. */
  lemma ScaledSumStep(sumPrefix: real, last: real, a: real, p: real, m: real)
    requires sumPrefix == m * a && last == p * m
    ensures sumPrefix + last == m * (a + p)
  {
  }

  /** One step of summing percentages. */
  lemma WeightedSumStep(sumPrefix: real, last: real, a: real, p: real, s: real)
    requires sumPrefix * s == 100.0 * a && last * s == 100.0 * p
    ensures (sumPrefix + last) * s == 100.0 * (a + p)
  {
  }

  /** A row whose price lies between 0 and the subtotal has a percentage between 0 and 100. */
  lemma RowPercentageBounds(it: Item, subtotal: real, multiplier: real)
    requires 0.0 <= it.price <= subtotal && subtotal != 0.0
    ensures 0.0 <= Row(it, subtotal, multiplier).percentage <= 100.0
  {
    var p := it.price;
    assert p / subtotal * subtotal == p;
    assert 0.0 <= p / subtotal <= 1.0;
  }

  /** A row pays its percentage of `total`, when `total` is `multiplier * subtotal`. */
  lemma RowShare(it: Item, subtotal: real, multiplier: real, total: real)
    requires subtotal != 0.0 && multiplier * subtotal == total
    ensures PaysPercentageOf(Row(it, subtotal, multiplier), total)
  {
    var p := it.price;
    assert (p / subtotal * 100.0) / 100.0 == p / subtotal;
    assert p / subtotal * (multiplier * subtotal) == p * multiplier;
  }

  /** A row scaled by `multiplier` pays its price in the ratio of `total` to the subtotal, when `total` is `multiplier * subtotal`. */
  lemma RowProportional(it: Item, subtotal: real, multiplier: real, total: real)
    requires subtotal != 0.0 && multiplier * subtotal == total
    ensures PaysInRatio(Row(it, subtotal, multiplier), it.price, subtotal, total)
  {
    assert (it.price * multiplier) * subtotal == it.price * (multiplier * subtotal);
  }

  /** A sum that, times a non-zero subtotal, is 100 times that subtotal is 100. */
  lemma CancelSubtotal(sum: real, subtotal: real)
    requires subtotal != 0.0 && sum * subtotal == 100.0 * subtotal
    ensures sum == 100.0
  {
    assert (sum - 100.0) * subtotal == 0.0;
  }

  /** Scaling the subtotal by the multiplier gives the effective total. */
  lemma MultiplierScalesSubtotal(totalPaid: real, subtotal: real)
    requires subtotal != 0.0
    ensures Multiplier(totalPaid, subtotal) * subtotal == EffectiveTotal(totalPaid, subtotal)
  {
  }

  // ---------------------------------------------------------------------------
  // Properties of the split

  /** The final prices add up to the amount paid, or to the subtotal when no total was entered. */
  lemma {:induction false} SplitSumsToEffectiveTotal(items: seq<Item>, totalPaid: real)
    requires Split(items, totalPaid).Some?
    ensures TotalFinal(Split(items, totalPaid).value) == EffectiveTotal(totalPaid, Subtotal(items))
    ensures totalPaid > 0.0 ==> TotalFinal(Split(items, totalPaid).value) == totalPaid
    ensures totalPaid <= 0.0 ==> TotalFinal(Split(items, totalPaid).value) == Subtotal(items)
  {
    var s := Subtotal(items);
    var m := Multiplier(totalPaid, s);
    var r := Rows(items, s, m);
    assert Split(items, totalPaid) == Some(r);
    forall i | 0 <= i < |items| ensures PaysScaled(r[i], items[i].price, m) {
      assert r[i] == Row(items[i], s, m);
    }
    TotalFinalScaled(r, items, m);
    MultiplierScalesSubtotal(totalPaid, s);
  }

  /** Without a paid total every row pays exactly its own price. */
  lemma {:induction false} SplitIdentityWithoutTotal(items: seq<Item>, totalPaid: real)
    requires totalPaid <= 0.0
    requires Split(items, totalPaid).Some?
    ensures forall i :: 0 <= i < |items| ==>
      Split(items, totalPaid).value[i].finalPrice == Split(items, totalPaid).value[i].originalPrice
  {
  }

  /** The percentages add up to 100. */
  lemma {:induction false} SplitPercentagesSumTo100(items: seq<Item>, totalPaid: real)
    requires Split(items, totalPaid).Some?
    ensures TotalPercentage(Split(items, totalPaid).value) == 100.0
  {
    var s := Subtotal(items);
    var m := Multiplier(totalPaid, s);
    var r := Rows(items, s, m);
    forall i | 0 <= i < |items| ensures WeighsPrice(r[i], items[i].price, s) {
      assert r[i] == Row(items[i], s, m);
    }
    TotalPercentageScaled(r, items, s);
    CancelSubtotal(TotalPercentage(r), s);
    assert Split(items, totalPaid) == Some(r);
  }

  /** With no negative price every percentage lies between 0 and 100, and no row pays a negative amount. */
  lemma {:induction false} SplitBounds(items: seq<Item>, totalPaid: real)
    requires forall i :: 0 <= i < |items| ==> items[i].price >= 0.0
    requires Split(items, totalPaid).Some?
    ensures forall i :: 0 <= i < |items| ==>
      0.0 <= Split(items, totalPaid).value[i].percentage <= 100.0 &&
      0.0 <= Split(items, totalPaid).value[i].finalPrice
  {
    var s := Subtotal(items);
    var m := Multiplier(totalPaid, s);
    var r := Rows(items, s, m);
    PriceAtMostSubtotal(items);
    assert m > 0.0 by {
      if totalPaid > 0.0 {
        assert m * s == totalPaid;
      }
    }
    forall i | 0 <= i < |items| ensures 0.0 <= r[i].percentage <= 100.0 && 0.0 <= r[i].finalPrice {
      RowPercentageBounds(items[i], s, m);
      assert 0.0 <= items[i].price * m;
    }
    assert Split(items, totalPaid) == Some(r);
  }

  /** Row `c` pays its percentage of `total`. */
  predicate PaysPercentageOf(c: CalculatedItem, total: real) {
    c.finalPrice == c.percentage / 100.0 * total
  }

  /** A row of nominal `price` pays in the ratio of `total` to `subtotal`. */
  predicate PaysInRatio(c: CalculatedItem, price: real, subtotal: real, total: real) {
    c.finalPrice * subtotal == price * total
  }

  /** Each row pays its percentage of the effective total. */
  lemma {:induction false} SplitFinalIsShareOfTotal(items: seq<Item>, totalPaid: real)
    requires Split(items, totalPaid).Some?
    ensures forall i :: 0 <= i < |items| ==>
      PaysPercentageOf(Split(items, totalPaid).value[i], EffectiveTotal(totalPaid, Subtotal(items)))
  {
    var s := Subtotal(items);
    var m := Multiplier(totalPaid, s);
    var t := EffectiveTotal(totalPaid, s);
    var r := Rows(items, s, m);
    MultiplierScalesSubtotal(totalPaid, s);
    forall i | 0 <= i < |items| ensures PaysPercentageOf(r[i], t) {
      RowShare(items[i], s, m, t);
    }
    assert Split(items, totalPaid) == Some(r);
  }

  /** The split is proportional: each row pays its price in the ratio of the effective total to the subtotal. */
  lemma {:induction false} SplitProportional(items: seq<Item>, totalPaid: real)
    requires Split(items, totalPaid).Some?
    ensures forall i :: 0 <= i < |items| ==>
      PaysInRatio(Split(items, totalPaid).value[i], items[i].price, Subtotal(items), EffectiveTotal(totalPaid, Subtotal(items)))
  {
    var s := Subtotal(items);
    var m := Multiplier(totalPaid, s);
    var t := EffectiveTotal(totalPaid, s);
    var r := Rows(items, s, m);
    MultiplierScalesSubtotal(totalPaid, s);
    forall i | 0 <= i < |items| ensures PaysInRatio(r[i], items[i].price, s, t) {
      RowProportional(items[i], s, m, t);
    }
    assert Split(items, totalPaid) == Some(r);
  }

  /** Whenever the badge is shown, its kind agrees with the split: a discount exactly when the rows pay less than the subtotal. */
  lemma {:induction false} BadgeAgreesWithSplit(items: seq<Item>, totalPaid: real)
    requires Split(items, totalPaid).Some?
    requires ShowBadge(totalPaid, Subtotal(items))
    ensures IsDiscount(totalPaid, Subtotal(items)) <==> TotalFinal(Split(items, totalPaid).value) < Subtotal(items)
  {
    SplitSumsToEffectiveTotal(items, totalPaid);
  }

  /** With a paid total and a positive subtotal, the badge's percentage is how far the multiplier is from 1. */
  lemma DiffPercentageIsMultiplierDeviation(totalPaid: real, subtotal: real)
    requires totalPaid > 0.0 && subtotal > 0.0
    ensures DiffPercentage(totalPaid, subtotal) == Abs(Multiplier(totalPaid, subtotal) - 1.0) * 100.0
  {
    var m := Multiplier(totalPaid, subtotal);
    assert totalPaid - subtotal == (m - 1.0) * subtotal;
    assert Abs(totalPaid - subtotal) == Abs(m - 1.0) * subtotal;
  }

  /** With no total entered the difference reads as a discount, but the badge stays hidden. */
  lemma NoTotalHidesBadge(subtotal: real)
    requires subtotal > 0.0
    ensures IsDiscount(0.0, subtotal) && !ShowBadge(0.0, subtotal)
  {
  }

  /** The placeholder is applied once: showing a result name again changes nothing. */
  lemma DisplayNameIdempotent(name: string)
    ensures DisplayName(DisplayName(name)) == DisplayName(name)
  {
  }
}
