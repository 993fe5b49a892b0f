/**
 * The dashboard's low-stock widget (`LowStockAlert.tsx`): a badge with the
 * number of products at or under their minimum and the first four of them,
 * each with a progress percentage `quantity / minStock * 100`.
 */
module LowStockAlert {
  import opened Inventory
  import opened JsValues
  import opened Seqs

  /** `slice(0, 4)`. */
  const MaxShown: nat := 4

  /** `p.quantity <= p.minStock`. */
  predicate NeedsRestock(p: Product)
  {
    p.quantity <= p.minStock
  }

  /** The widget's `lowStockProducts`: the products at or under their minimum, in list order. */
  function AlertProducts(products: seq<Product>): (r: seq<Product>)
    ensures IsSubsequence(r, products)
    ensures forall p :: p in r <==> p in products && p.quantity <= p.minStock
  {
    Filter(products, NeedsRestock)
  }

  datatype AlertItem = AlertItem(product: Product, percentage: JsNumber)

  datatype AlertView = AllAdequate | Alerts(badge: nat, items: seq<AlertItem>)

  function Min(a: nat, b: nat): nat
  {
    if a <= b then a else b
  }

  /**
   * The widget: the "all adequate" message when no product needs restocking;
   * otherwise a badge with the full count and the first `min(4, count)` of
   * those products, in order, each with its percentage.
   */
  function LowStockAlertView(products: seq<Product>): (v: AlertView)
    ensures v.AllAdequate? <==> forall i :: 0 <= i < |products| ==> products[i].quantity > products[i].minStock
    ensures v.Alerts? ==> 1 <= v.badge == |AlertProducts(products)| <= |products|
    ensures v.Alerts? ==> |v.items| == Min(MaxShown, v.badge)
    ensures v.Alerts? ==>
              forall k :: 0 <= k < |v.items| ==>
                v.items[k].product == AlertProducts(products)[k] &&
                v.items[k].percentage == Percentage(v.items[k].product.quantity, v.items[k].product.minStock)
  {
    var low := AlertProducts(products);
    FilterEmpty(products, NeedsRestock);
    if |low| == 0 then AllAdequate
    else
      var shown := low[..Min(MaxShown, |low|)];
      Alerts(|low|, seq(|shown|, k requires 0 <= k < |shown| =>
                          AlertItem(shown[k], Percentage(shown[k].quantity, shown[k].minStock))))
  }

  /** For `0 <= quantity <= minStock` the percentage is finite and lies between 0 and 100. */
  lemma PercentageWithinBounds(quantity: int, minStock: int)
    requires 0 <= quantity <= minStock && 0 < minStock
    ensures Percentage(quantity, minStock).Finite?
    ensures 0.0 <= Percentage(quantity, minStock).value <= 100.0
  {
    var v := Percentage(quantity, minStock).value;
    var m := minStock as real;
    assert v * m == (quantity as real) * 100.0;
    assert (v - 100.0) * m == v * m - 100.0 * m <= 0.0;
    assert v * m >= 0.0;
  }

  /**
   * A shown item with a positive minimum and a non-negative quantity has a
   * finite percentage between 0 and 100; one with a zero minimum reaches the
   * division by zero and gets no finite percentage.
   */
  lemma ShownPercentageBounds(products: seq<Product>, k: nat)
    requires LowStockAlertView(products).Alerts?
    requires k < |LowStockAlertView(products).items|
    ensures var item := LowStockAlertView(products).items[k];
            (item.product.minStock > 0 && item.product.quantity >= 0 ==>
               item.percentage.Finite? && 0.0 <= item.percentage.value <= 100.0) &&
            (item.product.minStock == 0 ==> !item.percentage.Finite? && item.product.quantity <= 0)
  {
    var item := LowStockAlertView(products).items[k];
    var p := item.product;
    assert p in AlertProducts(products);
    if p.minStock > 0 && p.quantity >= 0 {
      PercentageWithinBounds(p.quantity, p.minStock);
    }
  }
}
