/**
 * The low-stock screen (`LowStock.tsx`): the products at or under their
 * minimum, split into critical (at most half the minimum) and warning (above
 * half), the three counters, and one card per low product whose own
 * "critical" flag comes from the percentage `quantity / minStock * 100`.
 */
module LowStock {
  import opened Inventory
  import opened JsValues
  import opened Seqs

  /** `p.quantity <= p.minStock`. */
  predicate IsLow(p: Product)
  {
    p.quantity <= p.minStock
  }

  /** `p.quantity <= p.minStock * 0.5`, kept exact by doubling the quantity. */
  predicate IsCriticalLevel(p: Product)
  {
    2 * p.quantity <= p.minStock
  }

  /** `p.quantity > p.minStock * 0.5`. */
  predicate IsWarningLevel(p: Product)
  {
    2 * p.quantity > p.minStock
  }

  /** `lowStockProducts`: the products at or under their minimum, in list order. */
  function LowStockProducts(products: seq<Product>): (r: seq<Product>)
    ensures IsSubsequence(r, products)
    ensures forall p :: p in r <==> p in products && IsLow(p)
  {
    Filter(products, IsLow)
  }

  /** `criticalProducts`: the low products at or under half their minimum, in list order. */
  function CriticalProducts(products: seq<Product>): (r: seq<Product>)
    ensures IsSubsequence(r, LowStockProducts(products)) && IsSubsequence(r, products)
    ensures forall p :: p in r <==> p in products && IsLow(p) && 2 * p.quantity <= p.minStock
  {
    var low := LowStockProducts(products);
    var r := Filter(low, IsCriticalLevel);
    SubsequenceTransitive(r, low, products);
    r
  }

  /** `warningProducts`: the low products above half their minimum, in list order. */
  function WarningProducts(products: seq<Product>): (r: seq<Product>)
    ensures IsSubsequence(r, LowStockProducts(products)) && IsSubsequence(r, products)
    ensures forall p :: p in r <==> p in products && IsLow(p) && 2 * p.quantity > p.minStock
  {
    var low := LowStockProducts(products);
    var r := Filter(low, IsWarningLevel);
    SubsequenceTransitive(r, low, products);
    r
  }

  /** Each list holds every qualifying product as often as `products` does, and nothing else. */
  lemma ListsKeepMultiplicity(products: seq<Product>)
    ensures forall p :: multiset(LowStockProducts(products))[p] == if IsLow(p) then multiset(products)[p] else 0
    ensures forall p :: multiset(CriticalProducts(products))[p]
                        == if IsLow(p) && IsCriticalLevel(p) then multiset(products)[p] else 0
    ensures forall p :: multiset(WarningProducts(products))[p]
                        == if IsLow(p) && IsWarningLevel(p) then multiset(products)[p] else 0
  {
    var low := LowStockProducts(products);
    FilterCounts(products, IsLow);
    FilterCounts(low, IsCriticalLevel);
    FilterCounts(low, IsWarningLevel);
  }

  /**
   * The "Crítico" and "Atenção" counters split the "Total" counter: no product
   * is in both lists, the counts add up, and together they hold every low
   * product exactly as often as it occurs.
   */
  lemma CriticalAndWarningPartitionLow(products: seq<Product>)
    ensures forall p :: !(p in CriticalProducts(products) && p in WarningProducts(products))
    ensures |CriticalProducts(products)| + |WarningProducts(products)| == |LowStockProducts(products)|
    ensures multiset(CriticalProducts(products)) + multiset(WarningProducts(products))
         == multiset(LowStockProducts(products))
  {
    var low := LowStockProducts(products);
    FilterComplementLength(low, IsCriticalLevel, IsWarningLevel);
    ListsKeepMultiplicity(products);
    var both := multiset(CriticalProducts(products)) + multiset(WarningProducts(products));
    assert forall p :: both[p] == multiset(low)[p];
  }

  // ------------------------------------------------------------------ cards

  /** One product card: its progress percentage and whether it is drawn as critical (`percentage <= 50`). */
  datatype Card = Card(product: Product, percentage: JsNumber, isCritical: bool)

  /** Multiplying by a positive factor keeps the sign. */
  lemma ScalePreservesSign(x: real, m: real)
    requires m > 0.0
    ensures x <= 0.0 <==> x * m <= 0.0
  {
    if x > 0.0 {
      assert x * m > 0.0;
    }
  }

  /** `quantity / minStock * 100 <= 50` on integers, for a divisor of either sign. */
  lemma PercentageAtMostFifty(quantity: int, minStock: int)
    ensures minStock > 0 ==> (AtMost(Percentage(quantity, minStock), 50.0) <==> 2 * quantity <= minStock)
    ensures minStock < 0 ==> (AtMost(Percentage(quantity, minStock), 50.0) <==> 2 * quantity >= minStock)
  {
    if minStock != 0 {
      var v := Percentage(quantity, minStock).value;
      var m := minStock as real;
      assert v * m == (quantity as real) * 100.0;
      if minStock > 0 {
        ScalePreservesSign(v - 50.0, m);
        assert (v - 50.0) * m == (quantity as real) * 100.0 - 50.0 * m;
      } else {
        ScalePreservesSign(50.0 - v, -m);
        assert (50.0 - v) * (-m) == (quantity as real) * 100.0 - 50.0 * m;
      }
    }
  }

  /**
   * The card of one low product. The flag is decided by the percentage, not by
   * membership in `criticalProducts`: the two agree for a positive minimum, a
   * zero minimum gives an infinite or NaN percentage, and a negative minimum
   * flips the inequality.
   */
  function CardFor(p: Product): (c: Card)
    ensures c.product == p
    ensures c.percentage.Finite? <==> p.minStock != 0
    ensures p.minStock > 0 ==> (c.isCritical <==> IsCriticalLevel(p))
    ensures p.minStock == 0 ==> (c.isCritical <==> p.quantity < 0)
    ensures p.minStock < 0 ==> (c.isCritical <==> 2 * p.quantity >= p.minStock)
  {
    var percentage := Percentage(p.quantity, p.minStock);
    PercentageAtMostFifty(p.quantity, p.minStock);
    Card(p, percentage, AtMost(percentage, 50.0))
  }

  /** For a positive minimum the card flag is exactly membership in `criticalProducts`. */
  lemma CardFlagMatchesCriticalList(products: seq<Product>, p: Product)
    requires p in LowStockProducts(products)
    requires p.minStock > 0
    ensures CardFor(p).isCritical <==> p in CriticalProducts(products)
  {
  }

  /**
   * A product with `quantity = minStock = 0` is counted under "Crítico" while
   * its card, whose percentage is `0 / 0`, is drawn as "Baixo".
   */
  lemma CardFlagDisagreesAtZeroMinimum()
    ensures var p := Product("1", "x", "x", "", 0, 0, 0, 0, "", "");
            p in CriticalProducts([p]) && !CardFor(p).isCritical
  {
    var p := Product("1", "x", "x", "", 0, 0, 0, 0, "", "");
    assert p in LowStockProducts([p]);
  }

  // ------------------------------------------------------------------- page

  datatype Body = AllInOrder | Cards(cards: seq<Card>)

  datatype LowStockPage = Loading | Loaded(critical: nat, warning: nat, total: nat, body: Body)

  /**
   * The whole screen: "Carregando..." while loading; otherwise the three
   * counters, then either "Tudo em ordem!" or one card per low product.
   */
  function LowStockScreen(products: seq<Product>, isLoading: bool): (page: LowStockPage)
    ensures page.Loading? <==> isLoading
    ensures page.Loaded? ==> page.critical == |CriticalProducts(products)|
    ensures page.Loaded? ==> page.warning == |WarningProducts(products)|
    ensures page.Loaded? ==> page.critical + page.warning == page.total
    ensures page.Loaded? ==> page.total == |LowStockProducts(products)| <= |products|
    ensures page.Loaded? ==>
              (page.body.AllInOrder? <==> forall i :: 0 <= i < |products| ==> !IsLow(products[i]))
    ensures page.Loaded? && page.body.Cards? ==>
              |page.body.cards| == page.total &&
              forall k :: 0 <= k < page.total ==>
                page.body.cards[k] == CardFor(LowStockProducts(products)[k]) &&
                page.body.cards[k].product == LowStockProducts(products)[k] &&
                page.body.cards[k].percentage == Percentage(page.body.cards[k].product.quantity,
                                                            page.body.cards[k].product.minStock)
  {
    if isLoading then Loading
    else
      var low := LowStockProducts(products);
      CriticalAndWarningPartitionLow(products);
      FilterEmpty(products, IsLow);
      var body := if |low| == 0 then AllInOrder else Cards(seq(|low|, k requires 0 <= k < |low| => CardFor(low[k])));
      Loaded(|CriticalProducts(products)|, |WarningProducts(products)|, |low|, body)
  }
}
