/**
 * Where the screens meet. Each screen computes its own low-stock rule; these
 * lemmas say where the rules agree and exhibit the inputs where they part.
 */
module ScreenAgreement {
  import opened Inventory
  import opened Seqs
  import Dashboard
  import LowStock
  import LowStockAlert
  import ProductsTable

  /**
   * The dashboard's "Estoque baixo" card, the widget's badge and the low-stock
   * page's "Total" counter all count the same products.
   */
  lemma LowStockCountsAgree(products: seq<Product>)
    ensures Dashboard.LowStockCount(products) == |LowStock.LowStockProducts(products)|
    ensures LowStock.LowStockProducts(products) == LowStockAlert.AlertProducts(products)
    ensures LowStockAlert.LowStockAlertView(products).Alerts? ==>
              LowStockAlert.LowStockAlertView(products).badge == |LowStock.LowStockProducts(products)|
  {
    FilterSamePredicate(products, Dashboard.BelowMinimum, LowStock.IsLow);
    FilterSamePredicate(products, LowStock.IsLow, LowStockAlert.NeedsRestock);
  }

  /**
   * With a non-negative minimum, the table's badge is "Sem estoque" or "Baixo"
   * exactly when the product is listed on the low-stock page.
   */
  lemma TableStatusMatchesLowList(products: seq<Product>, p: Product)
    requires p in products && p.minStock >= 0
    ensures ProductsTable.GetStockStatus(p).variant != ProductsTable.Success <==> p in LowStock.LowStockProducts(products)
  {
  }

  /**
   * With a negative minimum they part: a product with quantity 0 and minimum -1
   * is "Sem estoque" in the table yet absent from the low-stock page.
   */
  lemma TableStatusDiffersForNegativeMinimum()
    ensures var p := Product("1", "x", "x", "", 0, -1, 0, 0, "", "");
            ProductsTable.GetStockStatus(p).variant == ProductsTable.Destructive &&
            p !in LowStock.LowStockProducts([p])
  {
  }

  /**
   * Every product the dashboard counts as out of stock (`quantity === 0`) is
   * "Sem estoque" in the table; the converse fails for a negative quantity.
   */
  lemma OutOfStockImpliesTableEmpty(products: seq<Product>)
    ensures forall p :: p in Filter(products, Dashboard.HasNoStock) ==>
              ProductsTable.GetStockStatus(p).variant == ProductsTable.Destructive
  {
  }

  /** A product with quantity -1 is "Sem estoque" in the table but not counted under "Produtos sem estoque". */
  lemma NegativeQuantityNotOutOfStock()
    ensures var p := Product("1", "x", "x", "", -1, 0, 0, 0, "", "");
            ProductsTable.GetStockStatus(p).variant == ProductsTable.Destructive &&
            Dashboard.OutOfStockCount([p]) == 0
  {
  }
}
