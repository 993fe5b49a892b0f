/**
 * The dashboard (`Dashboard.tsx`): product count, stock value (the sum of
 * `price * quantity`, here in cents), the low-stock count, the hard-coded
 * "movements today", the quick summary (registered products, active
 * categories, products with no stock) and the low-stock widget it embeds.
 */
module Dashboard {
  import opened Inventory
  import opened Seqs
  import LowStockAlert

  /** The `reduce((acc, product) => acc + product.price * product.quantity, 0)` fold, left to right. */
  function TotalStockValue(products: seq<Product>): (value: int)
    ensures products == [] ==> value == 0
  {
    if products == [] then 0
    else TotalStockValue(products[..|products| - 1])
         + products[|products| - 1].price * products[|products| - 1].quantity
  }

  /** The value of a single product is its line value. */
  lemma StockValueOfOne(p: Product)
    ensures TotalStockValue([p]) == p.price * p.quantity
  {
    assert [p][..0] == [];
  }

  /** The stock value of two lists laid end to end is the sum of their values. */
  lemma {:induction false} StockValueAdditive(a: seq<Product>, b: seq<Product>)
    ensures TotalStockValue(a + b) == TotalStockValue(a) + TotalStockValue(b)
    decreases |b|
  {
    if b == [] {
      assert a + b == a;
    } else {
      var ab := a + b;
      assert ab[..|ab| - 1] == a + b[..|b| - 1];
      assert ab[|ab| - 1] == b[|b| - 1];
      StockValueAdditive(a, b[..|b| - 1]);
    }
  }

  /** With non-negative prices and quantities the stock value is not negative. */
  lemma {:induction false} StockValueNonNegative(products: seq<Product>)
    requires forall i :: 0 <= i < |products| ==> products[i].price >= 0 && products[i].quantity >= 0
    ensures TotalStockValue(products) >= 0
  {
    if products != [] {
      StockValueNonNegative(products[..|products| - 1]);
    }
  }

  /** `product.quantity <= product.minStock`. */
  predicate BelowMinimum(p: Product)
  {
    p.quantity <= p.minStock
  }

  /** `p.quantity === 0`: only an exact zero counts, not a negative quantity. */
  predicate HasNoStock(p: Product)
  {
    p.quantity == 0
  }

  /** `lowStockCount`. */
  function LowStockCount(products: seq<Product>): (n: nat)
    ensures n <= |products|
    ensures n == 0 <==> forall i :: 0 <= i < |products| ==> products[i].quantity > products[i].minStock
  {
    FilterEmpty(products, BelowMinimum);
    |Filter(products, BelowMinimum)|
  }

  /** A single product counts once when it is at or under its minimum, and otherwise not at all. */
  lemma LowStockCountOfOne(p: Product)
    ensures LowStockCount([p]) == if p.quantity <= p.minStock then 1 else 0
  {
  }

  /**
   * Counts add over concatenation; with `LowStockCountOfOne` this pins the count
   * down as the number of products at or under their minimum, and adding
   * products never lowers it.
   */
  lemma LowStockCountAdditive(a: seq<Product>, b: seq<Product>)
    ensures LowStockCount(a + b) == LowStockCount(a) + LowStockCount(b)
  {
    FilterAppend(a, b, BelowMinimum);
  }

  /** The "Produtos sem estoque" figure. */
  function OutOfStockCount(products: seq<Product>): (n: nat)
    ensures n <= |products|
    ensures n == 0 <==> forall i :: 0 <= i < |products| ==> products[i].quantity != 0
  {
    FilterEmpty(products, HasNoStock);
    |Filter(products, HasNoStock)|
  }

  /** A single product counts once when its quantity is exactly 0, and otherwise not at all. */
  lemma OutOfStockCountOfOne(p: Product)
    ensures OutOfStockCount([p]) == if p.quantity == 0 then 1 else 0
  {
  }

  /**
   * Counts add over concatenation; with `OutOfStockCountOfOne` this pins the
   * figure down as the number of products whose quantity is exactly 0.
   */
  lemma OutOfStockCountAdditive(a: seq<Product>, b: seq<Product>)
    ensures OutOfStockCount(a + b) == OutOfStockCount(a) + OutOfStockCount(b)
  {
    FilterAppend(a, b, HasNoStock);
  }

  /** When no minimum is negative, every product without stock is also counted as low. */
  lemma OutOfStockAtMostLowStock(products: seq<Product>)
    requires forall i :: 0 <= i < |products| ==> products[i].minStock >= 0
    ensures OutOfStockCount(products) <= LowStockCount(products)
  {
    FilterLengthMonotone(products, HasNoStock, BelowMinimum);
  }

  datatype DashboardView = DashboardView(
    totalProducts: nat,
    totalStockValue: int,
    lowStockCount: nat,
    movementsToday: nat,
    registeredProducts: nat,
    activeCategories: nat,
    outOfStock: nat,
    alert: LowStockAlert.AlertView)

  /** Every figure on the dashboard, computed from one snapshot of products and categories. */
  function DashboardScreen(products: seq<Product>, categories: seq<Category>): (v: DashboardView)
    ensures v.totalProducts == v.registeredProducts == |products|
    ensures v.activeCategories == |categories|
    ensures v.movementsToday == 0
    ensures v.lowStockCount <= v.totalProducts && v.outOfStock <= v.totalProducts
    ensures (forall i :: 0 <= i < |products| ==> products[i].minStock >= 0) ==> v.outOfStock <= v.lowStockCount
    ensures v.alert.AllAdequate? <==> v.lowStockCount == 0
    ensures v.alert.Alerts? ==> v.alert.badge == v.lowStockCount
    ensures v.totalStockValue == TotalStockValue(products)
    ensures v.lowStockCount == LowStockCount(products)
    ensures v.outOfStock == OutOfStockCount(products)
    ensures v.alert == LowStockAlert.LowStockAlertView(products)
    ensures products == [] ==> v.totalStockValue == 0
  {
    var low := LowStockCount(products);
    var alert := LowStockAlert.LowStockAlertView(products);
    FilterSamePredicate(products, BelowMinimum, LowStockAlert.NeedsRestock);
    assert (forall i :: 0 <= i < |products| ==> products[i].minStock >= 0) ==> OutOfStockCount(products) <= low by {
      if forall i :: 0 <= i < |products| ==> products[i].minStock >= 0 {
        OutOfStockAtMostLowStock(products);
      }
    }
    DashboardView(|products|, TotalStockValue(products), low, 0, |products|, |categories|,
                  OutOfStockCount(products), alert)
  }
}
