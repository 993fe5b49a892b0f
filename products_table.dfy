/**
 * The products table (`ProductsTable.tsx`): the stock-status badge of each
 * row, the comparator that orders a copy of the product list, and the
 * `sortBy`/`sortOrder` state that the column headers switch.
 */
module ProductsTable {
  import opened Inventory
  import opened Seqs

  // ---------------------------------------------------------- stock status

  datatype StatusVariant = Destructive | Warning | Success

  datatype StockStatus = StockStatus(text: string, variant: StatusVariant)

  /** `getStockStatus`: the status badge of one row. */
  function GetStockStatus(p: Product): (s: StockStatus)
    ensures s.variant == Destructive <==> p.quantity <= 0
    ensures s.variant == Warning <==> 0 < p.quantity <= p.minStock
    ensures s.variant == Success <==> 0 < p.quantity && p.minStock < p.quantity
    ensures s.text == match s.variant
                       case Destructive => "Sem estoque"
                       case Warning => "Baixo"
                       case Success => "Normal"
  {
    if p.quantity <= 0 then StockStatus("Sem estoque", Destructive)
    else if p.quantity <= p.minStock then StockStatus("Baixo", Warning)
    else StockStatus("Normal", Success)
  }

  /** The quantity cell is drawn in the destructive colour when `quantity <= minStock`. */
  function QuantityHighlighted(p: Product): (r: bool)
    ensures r ==> GetStockStatus(p).variant != Success
  {
    p.quantity <= p.minStock
  }

  /** With a non-negative minimum, the highlighted quantity cells are exactly the rows whose badge is not "Normal". */
  lemma HighlightMatchesStatus(p: Product)
    requires p.minStock >= 0
    ensures QuantityHighlighted(p) <==> GetStockStatus(p).variant != Success
  {
  }

  /** A negative minimum separates the two: the badge says "Sem estoque" while the cell is not highlighted. */
  lemma HighlightDiffersForNegativeMinimum()
    ensures var p := Product("1", "x", "x", "", 0, -1, 0, 0, "", "");
            GetStockStatus(p).text == "Sem estoque" && !QuantityHighlighted(p)
  {
  }

  // --------------------------------------------------------------- sorting

  datatype SortColumn = Name | Quantity | Price

  datatype SortOrder = Asc | Desc

  /** The value found under `a[sortBy]`: text for the name, a number otherwise. */
  datatype FieldValue = Text(text: string) | Number(number: int)

  function FieldOf(p: Product, column: SortColumn): FieldValue
  {
    match column
    case Name => Text(p.name)
    case Quantity => Number(p.quantity)
    case Price => Number(p.price)
  }

  /** The comparator passed to `sort`, with `localeCompare` supplied by the caller. */
  function Compare(a: Product, b: Product, sortBy: SortColumn, sortOrder: SortOrder,
                   localeCompare: (string, string) -> int): (r: int)
    ensures r <= 0 <==> InColumnOrder(a, b, sortBy, sortOrder, localeCompare)
  {
    match (FieldOf(a, sortBy), FieldOf(b, sortBy))
    case (Text(x), Text(y)) => if sortOrder == Asc then localeCompare(x, y) else localeCompare(y, x)
    case (Number(x), Number(y)) => if sortOrder == Asc then x - y else y - x
    case _ => 0
  }

  function Comparator(sortBy: SortColumn, sortOrder: SortOrder,
                      localeCompare: (string, string) -> int): (Product, Product) -> int
  {
    (a, b) => Compare(a, b, sortBy, sortOrder, localeCompare)
  }

  /** `localeCompare` read as a total preorder: `x` sorts no later than `y` when the result is not positive. */
  ghost predicate IsTotalPreorder(localeCompare: (string, string) -> int)
  {
    IsConsistentComparator(localeCompare)
  }

  /** `a` may be listed before `b`, judged from the sorted column alone. */
  ghost predicate InColumnOrder(a: Product, b: Product, sortBy: SortColumn, sortOrder: SortOrder,
                                localeCompare: (string, string) -> int)
  {
    match (sortBy, sortOrder)
    case (Name, Asc) => localeCompare(a.name, b.name) <= 0
    case (Name, Desc) => localeCompare(b.name, a.name) <= 0
    case (Quantity, Asc) => a.quantity <= b.quantity
    case (Quantity, Desc) => a.quantity >= b.quantity
    case (Price, Asc) => a.price <= b.price
    case (Price, Desc) => a.price >= b.price
  }

  lemma ComparatorIsConsistent(sortBy: SortColumn, sortOrder: SortOrder, localeCompare: (string, string) -> int)
    requires IsTotalPreorder(localeCompare)
    ensures IsConsistentComparator(Comparator(sortBy, sortOrder, localeCompare))
  {
    var cmp := Comparator(sortBy, sortOrder, localeCompare);
    forall x, y ensures cmp(x, y) <= 0 || cmp(y, x) <= 0 {
      if sortBy == Name {
        assert localeCompare(x.name, y.name) <= 0 || localeCompare(y.name, x.name) <= 0;
      }
    }
    forall x, y, z | cmp(x, y) <= 0 && cmp(y, z) <= 0 ensures cmp(x, z) <= 0 {
      if sortBy == Name {
        if sortOrder == Asc {
          assert localeCompare(x.name, y.name) <= 0 && localeCompare(y.name, z.name) <= 0;
        } else {
          assert localeCompare(z.name, y.name) <= 0 && localeCompare(y.name, x.name) <= 0;
        }
      }
    }
  }

  /**
   * `sortedProducts`: `[...products].sort(comparator)`. The copy is a permutation
   * of the input, ordered by the chosen column; ascending numbers do not
   * decrease, descending ones do not increase, and names follow `localeCompare`
   * or its mirror image.
   */
  function SortedProducts(products: seq<Product>, sortBy: SortColumn, sortOrder: SortOrder,
                          localeCompare: (string, string) -> int): (r: seq<Product>)
    requires IsTotalPreorder(localeCompare)
    ensures multiset(r) == multiset(products) && |r| == |products|
    ensures forall i, j :: 0 <= i < j < |r| ==> InColumnOrder(r[i], r[j], sortBy, sortOrder, localeCompare)
  {
    ComparatorIsConsistent(sortBy, sortOrder, localeCompare);
    SortWith(products, Comparator(sortBy, sortOrder, localeCompare))
  }

  /**
   * `sort` is stable: rows whose sorted column compares equal to that of any
   * `x` (the same number, or names `localeCompare` ranks alike) keep the order
   * they had in `products`.
   */
  lemma SortedProductsStable(products: seq<Product>, sortBy: SortColumn, sortOrder: SortOrder,
                             localeCompare: (string, string) -> int, x: Product)
    requires IsTotalPreorder(localeCompare)
    ensures var tied := TiedWith(Comparator(sortBy, sortOrder, localeCompare), x);
            Filter(SortedProducts(products, sortBy, sortOrder, localeCompare), tied) == Filter(products, tied)
  {
    ComparatorIsConsistent(sortBy, sortOrder, localeCompare);
    SortWithIsStable(products, Comparator(sortBy, sortOrder, localeCompare), x);
  }

  // ------------------------------------------------------------ sort state

  /** `handleSort` as a transition on (`sortBy`, `sortOrder`). */
  function NextSort(sortBy: SortColumn, sortOrder: SortOrder, column: SortColumn): (r: (SortColumn, SortOrder))
    ensures r.0 == column
    ensures sortBy == column ==> r.1 != sortOrder
    ensures sortBy != column ==> r.1 == Asc
  {
    if sortBy == column then (sortBy, if sortOrder == Asc then Desc else Asc)
    else (column, Asc)
  }

  /** Clicking the same header twice returns to where it started. */
  lemma NextSortTwiceRestores(sortBy: SortColumn, sortOrder: SortOrder)
    ensures var once := NextSort(sortBy, sortOrder, sortBy);
            NextSort(once.0, once.1, sortBy) == (sortBy, sortOrder)
  {
  }

  /** The table's React state. */
  class SortState {
    var sortBy: SortColumn
    var sortOrder: SortOrder

    constructor ()
      ensures sortBy == Name && sortOrder == Asc
    {
      sortBy := Name;
      sortOrder := Asc;
    }

    /** `handleSort(column)`. */
    method HandleSort(column: SortColumn)
      modifies this
      ensures (sortBy, sortOrder) == NextSort(old(sortBy), old(sortOrder), column)
      ensures sortBy == column
      ensures old(sortBy) == column ==> sortOrder != old(sortOrder)
      ensures old(sortBy) != column ==> sortOrder == Asc
    {
      if sortBy == column {
        sortOrder := if sortOrder == Asc then Desc else Asc;
      } else {
        sortBy := column;
        sortOrder := Asc;
      }
    }

    /** The rows in the order the table renders them. */
    function Rows(products: seq<Product>, localeCompare: (string, string) -> int): (r: seq<Product>)
      reads this
      requires IsTotalPreorder(localeCompare)
      ensures r == SortedProducts(products, sortBy, sortOrder, localeCompare)
      ensures multiset(r) == multiset(products)
      ensures forall i, j :: 0 <= i < j < |r| ==> InColumnOrder(r[i], r[j], sortBy, sortOrder, localeCompare)
    {
      SortedProducts(products, sortBy, sortOrder, localeCompare)
    }
  }
}
