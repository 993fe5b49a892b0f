/**
 * The products page (`Products.tsx`): the name/SKU search over the product
 * list, the "Mostrando N produtos" caption, and the confirmed delete.
 */
module Products {
  import opened Inventory
  import opened JsValues
  import opened Seqs

  /** Lowercased name or lowercased SKU contains the lowercased query. */
  predicate MatchesSearch(p: Product, searchQuery: string, lower: char -> char)
  {
    var query := ToLowerCase(searchQuery, lower);
    Includes(ToLowerCase(p.name, lower), query) || Includes(ToLowerCase(p.sku, lower), query)
  }

  /**
   * `filteredProducts`: an order-preserving subsequence of `products` holding
   * exactly the products whose lowercased name or SKU contains the lowercased
   * query (`Includes` is the substring test, specified by an occurrence). The
   * selected category is a parameter only to show that it plays no part.
   */
  function FilteredProducts(products: seq<Product>, searchQuery: string, selectedCategory: string,
                            lower: char -> char): (r: seq<Product>)
    ensures IsSubsequence(r, products)
    ensures forall p :: p in r <==>
              p in products &&
              (Includes(ToLowerCase(p.name, lower), ToLowerCase(searchQuery, lower)) ||
               Includes(ToLowerCase(p.sku, lower), ToLowerCase(searchQuery, lower)))
  {
    Filter(products, p => MatchesSearch(p, searchQuery, lower))
  }

  /** The empty query keeps every product, in order. */
  lemma EmptyQueryKeepsAll(products: seq<Product>, selectedCategory: string, lower: char -> char)
    ensures FilteredProducts(products, "", selectedCategory, lower) == products
  {
    forall i | 0 <= i < |products| ensures MatchesSearch(products[i], "", lower) {
      assert OccursAt(ToLowerCase(products[i].name, lower), "", 0);
    }
    FilterKeepsAll(products, p => MatchesSearch(p, "", lower));
  }

  /** Changing the category select leaves the list unchanged. */
  lemma CategoryPlaysNoPart(products: seq<Product>, searchQuery: string, c1: string, c2: string,
                            lower: char -> char)
    ensures FilteredProducts(products, searchQuery, c1, lower) == FilteredProducts(products, searchQuery, c2, lower)
  {
  }

  datatype Caption = LoadingProducts | Showing(count: nat)

  /** "Carregando produtos..." while loading, otherwise "Mostrando N produtos". */
  function ProductsCaption(products: seq<Product>, searchQuery: string, selectedCategory: string,
                           lower: char -> char, isLoading: bool): (c: Caption)
    ensures c.LoadingProducts? <==> isLoading
    ensures c.Showing? ==> c.count == |FilteredProducts(products, searchQuery, selectedCategory, lower)| <= |products|
    ensures c.Showing? && searchQuery == "" ==> c.count == |products|
  {
    EmptyQueryKeepsAll(products, selectedCategory, lower);
    if isLoading then LoadingProducts
    else Showing(|FilteredProducts(products, searchQuery, selectedCategory, lower)|)
  }

  /**
   * The page's React state, and a record of every delete mutation it has
   * issued (`deleteProduct.mutate`), oldest first.
   */
  class ProductsPage {
    var searchQuery: string
    var selectedCategory: string
    var deleteRequests: seq<JsNumber>

    constructor ()
      ensures searchQuery == "" && selectedCategory == "all" && deleteRequests == []
    {
      searchQuery := "";
      selectedCategory := "all";
      deleteRequests := [];
    }

    /**
     * `handleDelete`: `confirmed` is the user's answer to `confirm(...)`. A
     * delete carrying `Number(product.id)` is issued only on a yes.
     */
    method HandleDelete(product: Product, confirmed: bool)
      modifies this
      ensures confirmed ==> deleteRequests == old(deleteRequests) + [ToNumber(product.id)]
      ensures !confirmed ==> deleteRequests == old(deleteRequests)
      ensures searchQuery == old(searchQuery) && selectedCategory == old(selectedCategory)
    {
      if !confirmed {
        return;
      }
      deleteRequests := deleteRequests + [ToNumber(product.id)];
    }

    /** The rows handed to the table: the search result for the page's current query. */
    function Rows(products: seq<Product>, lower: char -> char): (r: seq<Product>)
      reads this
      ensures r == FilteredProducts(products, searchQuery, selectedCategory, lower)
      ensures IsSubsequence(r, products)
      ensures searchQuery == "" ==> r == products
    {
      EmptyQueryKeepsAll(products, selectedCategory, lower);
      FilteredProducts(products, searchQuery, selectedCategory, lower)
    }
  }
}
