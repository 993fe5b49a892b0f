/**
 * The products query (`useProducts.ts`): each API record is mapped to the
 * domain `Product`, and the response list is mapped element by element. The
 * HTTP request itself is not modelled; the decoded response is the input.
 */
module UseProducts {
  import opened Inventory
  import opened JsValues

  datatype ApiCategory = ApiCategory(id: int, name: string)

  /** A product as the API sends it (`types/api-product.ts`); money in cents. */
  datatype ApiProduct = ApiProduct(
    id: int,
    name: string,
    sku: string,
    quantity: int,
    min_stock: int,
    price: int,
    cost: int,
    category: Nullable<ApiCategory>,
    created_at: string,
    updated_at: string)

  /** `api.category?.name ?? ""`. */
  function CategoryName(category: Nullable<ApiCategory>): string
  {
    match category
    case Defined(c) => c.name
    case _ => ""
  }

  /**
   * `mapApiProduct`. The id becomes its decimal text, which `Number(...)` reads
   * back as the API id; the category becomes its name, or "" when it is absent
   * or null; the stock figures and money are copied unchanged.
   */
  function MapApiProduct(api: ApiProduct): (p: Product)
    ensures ToNumber(p.id) == Finite(api.id as real)
    ensures p.category == if api.category.Defined? then api.category.value.name else ""
    ensures p.name == api.name && p.sku == api.sku
    ensures p.quantity == api.quantity && p.minStock == api.min_stock
    ensures p.price == api.price && p.cost == api.cost
  {
    ToNumberOfIntToString(api.id);
    Product(IntToString(api.id), api.name, api.sku, CategoryName(api.category),
            api.quantity, api.min_stock, api.price, api.cost, api.created_at, api.updated_at)
  }

  /**
   * `data.map(mapApiProduct)`: same length, same order, and records with
   * distinct API ids become products with distinct ids.
   */
  function MapApiProducts(data: seq<ApiProduct>): (r: seq<Product>)
    ensures |r| == |data|
    ensures forall i :: 0 <= i < |data| ==> r[i] == MapApiProduct(data[i])
    ensures forall i, j :: 0 <= i < |data| && 0 <= j < |data| && data[i].id != data[j].id ==> r[i].id != r[j].id
  {
    if data == [] then [] else [MapApiProduct(data[0])] + MapApiProducts(data[1..])
  }
}
