/**
 * The domain records the screens read (`src/types/inventory.ts`). Money is held
 * in integer cents; quantities are integers, and nothing here forces them to be
 * non-negative because the screens themselves test for `quantity <= 0`.
 */
module Inventory {
  import opened JsValues

  /** A product after mapping from the API; the two dates keep the API's timestamp text. */
  datatype Product = Product(
    id: string,
    name: string,
    sku: string,
    category: string,
    quantity: int,
    minStock: int,
    price: int,
    cost: int,
    createdAt: string,
    updatedAt: string)

  datatype Category = Category(id: string, name: string, color: Nullable<string>, productCount: Nullable<int>)

  /** `entrada` adds stock, `saida` removes it. */
  datatype StockMovementType = Entrada | Saida
}
