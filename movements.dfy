/**
 * The movements page (`Movements.tsx`): the search over the movement history
 * and the "Registrar Movimentação" form, whose submit validates two fields,
 * issues the create call and, when that call succeeds, resets the form.
 */
module Movements {
  import opened Inventory
  import opened JsValues
  import opened Seqs

  /** The `product` object nested in a movement as the API sends it. */
  datatype MovementProduct = MovementProduct(name: Nullable<string>)

  /** One entry of the paginated movement history. */
  datatype MovementRow = MovementRow(
    id: int,
    product: Nullable<MovementProduct>,
    movementType: StockMovementType,
    quantity: int,
    reason: string)

  /**
   * `movement.product?.name?.toLowerCase().includes(searchQuery.toLowerCase())`:
   * a missing or null product or name short-circuits to `undefined`, which the
   * filter treats as false.
   */
  predicate MatchesSearch(m: MovementRow, searchQuery: string, lower: char -> char)
  {
    m.product.Defined? && m.product.value.name.Defined? &&
    Includes(ToLowerCase(m.product.value.name.value, lower), ToLowerCase(searchQuery, lower))
  }

  /**
   * `filteredMovements`: an order-preserving subsequence of `movements` that
   * holds exactly the movements with a product name whose lowercased form
   * contains the lowercased query.
   */
  function FilteredMovements(movements: seq<MovementRow>, searchQuery: string, lower: char -> char)
    : (r: seq<MovementRow>)
    ensures IsSubsequence(r, movements)
    ensures forall m :: m in r <==>
              m in movements && m.product.Defined? && m.product.value.name.Defined? &&
              Includes(ToLowerCase(m.product.value.name.value, lower), ToLowerCase(searchQuery, lower))
  {
    Filter(movements, m => MatchesSearch(m, searchQuery, lower))
  }

  /**
   * With an empty query the list is exactly the movements that have a product
   * with a name: the nameless ones are dropped even then.
   */
  lemma EmptyQueryKeepsOnlyNamed(movements: seq<MovementRow>, lower: char -> char)
    ensures FilteredMovements(movements, "", lower)
         == Filter(movements, (m: MovementRow) => m.product.Defined? && m.product.value.name.Defined?)
  {
    forall m: MovementRow | m.product.Defined? && m.product.value.name.Defined?
      ensures MatchesSearch(m, "", lower)
    {
      assert OccursAt(ToLowerCase(m.product.value.name.value, lower), "", 0);
    }
    FilterSamePredicate(movements, m => MatchesSearch(m, "", lower),
                        (m: MovementRow) => m.product.Defined? && m.product.value.name.Defined?);
  }

  /** A movement without a product, or whose product has no name, never appears, whatever the query. */
  lemma NamelessMovementNeverShown(movements: seq<MovementRow>, searchQuery: string, lower: char -> char,
                                   m: MovementRow)
    requires m.product.Null? || m.product.Undefined? || m.product.value.name.Null? || m.product.value.name.Undefined?
    ensures m !in FilteredMovements(movements, searchQuery, lower)
  {
  }

  /** The history panel: "Carregando..." and "Nenhuma movimentação registrada ainda." are shown independently of the rows. */
  datatype Listing = Listing(loadingShown: bool, emptyShown: bool, rows: seq<MovementRow>)

  function MovementsListing(movements: seq<MovementRow>, searchQuery: string, lower: char -> char,
                            isLoading: bool): (l: Listing)
    ensures l.loadingShown <==> isLoading
    ensures l.emptyShown <==> !isLoading && l.rows == []
    ensures l.rows == FilteredMovements(movements, searchQuery, lower)
    ensures l.rows == [] <==> forall i :: 0 <= i < |movements| ==> !MatchesSearch(movements[i], searchQuery, lower)
    ensures IsSubsequence(l.rows, movements)
  {
    var rows := FilteredMovements(movements, searchQuery, lower);
    FilterEmpty(movements, m => MatchesSearch(m, searchQuery, lower));
    Listing(isLoading, !isLoading && |rows| == 0, rows)
  }

  /** The body of `createMovement(...)`. */
  datatype CreateMovementPayload = CreateMovementPayload(
    productId: JsNumber,
    movementType: StockMovementType,
    quantity: JsNumber,
    reason: string)

  /** How one submit ended: the validation toast, the success toast, or the error toast. */
  datatype SubmitOutcome =
    | FieldsMissing
    | Registered(payload: CreateMovementPayload)
    | SaveFailed(payload: CreateMovementPayload)

  /**
   * The page's React state, and a record of every create call it has issued,
   * oldest first.
   */
  class MovementsPage {
    var open: bool
    var movementType: StockMovementType
    var searchQuery: string
    var selectedProduct: string
    var quantity: string
    var reason: string
    var createRequests: seq<CreateMovementPayload>

    constructor ()
      ensures !open && movementType == Entrada
      ensures searchQuery == "" && selectedProduct == "" && quantity == "" && reason == ""
      ensures createRequests == []
    {
      open := false;
      movementType := Entrada;
      searchQuery := "";
      selectedProduct := "";
      quantity := "";
      reason := "";
      createRequests := [];
    }

    /** Picking a product in the select stores `String(product.id)`, which is the id text itself. */
    method SelectProduct(product: Product)
      modifies this
      ensures selectedProduct == product.id
      ensures open == old(open) && movementType == old(movementType) && searchQuery == old(searchQuery)
      ensures quantity == old(quantity) && reason == old(reason) && createRequests == old(createRequests)
    {
      selectedProduct := product.id;
    }

    /**
     * `handleSubmit`. `createSucceeds` is whether the awaited create call
     * resolves. An empty product or quantity field stops the submit before any
     * call; anything else, "0" and "-5" included, is sent with both fields run
     * through `Number(...)`. Only a successful call closes the dialog and clears
     * the three fields; a failed one leaves the form as it was.
     */
    method HandleSubmit(createSucceeds: bool) returns (outcome: SubmitOutcome)
      modifies this
      ensures outcome.FieldsMissing? <==> old(selectedProduct) == "" || old(quantity) == ""
      ensures outcome.FieldsMissing? ==>
                open == old(open) && selectedProduct == old(selectedProduct) && quantity == old(quantity) &&
                reason == old(reason) && createRequests == old(createRequests)
      ensures !outcome.FieldsMissing? ==>
                outcome.payload == CreateMovementPayload(ToNumber(old(selectedProduct)), old(movementType),
                                                         ToNumber(old(quantity)), old(reason)) &&
                createRequests == old(createRequests) + [outcome.payload]
      ensures outcome.Registered? <==> !outcome.FieldsMissing? && createSucceeds
      ensures outcome.Registered? ==> !open && quantity == "" && reason == "" && selectedProduct == ""
      ensures outcome.SaveFailed? ==>
                open == old(open) && selectedProduct == old(selectedProduct) && quantity == old(quantity) &&
                reason == old(reason)
      ensures movementType == old(movementType) && searchQuery == old(searchQuery)
    {
      if selectedProduct == "" || quantity == "" {
        return FieldsMissing;
      }
      var payload := CreateMovementPayload(ToNumber(selectedProduct), movementType, ToNumber(quantity), reason);
      createRequests := createRequests + [payload];
      if !createSucceeds {
        return SaveFailed(payload);
      }
      open := false;
      quantity := "";
      reason := "";
      selectedProduct := "";
      return Registered(payload);
    }
  }

  /**
   * The guard tests only for empty text: a zero or negative quantity typed
   * into the field reaches the payload as that number.
   */
  lemma GuardLetsNonPositiveQuantitiesThrough()
    ensures ToNumber("0") == Finite(0.0)
    ensures ToNumber("-5") == Finite(-5.0)
  {
    ToNumberOfIntToString(0);
    ToNumberOfIntToString(-5);
  }
}
