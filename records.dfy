/** The records the recommendation engine reads and the failures it reports. */
module Records {

  datatype Option<T> = None | Some(value: T)

  /** The ways a recommendation request can fail. */
  datatype Error =
    | NoFavourites      // the profile text is empty: the request is rejected
    | DivisionByZero    // both texts compared are non-empty but hold no token
    | MissingProductId  // a recommended record has no products_id field

  datatype Result<T> = Success(value: T) | Failure(error: Error)

  /** A product record as the catalog and favourites endpoints deliver it.
      A text or fav field that is absent from the record, or JSON null, is None: the code
      treats the two alike. The id keeps them apart, since only an absent key is an error:
      None is an absent key, Some(None) a JSON null, Some(Some(n)) the id n. */
  datatype Product = Product(
    productId: Option<Option<int>>, // products_id
    category: Option<string>,     // catogeries_name_ar
    description: Option<string>,  // product_desc_ar
    fav: Option<int>)             // fav

  /** A product together with the similarity score computed for it. */
  datatype Scored = Scored(product: Product, similarity: real)

  /** The value of an optional text field, with "" for a missing one. */
  function OrEmpty(o: Option<string>): string {
    match o
    case Some(s) => s
    case None => ""
  }
}
