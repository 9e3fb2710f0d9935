/**
 * The `products` table of the catalog, one record per row.
 * Prices are modelled as exact reals instead of floating-point numbers,
 * and `created_at` as an integer timestamp filled in by the database.
 */
module Models {
  import opened Wrappers

  datatype Product = Product(
    id: int,
    name: string,
    description: Option<string>,
    price: real,
    category: string,
    quantity: int,
    createdAt: int
  )
}
