/** The records that flow from the Source Feed through duplicate resolution
    and price-history folding to the browser. */
module Listing {
  import opened Wrappers

  /** The price change attached to a product (`price_change`): the price of
      the previous observation of the same fingerprint, if any, the current
      price, and the absolute and percent difference. */
  datatype Change = Change(previousPrice: Option<real>, currentPrice: real, delta: real, deltaPct: real)

  /** One product listing `{nombre, tienda, fuente, precio, link, imagen,
      descuento}`, plus the `price_change` field once history is applied.
      A missing text field is the empty string and a missing price is 0. */
  datatype Product = Product(
    nombre: string,
    tienda: string,
    fuente: string,
    precio: real,
    link: string,
    imagen: string,
    descuento: string,
    priceChange: Option<Change>)
}
