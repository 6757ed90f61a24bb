// Values exchanged with the order book: one price level, and one best bid/offer tick.
// The source uses `double` for both prices and quantities and only ever compares
// prices with <, > and ==, so both are modelled as mathematical reals.

module PriceLevel {

  type Price = real
  type Quantity = real

  /** One level of one side of the book (the source's `PriceQuantity`). */
  datatype PriceQuantity = PriceQuantity(price: Price, quantity: Quantity)

  /** A best bid/offer update: the new top of book on each side (the source's `BookTicker`). */
  datatype BookTicker = BookTicker(
    bestBidPrice: Price,
    bestBidQty: Quantity,
    bestAskPrice: Price,
    bestAskQty: Quantity)
  {
    function BidLevel(): PriceQuantity { PriceQuantity(bestBidPrice, bestBidQty) }
    function AskLevel(): PriceQuantity { PriceQuantity(bestAskPrice, bestAskQty) }
  }
}
