/**
 * The exchange adapter as the account sees it: only whether each call
 * succeeded and what it returned. The answers are supplied by the caller of
 * the model (an oracle); the requests the account sends are recorded so that
 * their arguments can be stated.
 */
module Exchange {
  import opened Wrappers
  import opened Orders

  /** A `market_order(symbol, amount, side)` call. */
  datatype MarketRequest = MarketRequest(symbol: string, amount: real, side: OrderSide)

  /** A `limit_order(symbol, quantity, price, side)` call. */
  datatype LimitRequest = LimitRequest(symbol: string, quantity: real, price: real, side: OrderSide)

  /**
   * The funds of every market buy: the balance times the balance fraction,
   * whatever the number of symbols in the batch.
   */
  function BuyAmount(balance: real, balancePerc: real): real
  {
    balance * balancePerc
  }

  /** The price of a take-profit sell: the queried price marked up by the take-profit fraction. */
  function TakeProfitPrice(price: real, takeProfitPerc: real): real
  {
    price + price * takeProfitPerc
  }

  /** The answer to `market_order`: the new order's id, or an error. */
  type MarketAnswer = Option<string>

  /**
   * What the exchange answered for one order visited by a sell pass:
   * either `get_price_and_quantity_of_order` failed, or it returned a price
   * and a quantity and `limit_order` was then called, which succeeded or not.
   */
  datatype SellAnswer = QueryFailed | Queried(price: real, quantity: real, placed: bool)

  /** The answers for one sell pass, by position of the order in the list. */
  type PassOracle = nat -> SellAnswer

  /** The answer to `get_balance`: the balance, or an error. */
  type BalanceAnswer = Option<real>
}
