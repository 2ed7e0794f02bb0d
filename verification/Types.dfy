/** Limits, sides, orders and the message records exchanged between the components. */
module MarketTypes {
  const MAX_TICKERS: nat := 8
  const MAX_CLIENTS: nat := 256
  const MAX_ORDER_IDS: nat := 1024 * 1024
  const MAX_PRICE_LEVELS: nat := 256

  /** The all-ones values: of the 64-bit ids, prices and priorities, and of the 32-bit quantities and tickers. */
  const INVALID_64: nat := 0xFFFF_FFFF_FFFF_FFFF
  const INVALID_QTY: nat := 0xFFFF_FFFF
  const INVALID_TICKER: nat := 0xFFFF_FFFF
  const QTY_MODULUS: nat := 0x1_0000_0000

  datatype Option<+T> = None | Some(value: T)

  datatype Side = BUY | SELL | NO_SIDE

  /** What an order goes by: at the exchange its client's own id, in anonymous market data its market order id. */
  datatype Owner = Client(client: nat, orderId: nat) | Public(marketId: nat)

  /** A resting order; `id` is the market order id. */
  datatype Order = Order(id: nat, owner: Owner, side: Side, price: nat, qty: nat, priority: nat)

  datatype UpdateKind = ADD | MODIFY | CANCEL | TRADE | CLEAR | SNAPSHOT_START | SNAPSHOT_END | INVALID

  datatype MarketUpdate = MarketUpdate(
    kind: UpdateKind, orderId: nat, ticker: nat, side: Side, price: nat, qty: nat, priority: nat)

  datatype ResponseKind = ACCEPTED | CANCELLED | FILLED | CANCEL_REJECTED

  datatype Response = Response(
    kind: ResponseKind, client: nat, ticker: nat, clientOrderId: nat, marketOrderId: nat,
    side: Side, price: nat, execQty: nat, leftQty: nat)

  function Opposite(side: Side): Side {
    match side
    case BUY => SELL
    case SELL => BUY
    case NO_SIDE => NO_SIDE
  }

  /** A price that goes strictly before `q` on this side: higher for bids, lower for asks. */
  predicate Better(side: Side, p: nat, q: nat) {
    if side == BUY then p > q else p < q
  }

  /** Whether an order of this side and limit may trade at the opposite price `p`. */
  predicate Crosses(side: Side, limit: nat, p: nat) {
    if side == BUY then limit >= p else limit <= p
  }

  function Min(a: nat, b: nat): nat {
    if a < b then a else b
  }
}
