/**
 * Orders as the bot keeps them (src/exchange/order.rs): the kind and side
 * enums with their `Display` texts, and the `Order` record with its own
 * failure budget, lowered in place by `lower_health`.
 */
module Orders {
  import opened Wrappers

  datatype OrderKind = Market | Limit

  datatype OrderSide = Buy | Sell

  /** The text `Display` writes for an order kind. */
  function KindText(k: OrderKind): (t: string)
    ensures |t| > 0
    ensures t[0] == (if k == Market then 'm' else 'l')
  {
    match k
    case Market => "market"
    case Limit => "limit"
  }

  /** The text `Display` writes for an order side. */
  function SideText(s: OrderSide): (t: string)
    ensures |t| > 0
    ensures t[0] == (if s == Buy then 'b' else 's')
  {
    match s
    case Buy => "buy"
    case Sell => "sell"
  }

  lemma KindTextInjective(a: OrderKind, b: OrderKind)
    ensures KindText(a) == KindText(b) <==> a == b
    ensures KindText(Market) == "market" && KindText(Limit) == "limit"
  {
  }

  lemma SideTextInjective(a: OrderSide, b: OrderSide)
    ensures SideText(a) == SideText(b) <==> a == b
    ensures SideText(Buy) == "buy" && SideText(Sell) == "sell"
  {
  }

  /** The value of an order's fields at one moment. */
  datatype OrderView = OrderView(
    orderId: string,
    kind: Option<OrderKind>,
    side: Option<OrderSide>,
    health: int,
    alive: bool)

  /**
   * An order as the exchange adapter returns it from `limit_order` and
   * `market_order`: health 0, alive, and the kind and side that were asked for.
   */
  function PlacedView(id: string, k: OrderKind, s: OrderSide): (v: OrderView)
    ensures v.alive && v.health == 0
    ensures v.orderId == id && v.kind == Some(k) && v.side == Some(s)
  {
    OrderView(id, Some(k), Some(s), 0, true)
  }

  /** What `lower_health` makes of an order. */
  function Lowered(v: OrderView): (r: OrderView)
    ensures r.health == v.health - 1
    ensures r.health <= 0 ==> !r.alive
    ensures r.alive <==> v.alive && r.health > 0
    ensures r.orderId == v.orderId && r.kind == v.kind && r.side == v.side
  {
    var h := v.health - 1;
    v.(health := h, alive := if h <= 0 then false else v.alive)
  }

  /** An order placed by the exchange dies at its first health loss. */
  lemma PlacedOrderDiesAtFirstLowering(id: string, k: OrderKind, s: OrderSide)
    ensures !Lowered(PlacedView(id, k, s)).alive
    ensures Lowered(PlacedView(id, k, s)).health == -1
  {
  }

  class Order {
    var orderId: string
    var kind: Option<OrderKind>
    var side: Option<OrderSide>
    var health: int
    var alive: bool

    function View(): OrderView
      reads this
    {
      OrderView(orderId, kind, side, health, alive)
    }

    /** The order the exchange adapter builds for a successful placement. */
    constructor Placed(id: string, k: OrderKind, s: OrderSide)
      ensures View() == PlacedView(id, k, s)
    {
      orderId := id;
      kind := Some(k);
      side := Some(s);
      health := 0;
      alive := true;
    }

    method LowerHealth()
      modifies this
      ensures View() == Lowered(old(View()))
    {
      health := health - 1;
      if health <= 0 {
        alive := false;
      }
    }
  }
}
