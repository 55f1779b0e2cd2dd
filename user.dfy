/**
 * The account object of src/user/user.rs. Its fields are updated in place;
 * every method is proved to leave `State()` equal to the matching function of
 * `UserSpec`, applied to the state before the call and to the exchange's
 * answers.
 */
module Users {
  import opened Wrappers
  import opened Orders
  import opened Exchange
  import opened UserSpec

  /** No order appears twice in the list (the list owns its orders). */
  ghost predicate Distinct(os: seq<Order>)
  {
    forall i, j :: 0 <= i < j < |os| ==> os[i] != os[j]
  }

  /** The views of a list of orders. */
  function Views(os: seq<Order>): (r: seq<OrderView>)
    reads os
    ensures |r| == |os|
    ensures forall i :: 0 <= i < |os| ==> r[i] == os[i].View()
  {
    seq(|os|, i requires 0 <= i < |os| reads os => os[i].View())
  }

  /** The orders whose `alive` flag is set, in their order. */
  function LiveOrders(os: seq<Order>): (r: seq<Order>)
    reads os
    ensures forall o :: o in r ==> o in os && o.alive
    ensures forall o :: o in os && o.alive ==> o in r
  {
    if os == [] then []
    else (if os[0].alive then [os[0]] else []) + LiveOrders(os[1..])
  }

  /** The views of the kept orders are the alive views, in their order. */
  lemma {:induction false} LiveOrdersViews(os: seq<Order>)
    ensures Views(LiveOrders(os)) == AliveOrders(Views(os))
  {
    if os != [] {
      var head := if os[0].alive then [os[0]] else [];
      LiveOrdersViews(os[1..]);
      assert Views(os) == [os[0].View()] + Views(os[1..]);
      ViewsAppend(head, LiveOrders(os[1..]));
    }
  }

  lemma {:induction false} ViewsAppend(xs: seq<Order>, ys: seq<Order>)
    ensures Views(xs + ys) == Views(xs) + Views(ys)
  {
  }

  lemma {:induction false} LiveOrdersDistinct(os: seq<Order>)
    requires Distinct(os)
    ensures Distinct(LiveOrders(os))
  {
    if os != [] {
      var tail := os[1..];
      assert Distinct(tail) by {
        forall i, j | 0 <= i < j < |tail|
          ensures tail[i] != tail[j]
        {
          assert tail[i] == os[i + 1] && tail[j] == os[j + 1];
        }
      }
      LiveOrdersDistinct(tail);
      var rest := LiveOrders(tail);
      if os[0].alive {
        forall k | 0 <= k < |tail|
          ensures tail[k] != os[0]
        {
          assert tail[k] == os[k + 1];
        }
        assert os[0] !in rest;
        var r := [os[0]] + rest;
        assert LiveOrders(os) == r;
        forall i, j | 0 <= i < j < |r|
          ensures r[i] != r[j]
        {
          assert r[j] == rest[j - 1];
          if i > 0 {
            assert r[i] == rest[i - 1];
          }
        }
      } else {
        assert LiveOrders(os) == rest;
      }
    }
  }

  lemma ViewsPointwise(os: seq<Order>, vs: seq<OrderView>)
    requires |os| == |vs|
    requires forall k :: 0 <= k < |os| ==> os[k].View() == vs[k]
    ensures Views(os) == vs
  {
  }

  lemma DistinctAppend(os: seq<Order>, o: Order)
    requires Distinct(os) && o !in os
    ensures Distinct(os + [o])
  {
  }

  /**
   * One iteration of the sell loop of `try_place_one_sell_limit`, on the
   * j-th order: a failed query lowers the order's health; otherwise a limit
   * order is sent, and the order is retired when it is placed or counted in
   * `accErrors` when it is refused.
   */
  method VisitOne(orders: seq<Order>, j: nat, symbol: string, takeProfit: real, answer: PassOracle, accErrors: nat, requests: seq<LimitRequest>)
    returns (accErrors': nat, requests': seq<LimitRequest>)
    requires j < |orders| && Distinct(orders)
    requires accErrors == SellErrors(answer, j)
    requires requests == SellRequests(symbol, takeProfit, answer, j)
    modifies orders[j]
    ensures orders[j].View() == OrderAfterSell(old(orders[j].View()), answer(j))
    ensures accErrors' == SellErrors(answer, j + 1)
    ensures requests' == SellRequests(symbol, takeProfit, answer, j + 1)
    ensures forall k :: 0 <= k < |orders| && k != j ==> orders[k].View() == old(orders[k].View())
  {
    var order := orders[j];
    accErrors', requests' := accErrors, requests;
    match answer(j) {
      case QueryFailed =>
        order.LowerHealth();
      case Queried(price, quantity, placed) =>
        requests' := requests + [LimitRequest(symbol, quantity, TakeProfitPrice(price, takeProfit), Sell)];
        if placed {
          order.alive := false;
        } else {
          accErrors' := accErrors + 1;
        }
    }
    forall k | 0 <= k < |orders| && k != j
      ensures orders[k].View() == old(orders[k].View())
    {
      assert orders[k] != orders[j];
    }
  }

  /**
   * The sell loop of `try_place_one_sell_limit`: visits every order, whatever
   * its symbol or `alive` flag. `answer(j)` is what the exchange answered for
   * the j-th order; `requests` are the limit orders sent.
   */
  method VisitOrders(orders: seq<Order>, symbol: string, takeProfit: real, answer: PassOracle) returns (accErrors: nat, requests: seq<LimitRequest>)
    requires Distinct(orders)
    modifies orders
    ensures Views(orders) == OrdersAfterPass(old(Views(orders)), answer)
    ensures accErrors == SellErrors(answer, |orders|)
    ensures requests == SellRequests(symbol, takeProfit, answer, |orders|)
  {
    ghost var before := Views(orders);
    ghost var after := OrdersAfterPass(before, answer);
    accErrors := 0;
    requests := [];
    var j := 0;
    while j < |orders|
      invariant 0 <= j <= |orders|
      invariant accErrors == SellErrors(answer, j)
      invariant requests == SellRequests(symbol, takeProfit, answer, j)
      invariant forall k :: 0 <= k < j ==> orders[k].View() == after[k]
      invariant forall k :: j <= k < |orders| ==> orders[k].View() == before[k]
    {
      accErrors, requests := VisitOne(orders, j, symbol, takeProfit, answer, accErrors, requests);
      j := j + 1;
    }
    ViewsPointwise(orders, after);
  }

  class User {
    var alive: bool
    var health: int
    var balance: real
    var activeOrders: seq<Order>
    var allSold: bool
    const takeProfitPerc: real
    const balancePerc: real

    ghost var Repr: set<object>

    ghost predicate Valid()
      reads this, Repr
    {
      && this in Repr
      && (forall o :: o in activeOrders ==> o in Repr)
      && Distinct(activeOrders)
      && alive == (health > 0)
    }

    ghost function State(): Account
      reads this, activeOrders
    {
      Account(alive, health, balance, Views(activeOrders), allSold)
    }

    /**
     * A new user: the balance is the startup fetch, which must succeed;
     * both percentages are read from the same TAKE_PROFIT_PERC setting.
     */
    constructor (startBalance: real, takeProfitSetting: real)
      ensures Valid() && fresh(Repr)
      ensures State() == Account(true, InitialHealth, startBalance, [], false)
      ensures takeProfitPerc == takeProfitSetting && balancePerc == takeProfitSetting
    {
      alive := true;
      health := InitialHealth;
      balance := startBalance;
      activeOrders := [];
      allSold := false;
      takeProfitPerc := takeProfitSetting;
      balancePerc := takeProfitSetting;
      Repr := {this};
    }

    method RemoveDead()
      requires Valid()
      modifies this
      ensures Valid() && Repr == old(Repr)
      ensures State() == AfterRemoveDead(old(State()))
    {
      LiveOrdersDistinct(activeOrders);
      LiveOrdersViews(activeOrders);
      activeOrders := LiveOrders(activeOrders);
    }

    /** `refresh`; `fetched` is the exchange's answer to the balance query. */
    method Refresh(fetched: BalanceAnswer)
      requires Valid()
      modifies this
      ensures Valid() && Repr == old(Repr)
      ensures State() == AfterRefresh(old(State()), fetched)
    {
      ghost var before := State();
      match fetched {
        case Some(b) =>
          balance := b;
          assert State() == before.(balance := b);
        case None =>
          LowerHealth(1);
          assert State() == AfterLowerHealth(before, 1);
      }
      RemoveDead();
    }

    method LowerHealth(amount: int)
      modifies this
      ensures health == old(health) - amount
      ensures alive == (old(alive) && health > 0)
      ensures activeOrders == old(activeOrders) && balance == old(balance)
      ensures allSold == old(allSold) && Repr == old(Repr)
    {
      health := health - amount;
      if health <= 0 {
        alive := false;
      }
    }

    /**
     * `buy_token`; `answer` is the exchange's answer to the market order,
     * and `request` the order sent, if any.
     */
    method BuyToken(symbol: string, answer: MarketAnswer) returns (request: Option<MarketRequest>)
      requires Valid()
      modifies this
      ensures Valid() && fresh(Repr - old(Repr))
      ensures State() == AfterBuyToken(old(State()), answer)
      ensures request == if old(alive) then Some(MarketRequest(symbol, BuyAmount(balance, balancePerc), Buy)) else None
    {
      if !alive {
        return None;
      }
      request := Some(MarketRequest(symbol, BuyAmount(balance, balancePerc), Buy));
      if answer.Some? {
        ghost var before := State();
        var order := new Order.Placed(answer.value, Market, Buy);
        assert State() == before;
        DistinctAppend(activeOrders, order);
        ViewsAppend(activeOrders, [order]);
        activeOrders := activeOrders + [order];
        Repr := Repr + {order};
        assert State() == before.(orders := before.orders + [PlacedView(answer.value, Market, Buy)]);
      } else {
        LowerHealth(1);
      }
    }

    /** `buy_tokens`: one answer per symbol; `requests` are the market orders sent. */
    method BuyTokens(symbols: seq<string>, answers: seq<MarketAnswer>) returns (requests: seq<MarketRequest>)
      requires Valid() && |answers| == |symbols|
      modifies this
      ensures Valid() && fresh(Repr - old(Repr))
      ensures State() == AfterBuyTokens(old(State()), answers)
      ensures requests == BuyRequests(old(State()), symbols, answers, BuyAmount(old(balance), balancePerc))
    {
      requests := [];
      for k := 0 to |symbols|
        invariant Valid() && fresh(Repr - old(Repr))
        invariant balance == old(balance)
        invariant State() == AfterBuyTokens(old(State()), answers[..k])
        invariant requests == BuyRequests(old(State()), symbols[..k], answers[..k], BuyAmount(old(balance), balancePerc))
      {
        assert answers[..k + 1][..k] == answers[..k];
        assert symbols[..k + 1][..k] == symbols[..k];
        var request := BuyToken(symbols[k], answers[k]);
        if request.Some? {
          requests := requests + [request.value];
        }
      }
      assert answers[..|symbols|] == answers;
      assert symbols[..|symbols|] == symbols;
    }

    /**
     * `try_place_one_sell_limit`: after visiting the orders, the user loses
     * one unit of health per refused limit order, or, when none was refused,
     * sets `allSold`.
     */
    method TryPlaceOneSellLimit(symbol: string, answer: PassOracle) returns (requests: seq<LimitRequest>)
      requires Valid()
      modifies Repr
      ensures Valid() && Repr == old(Repr)
      ensures State() == AfterSellPass(old(State()), answer)
      ensures requests == SellRequests(symbol, takeProfitPerc, answer, |activeOrders|)
    {
      ghost var before := State();
      var accErrors;
      accErrors, requests := VisitOrders(activeOrders, symbol, takeProfitPerc, answer);
      assert State() == before.(orders := OrdersAfterPass(before.orders, answer));
      SettlePass(accErrors);
    }

    /** The end of `try_place_one_sell_limit`: lose health for the refused orders, or latch `allSold`. */
    method SettlePass(accErrors: nat)
      requires Valid()
      modifies this
      ensures Valid() && Repr == old(Repr)
      ensures State() == if accErrors > 0 then AfterLowerHealth(old(State()), accErrors) else old(State()).(allSold := true)
    {
      if accErrors > 0 {
        LowerHealth(accErrors);
      } else {
        allSold := true;
      }
    }

    /**
     * `try_place_sell_limit`: one pass per symbol, with no guard on `alive`
     * or `allSold`; answers whether this user is finished. `requests` are
     * the limit orders of all passes, in order.
     */
    method TryPlaceSellLimit(symbols: seq<string>, passes: seq<PassOracle>) returns (finished: bool, requests: seq<LimitRequest>)
      requires Valid() && |passes| == |symbols|
      modifies Repr
      ensures Valid() && Repr == old(Repr)
      ensures State() == AfterSellAll(old(State()), passes)
      ensures finished == Finished(State())
      ensures requests == SellAllRequests(symbols, takeProfitPerc, passes, old(|activeOrders|))
    {
      requests := [];
      for k := 0 to |symbols|
        invariant Valid() && Repr == old(Repr)
        invariant State() == AfterSellAll(old(State()), passes[..k])
        invariant |activeOrders| == old(|activeOrders|)
        invariant requests == SellAllRequests(symbols[..k], takeProfitPerc, passes[..k], old(|activeOrders|))
      {
        assert passes[..k + 1][..k] == passes[..k];
        assert symbols[..k + 1][..k] == symbols[..k];
        var sent := TryPlaceOneSellLimit(symbols[k], passes[k]);
        requests := requests + sent;
        SellAllMonotone(old(State()), passes[..k + 1]);
      }
      assert passes[..|symbols|] == passes;
      assert symbols[..|symbols|] == symbols;
      finished := allSold || !alive;
    }
  }
}
