/**
 * The account pool of src/user/user_manager.rs. Each method runs the
 * matching `User` method on every user in list order (the concurrent
 * `join_all` of `buy_tokens` touches disjoint users, so running the users
 * one after the other gives the same result), and is proved to follow the
 * functions of `UserManagerSpec`.
 */
module UserManagers {
  import opened Exchange
  import opened UserSpec
  import opened UserManagerSpec
  import opened Users

  class UserManager {
    var users: seq<User>

    ghost var Repr: set<object>

    /** Every user is valid, owned by the pool, and no two users share an object. */
    ghost predicate Valid()
      reads this, Repr
    {
      && this in Repr
      && (forall i :: 0 <= i < |users| ==>
            users[i] in Repr && users[i].Repr <= Repr && this !in users[i].Repr && users[i].Valid())
      && (forall i, j :: 0 <= i < |users| && 0 <= j < |users| && i != j ==> users[i].Repr !! users[j].Repr)
    }

    /** The accounts of the users, in list order. */
    ghost function States(): (r: seq<Account>)
      requires Valid()
      reads this, Repr
      ensures |r| == |users|
      ensures forall i :: 0 <= i < |users| ==> r[i] == users[i].State()
    {
      seq(|users|, i requires 0 <= i < |users| && Valid() reads this, Repr => users[i].State())
    }

    /** `new`: the pool of the users loaded at startup, in their order. */
    constructor (loaded: seq<User>)
      requires forall i :: 0 <= i < |loaded| ==> loaded[i].Valid()
      requires forall i, j :: 0 <= i < |loaded| && 0 <= j < |loaded| && i != j ==> loaded[i].Repr !! loaded[j].Repr
      ensures Valid() && users == loaded
    {
      ghost var owned := set i, o | 0 <= i < |loaded| && o in loaded[i].Repr :: o;
      forall i | 0 <= i < |loaded|
        ensures loaded[i].Repr <= owned
      {
        forall o | o in loaded[i].Repr
          ensures o in owned
        {
        }
      }
      users := loaded;
      Repr := {this} + owned;
    }

    /** `refresh_users`: `refresh` on every user in list order; `fetched[i]` answers user i's balance query. */
    method RefreshUsers(fetched: seq<BalanceAnswer>)
      requires Valid() && |fetched| == |users|
      modifies Repr
      ensures Valid() && Repr == old(Repr) && users == old(users)
      ensures States() == PoolRefresh(old(States()), fetched)
    {
      ghost var start := States();
      for i := 0 to |users|
        invariant Valid() && Repr == old(Repr) && users == old(users)
        invariant forall k :: 0 <= k < i ==> users[k].State() == AfterRefresh(start[k], fetched[k])
        invariant forall k :: i <= k < |users| ==> users[k].State() == start[k]
      {
        RefreshOne(i, fetched[i]);
      }
    }

    /** `refresh` on user i; the other users are left as they were. */
    method RefreshOne(i: nat, fetched: BalanceAnswer)
      requires Valid() && i < |users|
      modifies users[i]
      ensures Valid()
      ensures users[i].State() == AfterRefresh(old(users[i].State()), fetched)
      ensures forall k :: 0 <= k < |users| && k != i ==> users[k].State() == old(users[k].State())
    {
      users[i].Refresh(fetched);
      forall k | 0 <= k < |users| && k != i
        ensures users[k].Valid() && users[k].State() == old(users[k].State())
      {
        assert users[k].Repr !! users[i].Repr;
      }
    }

    /**
     * `buy_tokens`: every user buys the same symbol list; `answers[i]` holds
     * the exchange's answers to user i, and `requests[i]` the market orders
     * user i sent.
     */
    method BuyTokens(symbols: seq<string>, answers: seq<seq<MarketAnswer>>) returns (requests: seq<seq<MarketRequest>>)
      requires Valid() && |answers| == |users|
      requires forall i :: 0 <= i < |answers| ==> |answers[i]| == |symbols|
      modifies Repr
      ensures Valid() && fresh(Repr - old(Repr)) && users == old(users)
      ensures States() == PoolBuy(old(States()), answers)
      ensures |requests| == |users|
      ensures forall i :: 0 <= i < |users| ==>
        requests[i] == BuyRequests(old(States())[i], symbols, answers[i], BuyAmount(old(States())[i].balance, users[i].balancePerc))
    {
      ghost var start := States();
      requests := [];
      for i := 0 to |users|
        invariant Valid() && fresh(Repr - old(Repr)) && users == old(users)
        invariant forall k :: 0 <= k < i ==> users[k].State() == AfterBuyTokens(start[k], answers[k])
        invariant forall k :: i <= k < |users| ==> users[k].State() == start[k]
        invariant |requests| == i
        invariant forall k :: 0 <= k < i ==>
          requests[k] == BuyRequests(start[k], symbols, answers[k], BuyAmount(start[k].balance, users[k].balancePerc))
      {
        var sent := BuyOne(i, symbols, answers[i]);
        requests := requests + [sent];
      }
    }

    /** `buy_tokens` of user i; the other users are left as they were. */
    method BuyOne(i: nat, symbols: seq<string>, answers: seq<MarketAnswer>) returns (sent: seq<MarketRequest>)
      requires Valid() && i < |users| && |answers| == |symbols|
      modifies this, users[i]
      ensures Valid() && fresh(Repr - old(Repr)) && users == old(users)
      ensures users[i].State() == AfterBuyTokens(old(users[i].State()), answers)
      ensures sent == BuyRequests(old(users[i].State()), symbols, answers, BuyAmount(old(users[i].balance), users[i].balancePerc))
      ensures forall k :: 0 <= k < |users| && k != i ==> users[k].State() == old(users[k].State())
    {
      var user := users[i];
      ghost var owned := user.Repr;
      sent := user.BuyTokens(symbols, answers);
      Repr := Repr + (user.Repr - owned);
      forall k | 0 <= k < |users| && k != i
        ensures users[k].Valid() && users[k].State() == old(users[k].State())
        ensures users[k].Repr !! user.Repr && users[k].Repr <= Repr
      {
        assert users[k].Repr !! owned;
        assert users[k].Repr <= old(Repr);
      }
    }

    /**
     * `resolve_place_sell_order`: every user runs its sell passes, even after
     * one of them answered false; the answer is the conjunction of theirs.
     * `round[i]` holds the exchange's answers to user i's passes.
     */
    method ResolvePlaceSellOrder(symbols: seq<string>, round: seq<seq<PassOracle>>) returns (shouldContinue: bool)
      requires Valid() && |round| == |users|
      requires forall i :: 0 <= i < |round| ==> |round[i]| == |symbols|
      modifies Repr
      ensures Valid() && Repr == old(Repr) && users == old(users)
      ensures States() == PoolSell(old(States()), round)
      ensures shouldContinue == AllFinished(States())
    {
      ghost var start := States();
      shouldContinue := true;
      for i := 0 to |users|
        invariant Valid() && Repr == old(Repr) && users == old(users)
        invariant forall k :: 0 <= k < i ==> users[k].State() == AfterSellAll(start[k], round[k])
        invariant forall k :: i <= k < |users| ==> users[k].State() == start[k]
        invariant shouldContinue == forall k :: 0 <= k < i ==> Finished(users[k].State())
      {
        var finished := SellOne(i, symbols, round[i]);
        if !finished {
          shouldContinue := false;
        }
      }
    }

    /** `try_place_sell_limit` of user i; the other users are left as they were. */
    method SellOne(i: nat, symbols: seq<string>, passes: seq<PassOracle>) returns (finished: bool)
      requires Valid() && i < |users| && |passes| == |symbols|
      modifies users[i].Repr
      ensures Valid()
      ensures users[i].State() == AfterSellAll(old(users[i].State()), passes)
      ensures finished == Finished(users[i].State())
      ensures forall k :: 0 <= k < |users| && k != i ==> users[k].State() == old(users[k].State())
    {
      var sent;
      finished, sent := users[i].TryPlaceSellLimit(symbols, passes);
      forall k | 0 <= k < |users| && k != i
        ensures users[k].Valid() && users[k].State() == old(users[k].State())
      {
        assert users[k].Repr !! users[i].Repr;
      }
    }

    /**
     * `execute_arbitrage`: every user buys first; then `resolve_place_sell_order`
     * is called until it answers true. `rounds[r]` holds the exchange's
     * answers during call r; the loop here stops when they run out, with
     * `finished` false, which the source's unbounded loop would go on past.
     */
    method ExecuteArbitrage(symbols: seq<string>, answers: seq<seq<MarketAnswer>>, rounds: seq<seq<seq<PassOracle>>>)
      returns (finished: bool, roundsUsed: nat)
      requires Valid() && |answers| == |users|
      requires forall i :: 0 <= i < |answers| ==> |answers[i]| == |symbols|
      requires RoundsFit(|users|, rounds)
      requires forall r, i :: 0 <= r < |rounds| && 0 <= i < |rounds[r]| ==> |rounds[r][i]| == |symbols|
      modifies Repr
      ensures Valid() && fresh(Repr - old(Repr)) && users == old(users)
      ensures Settle(PoolBuy(old(States()), answers), rounds) == Settlement(States(), finished, roundsUsed)
    {
      var _ := BuyTokens(symbols, answers);
      ghost var bought := States();
      ghost var target := Settle(bought, rounds);
      finished := false;
      var r := 0;
      while r < |rounds| && !finished
        invariant 0 <= r <= |rounds|
        invariant Valid() && fresh(Repr - old(Repr)) && users == old(users)
        invariant RoundsFit(|users|, rounds[r..])
        invariant finished ==> target == Settlement(States(), true, r)
        invariant !finished ==> var s := Settle(States(), rounds[r..]); target == s.(roundsUsed := s.roundsUsed + r)
      {
        assert rounds[r..][0] == rounds[r] && rounds[r..][1..] == rounds[r + 1..];
        finished := ResolvePlaceSellOrder(symbols, rounds[r]);
        r := r + 1;
      }
      roundsUsed := r;
    }
  }
}
