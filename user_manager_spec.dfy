/**
 * The account pool of src/user/user_manager.rs, stated on values: what each
 * operation of `UserManager` makes of the accounts, given what the exchange
 * answered to each of them. The class `UserManagers.UserManager` is proved
 * to follow these functions.
 */
module UserManagerSpec {
  import opened Exchange
  import opened UserSpec

  /** What `resolve_place_sell_order` answers: every account is finished. */
  predicate AllFinished(accs: seq<Account>)
  {
    forall i :: 0 <= i < |accs| ==> Finished(accs[i])
  }

  predicate AllConsistent(accs: seq<Account>)
  {
    forall i :: 0 <= i < |accs| ==> HealthConsistent(accs[i])
  }

  /** `refresh_users`: `refresh` on every account, each with its own balance answer. */
  function PoolRefresh(accs: seq<Account>, fetched: seq<BalanceAnswer>): seq<Account>
    requires |fetched| == |accs|
  {
    seq(|accs|, i requires 0 <= i < |accs| => AfterRefresh(accs[i], fetched[i]))
  }

  /** `buy_tokens`: every account buys the whole symbol list, with its own answers. */
  function PoolBuy(accs: seq<Account>, answers: seq<seq<MarketAnswer>>): seq<Account>
    requires |answers| == |accs|
  {
    seq(|accs|, i requires 0 <= i < |accs| => AfterBuyTokens(accs[i], answers[i]))
  }

  /** One call of `resolve_place_sell_order`: every account runs its sell passes. */
  function PoolSell(accs: seq<Account>, round: seq<seq<PassOracle>>): seq<Account>
    requires |round| == |accs|
  {
    seq(|accs|, i requires 0 <= i < |accs| => AfterSellAll(accs[i], round[i]))
  }

  /** Every round holds one list of sell passes per account. */
  predicate RoundsFit(n: nat, rounds: seq<seq<seq<PassOracle>>>)
  {
    forall r :: 0 <= r < |rounds| ==> |rounds[r]| == n
  }

  /**
   * The outcome of the retry loop of `execute_arbitrage` given the answers of
   * its first |rounds| calls of `resolve_place_sell_order`: the accounts, whether
   * the loop has ended, and how many calls were made.
   */
  datatype Settlement = Settlement(accounts: seq<Account>, finished: bool, roundsUsed: nat)

  function Settle(accs: seq<Account>, rounds: seq<seq<seq<PassOracle>>>): Settlement
    requires RoundsFit(|accs|, rounds)
    decreases |rounds|
  {
    if rounds == [] then Settlement(accs, false, 0)
    else
      var next := PoolSell(accs, rounds[0]);
      if AllFinished(next) then Settlement(next, true, 1)
      else
        var s := Settle(next, rounds[1..]);
        s.(roundsUsed := s.roundsUsed + 1)
  }

  /** Dropping the first round keeps every round fitting the pool. */
  lemma RoundsFitTail(n: nat, rounds: seq<seq<seq<PassOracle>>>)
    requires RoundsFit(n, rounds) && rounds != []
    ensures RoundsFit(n, rounds[1..])
  {
    forall r | 0 <= r < |rounds[1..]|
      ensures |rounds[1..][r]| == n
    {
      assert rounds[1..][r] == rounds[r + 1];
    }
  }

  /** The accounts after the first k calls of `resolve_place_sell_order`. */
  function PoolAfter(accs: seq<Account>, rounds: seq<seq<seq<PassOracle>>>, k: nat): (r: seq<Account>)
    requires RoundsFit(|accs|, rounds) && k <= |rounds|
    ensures |r| == |accs|
    decreases k
  {
    if k == 0 then accs
    else
      RoundsFitTail(|accs|, rounds);
      PoolAfter(PoolSell(accs, rounds[0]), rounds[1..], k - 1)
  }

  /**
   * The loop stops at the first call that finds every account finished: the
   * accounts are those after the calls made; no earlier call found every
   * account finished; the loop has ended exactly when the last call made did;
   * and when it has not ended, every given call was made.
   */
  lemma {:induction false} SettleStopsAtFirstSuccess(accs: seq<Account>, rounds: seq<seq<seq<PassOracle>>>)
    requires RoundsFit(|accs|, rounds)
    ensures var s := Settle(accs, rounds);
      && s.roundsUsed <= |rounds|
      && s.accounts == PoolAfter(accs, rounds, s.roundsUsed)
      && (forall k :: 1 <= k < s.roundsUsed ==> !AllFinished(PoolAfter(accs, rounds, k)))
      && (s.finished <==> 1 <= s.roundsUsed && AllFinished(s.accounts))
      && (!s.finished ==> s.roundsUsed == |rounds|)
    decreases |rounds|
  {
    if rounds != [] {
      var next := PoolSell(accs, rounds[0]);
      RoundsFitTail(|accs|, rounds);
      assert PoolAfter(accs, rounds, 1) == next;
      if !AllFinished(next) {
        SettleStopsAtFirstSuccess(next, rounds[1..]);
        var t := Settle(next, rounds[1..]);
        assert PoolAfter(accs, rounds, t.roundsUsed + 1) == PoolAfter(next, rounds[1..], t.roundsUsed);
        forall k | 1 <= k < t.roundsUsed + 1
          ensures !AllFinished(PoolAfter(accs, rounds, k))
        {
          if k > 1 {
            assert PoolAfter(accs, rounds, k) == PoolAfter(next, rounds[1..], k - 1);
          }
        }
      }
    }
  }

  /** Refreshing keeps the health invariant and leaves only live orders. */
  lemma PoolRefreshKeepsConsistent(accs: seq<Account>, fetched: seq<BalanceAnswer>)
    requires |fetched| == |accs| && AllConsistent(accs)
    ensures AllConsistent(PoolRefresh(accs, fetched))
    ensures forall i, o :: 0 <= i < |accs| && o in PoolRefresh(accs, fetched)[i].orders ==> o.alive
  {
    forall i | 0 <= i < |accs|
      ensures HealthConsistent(PoolRefresh(accs, fetched)[i])
    {
      RefreshKeepsConsistent(accs[i], fetched[i]);
    }
  }

  /**
   * Each account's buys depend on that account and its own answers only:
   * two pools that agree on account i and on its answers agree on it after.
   */
  lemma PoolBuyIsolated(accs: seq<Account>, answers: seq<seq<MarketAnswer>>,
                        accs': seq<Account>, answers': seq<seq<MarketAnswer>>, i: nat)
    requires |answers| == |accs| && |answers'| == |accs'|
    requires i < |accs| && i < |accs'| && accs[i] == accs'[i] && answers[i] == answers'[i]
    ensures PoolBuy(accs, answers)[i] == PoolBuy(accs', answers')[i]
  {
  }

  lemma PoolBuyKeepsConsistent(accs: seq<Account>, answers: seq<seq<MarketAnswer>>)
    requires |answers| == |accs| && AllConsistent(accs)
    ensures AllConsistent(PoolBuy(accs, answers))
  {
    forall i | 0 <= i < |accs|
      ensures HealthConsistent(PoolBuy(accs, answers)[i])
    {
      BuyTokensKeepsConsistent(accs[i], answers[i]);
    }
  }

  lemma PoolSellKeepsConsistent(accs: seq<Account>, round: seq<seq<PassOracle>>)
    requires |round| == |accs| && AllConsistent(accs)
    ensures AllConsistent(PoolSell(accs, round))
  {
    forall i | 0 <= i < |accs|
      ensures HealthConsistent(PoolSell(accs, round)[i])
    {
      SellAllMonotone(accs[i], round[i]);
    }
  }

  /** The retry loop keeps the health invariant of every account. */
  lemma {:induction false} SettleKeepsConsistent(accs: seq<Account>, rounds: seq<seq<seq<PassOracle>>>)
    requires RoundsFit(|accs|, rounds) && AllConsistent(accs)
    ensures AllConsistent(Settle(accs, rounds).accounts)
    decreases |rounds|
  {
    if rounds != [] {
      var next := PoolSell(accs, rounds[0]);
      PoolSellKeepsConsistent(accs, rounds[0]);
      if !AllFinished(next) {
        RoundsFitTail(|accs|, rounds);
        SettleKeepsConsistent(next, rounds[1..]);
      }
    }
  }

  /** A finished account stays finished: the latch is kept and the dead stay dead. */
  lemma FinishedStaysFinished(a: Account, passes: seq<PassOracle>)
    requires Finished(a)
    ensures Finished(AfterSellAll(a, passes))
  {
    SellAllMonotone(a, passes);
  }

  /** With no users the first call answers true, so the loop ends right after the buys. */
  lemma EmptyPoolSettlesAtOnce(rounds: seq<seq<seq<PassOracle>>>)
    requires RoundsFit(0, rounds) && |rounds| > 0
    ensures Settle([], rounds) == Settlement([], true, 1)
  {
    assert PoolSell([], rounds[0]) == [];
  }

  /** A pool whose users are all dead ends the loop at the first call. */
  lemma DeadPoolSettlesAtOnce(accs: seq<Account>, rounds: seq<seq<seq<PassOracle>>>)
    requires RoundsFit(|accs|, rounds) && |rounds| > 0
    requires forall i :: 0 <= i < |accs| ==> !accs[i].alive
    ensures Settle(accs, rounds).finished && Settle(accs, rounds).roundsUsed == 1
  {
    var next := PoolSell(accs, rounds[0]);
    forall i | 0 <= i < |accs|
      ensures Finished(next[i])
    {
      DeadAccountFinished(accs[i], rounds[0][i]);
    }
  }

  /**
   * A call in which one user's pass meets no refused limit order finishes
   * that user; the other users may still hold the loop back.
   */
  lemma CleanPassFinishesUser(accs: seq<Account>, round: seq<seq<PassOracle>>, i: nat, k: nat)
    requires |round| == |accs| && i < |accs| && k < |round[i]|
    requires forall j :: 0 <= j < |accs[i].orders| ==> !PlacementFailed(round[i][k](j))
    ensures Finished(PoolSell(accs, round)[i])
  {
    CleanPassFinishes(accs[i], round[i], k);
  }

  /**
   * With no symbols a sell pass does nothing, so a live account whose latch
   * is unset stays unfinished and the loop never ends, however many calls.
   */
  lemma {:induction false} NoSymbolsNeverSettle(accs: seq<Account>, rounds: seq<seq<seq<PassOracle>>>, i: nat)
    requires RoundsFit(|accs|, rounds)
    requires i < |accs| && accs[i].alive && !accs[i].allSold
    requires forall r, u :: 0 <= r < |rounds| && 0 <= u < |rounds[r]| ==> rounds[r][u] == []
    ensures !Settle(accs, rounds).finished
    decreases |rounds|
  {
    if rounds != [] {
      var next := PoolSell(accs, rounds[0]);
      assert next[i] == accs[i];
      RoundsFitTail(|accs|, rounds);
      forall r, u | 0 <= r < |rounds[1..]| && 0 <= u < |rounds[1..][r]|
        ensures rounds[1..][r][u] == []
      {
        assert rounds[1..][r] == rounds[r + 1];
      }
      NoSymbolsNeverSettle(next, rounds[1..], i);
    }
  }
}
