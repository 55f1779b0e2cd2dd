/**
 * The precision helpers of src/exchange/kucoin/exchange_info.rs: counting
 * the digits after the decimal point of an increment such as "0.0001", and
 * the table of precisions built from the exchange's symbol list.
 */
module ExchangeInfo {
  import opened Wrappers

  /** The precisions of one trading pair (`KucoinPrecisionInfo`). */
  datatype PrecisionInfo = PrecisionInfo(baseSigDigs: int, priceSigDigs: int)

  /** The fields of one entry of the exchange's symbol list that are used here. */
  datatype SymbolListing = SymbolListing(symbol: string, baseIncrement: string, priceIncrement: string)

  // ---------------------------------------------------------------- reference definition

  /** The position of the first '.' of s. */
  function FirstDot(s: string): (r: nat)
    requires '.' in s
    ensures r < |s| && s[r] == '.'
    ensures forall j :: 0 <= j < r ==> s[j] != '.'
  {
    if s[0] == '.' then 0 else 1 + FirstDot(s[1..])
  }

  /** The number of characters of s other than '.'. */
  function CountNonDot(s: string): (n: nat)
    ensures n <= |s|
  {
    if s == [] then 0
    else CountNonDot(s[..|s| - 1]) + (if s[|s| - 1] == '.' then 0 else 1)
  }

  /**
   * The digits after the decimal point: no '.' gives 0; otherwise every
   * character after the first '.' that is not itself a '.'.
   */
  function SigDigits(s: string): (n: nat)
    ensures '.' in s ==> n <= |s| - 1
  {
    if '.' in s then CountNonDot(s[FirstDot(s) + 1..]) else 0
  }

  // ---------------------------------------------------------------- num_sig_digits

  /** `num_sig_digits`: one pass over the characters with a "decimal seen" flag. */
  method NumSigDigits(floatStr: string) returns (n: int)
    ensures n == SigDigits(floatStr)
  {
    var isDecimalSeen := false;
    n := 0;
    for k := 0 to |floatStr|
      invariant isDecimalSeen == ('.' in floatStr[..k])
      invariant n == SigDigits(floatStr[..k])
    {
      var c := floatStr[k];
      SigDigitsAppend(floatStr[..k], c);
      assert floatStr[..k + 1] == floatStr[..k] + [c];
      if c == '.' {
        isDecimalSeen := true;
      } else if isDecimalSeen {
        n := n + 1;
      }
    }
    assert floatStr[..|floatStr|] == floatStr;
  }

  lemma {:induction false} CountNonDotAppend(s: string, t: string)
    ensures CountNonDot(s + t) == CountNonDot(s) + CountNonDot(t)
    decreases |t|
  {
    if t == [] {
      assert s + t == s;
    } else {
      var n := |t| - 1;
      assert (s + t)[..|s + t| - 1] == s + t[..n];
      CountNonDotAppend(s, t[..n]);
    }
  }

  /**
   * Appending one character: a '.' changes nothing; any other character adds
   * one digit when a '.' was already seen and none otherwise.
   */
  lemma SigDigitsAppend(s: string, c: char)
    ensures SigDigits(s + [c]) ==
      if c == '.' then SigDigits(s)
      else if '.' in s then SigDigits(s) + 1
      else 0
  {
    var t := s + [c];
    assert t[..|s|] == s;
    if '.' in s {
      var d := FirstDot(s);
      assert '.' in t by { assert t[d] == '.'; }
      FirstDotOf(t, d);
      assert t[d + 1..] == s[d + 1..] + [c];
      CountNonDotAppend(s[d + 1..], [c]);
    } else if c == '.' {
      assert t[|s|] == '.';
      FirstDotOf(t, |s|);
      assert t[|s| + 1..] == [];
    } else {
      assert '.' !in t by {
        forall j | 0 <= j < |t|
          ensures t[j] != '.'
        {
          if j < |s| {
            assert t[j] == s[j];
          }
        }
      }
    }
  }

  /** The first '.' is the one with no '.' before it. */
  lemma FirstDotOf(s: string, d: nat)
    requires d < |s| && s[d] == '.'
    requires forall j :: 0 <= j < d ==> s[j] != '.'
    ensures '.' in s && FirstDot(s) == d
  {
  }

  /** The increments the exchange publishes: "0.0001" has 4 digits, "1" none. */
  lemma SigDigitsExamples()
    ensures SigDigits("0.0001") == 4
    ensures SigDigits("1") == 0
    ensures SigDigits("0.1") == 1
  {
    FirstDotOf("0.0001", 1);
    assert "0.0001"[2..] == "0001";
    assert CountNonDot("0001") == 4 by {
      assert "0001"[..3] == "000";
      assert "000"[..2] == "00";
      assert "00"[..1] == "0";
      assert "0"[..0] == "";
    }
    assert '.' !in "1" by {
      assert "1"[0] == '1';
    }
    FirstDotOf("0.1", 1);
    assert "0.1"[2..] == "1";
    assert "1"[..0] == "";
  }

  // ---------------------------------------------------------------- symbol table

  /** The precisions of one listing, by the reference definition. */
  function PrecisionOf(l: SymbolListing): PrecisionInfo
  {
    PrecisionInfo(SigDigits(l.baseIncrement), SigDigits(l.priceIncrement))
  }

  /** `get_one_symbol_info_kc`: never fails. */
  method GetOneSymbolInfo(listing: SymbolListing) returns (r: Result<PrecisionInfo, string>)
    ensures r.Success? && r.value == PrecisionOf(listing)
  {
    var baseSigDigs := NumSigDigits(listing.baseIncrement);
    var priceSigDigs := NumSigDigits(listing.priceIncrement);
    return Success(PrecisionInfo(baseSigDigs, priceSigDigs));
  }

  /** The table after inserting the listings in order; a later entry replaces an earlier one. */
  function PrecisionMap(listings: seq<SymbolListing>): map<string, PrecisionInfo>
    decreases |listings|
  {
    if listings == [] then map[]
    else
      var n := |listings| - 1;
      PrecisionMap(listings[..n])[listings[n].symbol := PrecisionOf(listings[n])]
  }

  /**
   * The loop of `get_exchange_info_kc` that fills the table; the branch that
   * skips a listing whose precisions could not be read is never taken.
   */
  method BuildPrecisionMap(listings: seq<SymbolListing>) returns (m: map<string, PrecisionInfo>)
    ensures m == PrecisionMap(listings)
  {
    m := map[];
    for k := 0 to |listings|
      invariant m == PrecisionMap(listings[..k])
    {
      assert listings[..k + 1][..k] == listings[..k];
      var oneSymbol := GetOneSymbolInfo(listings[k]);
      if oneSymbol.Failure? {
        assert false;
      }
      m := m[listings[k].symbol := oneSymbol.value];
    }
    assert listings[..|listings|] == listings;
  }

  /** The table has a key for every listed symbol and for nothing else. */
  lemma {:induction false} PrecisionMapKeys(listings: seq<SymbolListing>)
    ensures forall name :: name in PrecisionMap(listings) <==> exists i :: 0 <= i < |listings| && listings[i].symbol == name
    decreases |listings|
  {
    if listings != [] {
      var n := |listings| - 1;
      PrecisionMapKeys(listings[..n]);
      forall name | name in PrecisionMap(listings)
        ensures exists i :: 0 <= i < |listings| && listings[i].symbol == name
      {
        if name != listings[n].symbol {
          assert name in PrecisionMap(listings[..n]);
          var i :| 0 <= i < n && listings[..n][i].symbol == name;
          assert listings[i].symbol == name;
        }
      }
      forall name | exists i :: 0 <= i < |listings| && listings[i].symbol == name
        ensures name in PrecisionMap(listings)
      {
        var i :| 0 <= i < |listings| && listings[i].symbol == name;
        if i < n {
          assert listings[..n][i].symbol == name;
        }
      }
    }
  }

  /** For a repeated symbol the table keeps the precisions of its last listing. */
  lemma {:induction false} PrecisionMapLastWins(listings: seq<SymbolListing>, i: nat)
    requires i < |listings|
    requires forall j :: i < j < |listings| ==> listings[j].symbol != listings[i].symbol
    ensures listings[i].symbol in PrecisionMap(listings)
    ensures PrecisionMap(listings)[listings[i].symbol] == PrecisionOf(listings[i])
    decreases |listings|
  {
    var n := |listings| - 1;
    if i < n {
      forall j | i < j < n
        ensures listings[..n][j].symbol != listings[..n][i].symbol
      {
        assert listings[..n][j] == listings[j];
      }
      PrecisionMapLastWins(listings[..n], i);
      assert listings[..n][i] == listings[i];
    }
  }
}
