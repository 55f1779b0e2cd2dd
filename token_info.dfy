/**
 * The symbol names of src/exchange/kucoin/token_info.rs: a token given on
 * the command line becomes its upper-case name and the trading pair against
 * the denomination, "BTC".
 */
module TokenInfo {
  import opened Wrappers

  /** The currency every token is traded against. */
  const Denomination: string := "BTC"

  predicate IsLower(c: char)
  {
    'a' <= c <= 'z'
  }

  /** `to_uppercase` on one character, for the ASCII letters. */
  function UpperChar(c: char): (u: char)
    ensures !IsLower(u)
    ensures !IsLower(c) ==> u == c
    ensures IsLower(c) ==> 'A' <= u <= 'Z' && u as int == c as int - 32
  {
    if IsLower(c) then (c as int - 32) as char else c
  }

  predicate NoLower(s: string)
  {
    forall i :: 0 <= i < |s| ==> !IsLower(s[i])
  }

  /** `to_uppercase` on a string, character by character. */
  function Upper(s: string): (r: string)
    ensures |r| == |s| && NoLower(r)
    ensures forall i :: 0 <= i < |s| ==> r[i] == UpperChar(s[i])
  {
    seq(|s|, i requires 0 <= i < |s| => UpperChar(s[i]))
  }

  /** A name with no lower-case letter is already upper case. */
  lemma UpperOfNoLower(s: string)
    requires NoLower(s)
    ensures Upper(s) == s
  {
  }

  lemma UpperIdempotent(s: string)
    ensures Upper(Upper(s)) == Upper(s)
  {
    UpperOfNoLower(Upper(s));
  }

  /** `prep_symbol_for_kucoin`: the upper-case name, a dash, and the denomination. */
  function PrepSymbolForKucoin(symbol: string): (r: string)
    ensures |r| == |symbol| + 4
    ensures r[..|symbol|] == Upper(symbol)
    ensures r[|symbol|..] == "-BTC"
    ensures NoLower(r)
  {
    Upper(symbol) + "-" + Denomination
  }

  /** Preparing a name that is already upper case gives the same pair. */
  lemma PrepOfUpper(symbol: string)
    ensures PrepSymbolForKucoin(Upper(symbol)) == PrepSymbolForKucoin(symbol)
  {
    UpperIdempotent(symbol);
  }

  /** Two names give the same pair exactly when they have the same upper case. */
  lemma PrepSymbolSameIff(a: string, b: string)
    ensures PrepSymbolForKucoin(a) == PrepSymbolForKucoin(b) <==> Upper(a) == Upper(b)
  {
    if PrepSymbolForKucoin(a) == PrepSymbolForKucoin(b) {
      assert |a| == |b|;
      assert Upper(a) == PrepSymbolForKucoin(a)[..|a|];
    }
  }

  /** A token the bot trades; the price is filled in later from the exchange. */
  datatype SymbolInfo = SymbolInfo(symbol: string, symbolWithPair: string, price: Option<real>)

  /**
   * `make_token_info_vec`: one entry per name, in order, with the upper-case
   * name, its pair, and no price yet.
   */
  function MakeTokenInfoVec(symbols: seq<string>): (r: seq<SymbolInfo>)
    ensures |r| == |symbols|
    ensures forall i :: 0 <= i < |symbols| ==>
      && r[i].symbol == Upper(symbols[i])
      && r[i].symbolWithPair == PrepSymbolForKucoin(symbols[i])
      && r[i].symbolWithPair == r[i].symbol + "-" + Denomination
      && NoLower(r[i].symbol)
      && r[i].price.None?
  {
    seq(|symbols|, i requires 0 <= i < |symbols| =>
      var symbol := Upper(symbols[i]);
      PrepOfUpper(symbols[i]);
      SymbolInfo(symbol, PrepSymbolForKucoin(symbol), None))
  }
}
