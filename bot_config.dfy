/** The bot's configuration constants, and the two configured currencies. */
module BotConfig {
  import opened Text

  const INITIAL_PRICE: real := 3000.0
  /** Prices never fall below this through the automatic walk. */
  const MINIMUM_PRICE: real := 1000.0
  /** Upper clamp of the automatic walk (a literal in the price manager). */
  const MAXIMUM_PRICE: real := 1000000.0
  const INITIAL_BALANCE: real := 0.0

  const INCREASE_MIN_PERCENT: real := 0.001
  const DECREASE_MIN_PERCENT: real := 0.001
  /** The upper bound the walk actually draws from (a literal 0.10 in the code). */
  const MAX_MOVE_PERCENT: real := 0.10
  /** Bounds of the "stability" move. */
  const STABLE_MIN_PERCENT: real := 0.001
  const STABLE_MAX_PERCENT: real := 0.005

  const CURRENCIES: seq<string> := ["buxcoin", "bitcoin"]

  /** Smallest amount of coin that can be bought or sold. */
  const MIN_TRADE_AMOUNT: real := 0.0001

  /** At most this many history entries are kept per currency after a tick. */
  const HISTORY_LIMIT: nat := 100
  /** At most this many transactions are kept per wallet. */
  const TRANSACTION_LIMIT: nat := 50

  /** The two coins a wallet holds. */
  datatype Coin = Buxcoin | Bitcoin

  function CoinName(c: Coin): string {
    match c
    case Buxcoin => "buxcoin"
    case Bitcoin => "bitcoin"
  }

  /** `currency.lower()` checked against `['buxcoin', 'bitcoin']`. */
  function ParseCoin(s: string): (r: Option<Coin>)
    ensures r.Some? <==> Lower(s) in CURRENCIES
    ensures r.Some? ==> CoinName(r.value) == Lower(s)
  {
    var l := Lower(s);
    if l == "buxcoin" then Some(Buxcoin)
    else if l == "bitcoin" then Some(Bitcoin)
    else None
  }

  datatype Option<T> = None | Some(value: T)

  /** The configured currencies are two distinct names, each lower case. */
  lemma CurrenciesDistinct()
    ensures |CURRENCIES| == 2 && CURRENCIES[0] != CURRENCIES[1]
    ensures forall i :: 0 <= i < |CURRENCIES| ==> IsLower(CURRENCIES[i])
  {
    assert CURRENCIES[0][1] != CURRENCIES[1][1];
  }

  /** Every coin's name parses back to that coin, whatever its case. */
  lemma {:induction false} ParseCoinName(c: Coin)
    ensures ParseCoin(CoinName(c)) == Some(c)
  {
    CurrenciesDistinct();
    LowerOfLower(CoinName(c));
  }

  /** Parsing a currency name ignores its case. */
  lemma {:induction false} ParseCoinIgnoresCase(s: string)
    ensures ParseCoin(Lower(s)) == ParseCoin(s)
  {
    LowerIdempotent(s);
  }
}
