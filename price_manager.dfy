/** Current prices, per-currency price history, and the random-walk tick. */
module Prices {
  import opened Text
  import opened Retention
  import opened BotConfig

  /** One history record; `manual` and `reset` are false where the document
      leaves the flag out. */
  datatype HistoryEntry = HistoryEntry(price: real, timestamp: string, change: real, manual: bool, reset: bool)

  /** The random draws one tick makes for one currency: `r` from
      `random.random()`, `p` from `random.uniform(...)` and `up` from
      `random.choice([True, False])`. */
  datatype Draw = Draw(r: real, p: real, up: bool)

  /** The ranges the random sources draw from. */
  predicate ValidDraw(d: Draw) {
    && 0.0 <= d.r < 1.0
    && (d.r < 0.35 ==> INCREASE_MIN_PERCENT <= d.p <= MAX_MOVE_PERCENT)
    && (0.35 <= d.r < 0.72 ==> DECREASE_MIN_PERCENT <= d.p <= MAX_MOVE_PERCENT)
    && (0.72 <= d.r ==> STABLE_MIN_PERCENT <= d.p <= STABLE_MAX_PERCENT)
  }

  /** The outcome of one tick for one currency: the clamped new price and
      the recorded change. */
  datatype Move = Move(price: real, change: real)

  /** `min(1000000.0, max(MINIMUM_PRICE, x))` */
  function Clamp(x: real): (r: real)
    ensures MINIMUM_PRICE <= r <= MAXIMUM_PRICE
    ensures MINIMUM_PRICE <= x <= MAXIMUM_PRICE ==> r == x
    ensures x < MINIMUM_PRICE ==> r == MINIMUM_PRICE
    ensures x > MAXIMUM_PRICE ==> r == MAXIMUM_PRICE
  {
    var lifted := if MINIMUM_PRICE > x then MINIMUM_PRICE else x;
    if lifted > MAXIMUM_PRICE then MAXIMUM_PRICE else lifted
  }

  /** The signed change a draw gives before clamping: up with probability
      0.35, down with probability 0.37, otherwise a small move whose sign is
      a coin flip. */
  function RawChange(prev: real, d: Draw): real {
    if d.r < 0.35 then prev * d.p
    else if d.r < 0.72 then -(prev * d.p)
    else if d.up then prev * d.p
    else -(prev * d.p)
  }

  /** The price update rule for one currency. The recorded change is the
      value before clamping. */
  function Fluctuate(prev: real, d: Draw): (m: Move)
    ensures MINIMUM_PRICE <= m.price <= MAXIMUM_PRICE
    ensures m.change == RawChange(prev, d)
    ensures m.price == Clamp(prev + m.change)
  {
    var change := RawChange(prev, d);
    Move(Clamp(prev + change), change)
  }

  function Abs(x: real): real {
    if x < 0.0 then -x else x
  }

  lemma MulBounds(x: real, lo: real, p: real, hi: real)
    requires x > 0.0 && 0.0 < lo <= p <= hi
    ensures 0.0 < x * lo <= x * p <= x * hi
  {
  }

  /** The direction of each branch of the walk. */
  lemma FluctuateBranches(prev: real, d: Draw)
    ensures var c := Fluctuate(prev, d).change;
      && (d.r < 0.35 ==> c == prev * d.p)
      && (0.35 <= d.r < 0.72 ==> c == -(prev * d.p))
      && (0.72 <= d.r ==> c == if d.up then prev * d.p else -(prev * d.p))
  {
  }

  /** The size of a move: between 0.1% and 10% of the old price in the up
      and down branches, between 0.1% and 0.5% in the stability branch. */
  lemma RawChangeSize(prev: real, d: Draw)
    requires prev > 0.0 && ValidDraw(d)
    ensures var size := Abs(RawChange(prev, d));
      && size == prev * d.p
      && prev * 0.001 <= size
      && size <= prev * (if d.r < 0.72 then 0.10 else 0.005)
  {
    SignedMoveBounds(prev, d.p, if d.r < 0.72 then 0.10 else 0.005, RawChange(prev, d));
  }

  /** Which way a tick moves the price: the first branch always rises, the
      second always falls, the stability branch follows the coin flip, and
      the change is never zero. A price inside the clamp range then never
      falls on a rise and never rises on a fall. */
  lemma {:induction false} RawChangeSign(prev: real, d: Draw)
    requires prev > 0.0 && ValidDraw(d)
    ensures var c := RawChange(prev, d);
      && (d.r < 0.35 ==> c > 0.0)
      && (0.35 <= d.r < 0.72 ==> c < 0.0)
      && (0.72 <= d.r ==> (c > 0.0 <==> d.up))
      && c != 0.0
    ensures MINIMUM_PRICE <= prev <= MAXIMUM_PRICE ==>
      var m := Fluctuate(prev, d);
      && (m.change > 0.0 ==> m.price >= prev)
      && (m.change < 0.0 ==> m.price <= prev)
  {
    RawChangeSize(prev, d);
  }

  lemma SignedMoveBounds(prev: real, p: real, hi: real, c: real)
    requires prev > 0.0 && 0.001 <= p <= hi
    requires c == prev * p || c == -(prev * p)
    ensures Abs(c) == prev * p && prev * 0.001 <= Abs(c) <= prev * hi
  {
    MulBounds(prev, 0.001, p, hi);
  }

  /** The recorded change equals the true price delta exactly when the
      clamp did not act. */
  lemma ChangeMatchesDeltaUnlessClamped(prev: real, d: Draw)
    ensures var m := Fluctuate(prev, d);
      m.price - prev == m.change <==> MINIMUM_PRICE <= prev + m.change <= MAXIMUM_PRICE
  {
  }

  /** Old price 1050 with a downward 10% draw: the price is clamped to 1000,
      yet the recorded change is -105, not -50. */
  lemma ClampedChangeExample()
    ensures Fluctuate(1050.0, Draw(0.5, 0.10, false)) == Move(1000.0, -105.0)
    ensures Fluctuate(1050.0, Draw(0.5, 0.10, false)).price - 1050.0 == -50.0
  {
  }

  /** Start price 3000 with an upward 5% draw gives 3150 and change 150. */
  lemma UpwardExample()
    ensures Fluctuate(3000.0, Draw(0.10, 0.05, true)) == Move(3150.0, 150.0)
  {
  }

  function TickEntry(m: Move, stamp: string): HistoryEntry {
    HistoryEntry(m.price, stamp, m.change, false, false)
  }

  function ManualEntry(price: real, stamp: string): HistoryEntry {
    HistoryEntry(price, stamp, 0.0, true, false)
  }

  function ResetEntry(stamp: string): HistoryEntry {
    HistoryEntry(INITIAL_PRICE, stamp, 0.0, false, true)
  }

  function InitialEntry(stamp: string): HistoryEntry {
    HistoryEntry(INITIAL_PRICE, stamp, 0.0, false, false)
  }

  /** One configured currency is well formed: it has a price and a non-empty
      history of positive prices whose newest entry is the current price. */
  predicate CurrencyConsistent(prices: map<string, real>, history: map<string, seq<HistoryEntry>>, c: string) {
    && c in prices && c in history
    && |history[c]| > 0
    && history[c][|history[c]| - 1].price == prices[c]
    && forall k :: 0 <= k < |history[c]| ==> history[c][k].price > 0.0
  }

  /** A state holding the initial price and the one initial entry for every
      configured currency is consistent for each of them. */
  lemma DefaultsConsistent(prices: map<string, real>, history: map<string, seq<HistoryEntry>>, stamp: string)
    requires forall i :: 0 <= i < |CURRENCIES| ==>
      CURRENCIES[i] in prices && CURRENCIES[i] in history
      && prices[CURRENCIES[i]] == INITIAL_PRICE && history[CURRENCIES[i]] == [InitialEntry(stamp)]
    ensures forall i :: 0 <= i < |CURRENCIES| ==> CurrencyConsistent(prices, history, CURRENCIES[i])
  {
  }

  /** What `get_price_change_summary` reports for one currency. */
  datatype Summary = Summary(currentPrice: real, previousPrice: real, change: real, changePercentage: real, timestamp: string)

  /** The summary of one currency's history: the newest two entries when
      there are two, otherwise the current price with no change. */
  function SummaryOf(h: seq<HistoryEntry>, current: real, now: string): (s: Summary)
    requires |h| >= 2 ==> h[|h| - 2].price != 0.0
    ensures |h| >= 2 ==>
      && s.currentPrice == h[|h| - 1].price && s.previousPrice == h[|h| - 2].price
      && s.change == h[|h| - 1].change && s.timestamp == h[|h| - 1].timestamp
      && s.changePercentage * s.previousPrice == (s.currentPrice - s.previousPrice) * 100.0
    ensures |h| < 2 ==> s == Summary(current, current, 0.0, 0.0, now)
  {
    if |h| >= 2 then
      var latest := h[|h| - 1];
      var previous := h[|h| - 2];
      Summary(latest.price, previous.price, latest.change,
              ((latest.price - previous.price) / previous.price) * 100.0, latest.timestamp)
    else
      Summary(current, current, 0.0, 0.0, now)
  }

  /** Maps `a` and `b` agree on key `c`. */
  ghost predicate EqualAt<V>(a: map<string, V>, b: map<string, V>, c: string) {
    (c in a <==> c in b) && (c in a ==> a[c] == b[c])
  }

  /** Maps `a` and `b` agree on every key that is not a configured currency. */
  ghost predicate SameOutside<V>(a: map<string, V>, b: map<string, V>) {
    forall c :: c !in CURRENCIES ==> EqualAt(a, b, c)
  }

  lemma UpdateKeepsSameOutside<V>(a: map<string, V>, b: map<string, V>, k: string, v: V)
    requires SameOutside(a, b) && k in CURRENCIES
    ensures SameOutside(a, b[k := v])
  {
    forall c | c !in CURRENCIES ensures EqualAt(a, b[k := v], c) {
      assert EqualAt(a, b, c);
    }
  }

  /** Currency `c` was moved by draw `d` and its history got the matching
      entry, trimmed to the newest 100. */
  ghost predicate Ticked(oldPrices: map<string, real>, oldHistory: map<string, seq<HistoryEntry>>,
                         prices: map<string, real>, history: map<string, seq<HistoryEntry>>,
                         c: string, d: Draw, stamp: string)
  {
    && c in oldPrices && c in oldHistory && c in prices && c in history
    && var m := Fluctuate(oldPrices[c], d);
    && prices[c] == m.price
    && history[c] == AppendCapped(oldHistory[c], TickEntry(m, stamp), HISTORY_LIMIT)
  }

  /** One more currency ticked: the loop invariants of `UpdatePrices` carry
      over from `i` to `i + 1`. */
  lemma TickStep(oldPrices: map<string, real>, oldHistory: map<string, seq<HistoryEntry>>,
                 prices: map<string, real>, history: map<string, seq<HistoryEntry>>,
                 newPrices: map<string, real>, newHistory: map<string, seq<HistoryEntry>>,
                 draws: seq<Draw>, stamps: seq<string>, i: nat)
    requires i < |CURRENCIES| && |draws| == |CURRENCIES| && |stamps| == |CURRENCIES|
    requires CURRENCIES[i] in prices && CURRENCIES[i] in history
    requires forall j :: 0 <= j < i ==>
      Ticked(oldPrices, oldHistory, prices, history, CURRENCIES[j], draws[j], stamps[j])
    requires forall j :: i <= j < |CURRENCIES| ==>
      EqualAt(oldPrices, prices, CURRENCIES[j]) && EqualAt(oldHistory, history, CURRENCIES[j])
    requires SameOutside(oldPrices, prices) && SameOutside(oldHistory, history)
    requires var c := CURRENCIES[i]; var m := Fluctuate(prices[c], draws[i]);
      && newPrices == prices[c := m.price]
      && newHistory == history[c := AppendCapped(history[c], TickEntry(m, stamps[i]), HISTORY_LIMIT)]
    ensures forall j :: 0 <= j < i + 1 ==>
      Ticked(oldPrices, oldHistory, newPrices, newHistory, CURRENCIES[j], draws[j], stamps[j])
    ensures forall j :: i + 1 <= j < |CURRENCIES| ==>
      EqualAt(oldPrices, newPrices, CURRENCIES[j]) && EqualAt(oldHistory, newHistory, CURRENCIES[j])
    ensures SameOutside(oldPrices, newPrices) && SameOutside(oldHistory, newHistory)
  {
    CurrenciesDistinct();
    var c := CURRENCIES[i];
    assert EqualAt(oldPrices, prices, c) && EqualAt(oldHistory, history, c);
    forall j | 0 <= j < i + 1
      ensures Ticked(oldPrices, oldHistory, newPrices, newHistory, CURRENCIES[j], draws[j], stamps[j])
    {
      if j < i {
        TickedElsewhere(oldPrices, oldHistory, prices, history, CURRENCIES[j], draws[j], stamps[j],
                        c, newPrices[c], newHistory[c]);
      }
    }
    forall j | i + 1 <= j < |CURRENCIES|
      ensures EqualAt(oldPrices, newPrices, CURRENCIES[j]) && EqualAt(oldHistory, newHistory, CURRENCIES[j])
    {
      assert EqualAt(oldPrices, prices, CURRENCIES[j]) && EqualAt(oldHistory, history, CURRENCIES[j]);
    }
    UpdateKeepsSameOutside(oldPrices, prices, c, newPrices[c]);
    UpdateKeepsSameOutside(oldHistory, history, c, newHistory[c]);
  }

  /** Updating another currency leaves a ticked currency ticked. */
  lemma TickedElsewhere(oldPrices: map<string, real>, oldHistory: map<string, seq<HistoryEntry>>,
                        prices: map<string, real>, history: map<string, seq<HistoryEntry>>,
                        k: string, d: Draw, stamp: string, c: string, p: real, h: seq<HistoryEntry>)
    requires Ticked(oldPrices, oldHistory, prices, history, k, d, stamp) && k != c
    ensures Ticked(oldPrices, oldHistory, prices[c := p], history[c := h], k, d, stamp)
  {
  }

  /** Every ticked currency ends inside the clamp range. */
  lemma TickedInRange(oldPrices: map<string, real>, oldHistory: map<string, seq<HistoryEntry>>,
                      prices: map<string, real>, history: map<string, seq<HistoryEntry>>,
                      draws: seq<Draw>, stamps: seq<string>)
    requires |draws| == |CURRENCIES| && |stamps| == |CURRENCIES|
    requires forall i :: 0 <= i < |CURRENCIES| ==>
      Ticked(oldPrices, oldHistory, prices, history, CURRENCIES[i], draws[i], stamps[i])
    ensures forall i :: 0 <= i < |CURRENCIES| ==>
      CURRENCIES[i] in prices && MINIMUM_PRICE <= prices[CURRENCIES[i]] <= MAXIMUM_PRICE
  {
    forall i | 0 <= i < |CURRENCIES|
      ensures CURRENCIES[i] in prices && MINIMUM_PRICE <= prices[CURRENCIES[i]] <= MAXIMUM_PRICE
    {
      assert Ticked(oldPrices, oldHistory, prices, history, CURRENCIES[i], draws[i], stamps[i]);
    }
  }

  /** Currency `c` was set back to the initial price with one `reset` entry
      appended (and no trimming). */
  ghost predicate WasReset(oldHistory: map<string, seq<HistoryEntry>>,
                           prices: map<string, real>, history: map<string, seq<HistoryEntry>>,
                           c: string, stamp: string)
  {
    && c in oldHistory && c in prices && c in history
    && prices[c] == INITIAL_PRICE
    && history[c] == oldHistory[c] + [ResetEntry(stamp)]
  }

  /** A tick keeps a currency consistent: the newest history entry is the
      new price, and every kept price is positive. */
  lemma TickedConsistent(oldPrices: map<string, real>, oldHistory: map<string, seq<HistoryEntry>>,
                         prices: map<string, real>, history: map<string, seq<HistoryEntry>>,
                         c: string, d: Draw, stamp: string)
    requires CurrencyConsistent(oldPrices, oldHistory, c)
    requires Ticked(oldPrices, oldHistory, prices, history, c, d, stamp)
    ensures CurrencyConsistent(prices, history, c)
  {
    var m := Fluctuate(oldPrices[c], d);
    var full := oldHistory[c] + [TickEntry(m, stamp)];
    var h := history[c];
    assert h == full[|full| - |h|..];
    forall k | 0 <= k < |h| ensures h[k].price > 0.0 {
      assert h[k] == full[|full| - |h| + k];
    }
  }

  /** A tick of every currency keeps every currency consistent. */
  lemma TicksKeepConsistent(oldPrices: map<string, real>, oldHistory: map<string, seq<HistoryEntry>>,
                            prices: map<string, real>, history: map<string, seq<HistoryEntry>>,
                            draws: seq<Draw>, stamps: seq<string>)
    requires |draws| == |CURRENCIES| && |stamps| == |CURRENCIES|
    requires forall i :: 0 <= i < |CURRENCIES| ==> CurrencyConsistent(oldPrices, oldHistory, CURRENCIES[i])
    requires forall i :: 0 <= i < |CURRENCIES| ==>
      Ticked(oldPrices, oldHistory, prices, history, CURRENCIES[i], draws[i], stamps[i])
    ensures forall i :: 0 <= i < |CURRENCIES| ==> CurrencyConsistent(prices, history, CURRENCIES[i])
  {
    forall i | 0 <= i < |CURRENCIES| ensures CurrencyConsistent(prices, history, CURRENCIES[i]) {
      TickedConsistent(oldPrices, oldHistory, prices, history, CURRENCIES[i], draws[i], stamps[i]);
    }
  }

  /** A reset keeps a currency consistent. */
  lemma ResetConsistent(oldPrices: map<string, real>, oldHistory: map<string, seq<HistoryEntry>>,
                        prices: map<string, real>, history: map<string, seq<HistoryEntry>>,
                        c: string, stamp: string)
    requires CurrencyConsistent(oldPrices, oldHistory, c)
    requires WasReset(oldHistory, prices, history, c, stamp)
    ensures CurrencyConsistent(prices, history, c)
  {
    var h := history[c];
    forall k | 0 <= k < |h| ensures h[k].price > 0.0 {
      if k < |oldHistory[c]| {
        assert h[k] == oldHistory[c][k];
      }
    }
  }

  /** One more currency reset: the loop invariants of
      `ForceResetToInitialPrice` carry over from `i` to `i + 1`. */
  lemma ResetStep(oldPrices: map<string, real>, oldHistory: map<string, seq<HistoryEntry>>,
                  prices: map<string, real>, history: map<string, seq<HistoryEntry>>,
                  newPrices: map<string, real>, newHistory: map<string, seq<HistoryEntry>>,
                  stamps: seq<string>, i: nat)
    requires i < |CURRENCIES| && |stamps| == |CURRENCIES|
    requires CURRENCIES[i] in history
    requires forall j :: 0 <= j < i ==> WasReset(oldHistory, prices, history, CURRENCIES[j], stamps[j])
    requires forall j :: i <= j < |CURRENCIES| ==>
      EqualAt(oldPrices, prices, CURRENCIES[j]) && EqualAt(oldHistory, history, CURRENCIES[j])
    requires SameOutside(oldPrices, prices) && SameOutside(oldHistory, history)
    requires var c := CURRENCIES[i];
      && newPrices == prices[c := INITIAL_PRICE]
      && newHistory == history[c := history[c] + [ResetEntry(stamps[i])]]
    ensures forall j :: 0 <= j < i + 1 ==> WasReset(oldHistory, newPrices, newHistory, CURRENCIES[j], stamps[j])
    ensures forall j :: i + 1 <= j < |CURRENCIES| ==>
      EqualAt(oldPrices, newPrices, CURRENCIES[j]) && EqualAt(oldHistory, newHistory, CURRENCIES[j])
    ensures SameOutside(oldPrices, newPrices) && SameOutside(oldHistory, newHistory)
  {
    CurrenciesDistinct();
    var c := CURRENCIES[i];
    assert EqualAt(oldHistory, history, c);
    forall j | 0 <= j < i + 1 ensures WasReset(oldHistory, newPrices, newHistory, CURRENCIES[j], stamps[j]) {
      if j < i {
        assert WasReset(oldHistory, prices, history, CURRENCIES[j], stamps[j]);
      }
    }
    forall j | i + 1 <= j < |CURRENCIES|
      ensures EqualAt(oldPrices, newPrices, CURRENCIES[j]) && EqualAt(oldHistory, newHistory, CURRENCIES[j])
    {
      assert EqualAt(oldPrices, prices, CURRENCIES[j]) && EqualAt(oldHistory, history, CURRENCIES[j]);
    }
    UpdateKeepsSameOutside(oldPrices, prices, c, INITIAL_PRICE);
    UpdateKeepsSameOutside(oldHistory, history, c, newHistory[c]);
  }

  /** A reset of every configured currency keeps each of them consistent. */
  lemma ResetsKeepConsistent(oldPrices: map<string, real>, oldHistory: map<string, seq<HistoryEntry>>,
                             prices: map<string, real>, history: map<string, seq<HistoryEntry>>,
                             stamps: seq<string>)
    requires |stamps| == |CURRENCIES|
    requires forall i :: 0 <= i < |CURRENCIES| ==> CurrencyConsistent(oldPrices, oldHistory, CURRENCIES[i])
    requires forall i :: 0 <= i < |CURRENCIES| ==> WasReset(oldHistory, prices, history, CURRENCIES[i], stamps[i])
    ensures forall i :: 0 <= i < |CURRENCIES| ==> CurrencyConsistent(prices, history, CURRENCIES[i])
  {
    forall i | 0 <= i < |CURRENCIES| ensures CurrencyConsistent(prices, history, CURRENCIES[i]) {
      ResetConsistent(oldPrices, oldHistory, prices, history, CURRENCIES[i], stamps[i]);
    }
  }

  class PriceManager {
    var currentPrices: map<string, real>
    var priceHistory: map<string, seq<HistoryEntry>>
    var lastUpdate: Option<string>

    /** Every configured currency has a price and a history (the code indexes
        both dictionaries without a check). */
    predicate HasCurrencies()
      reads this
    {
      forall i :: 0 <= i < |CURRENCIES| ==> CURRENCIES[i] in currentPrices && CURRENCIES[i] in priceHistory
    }

    /** The state invariant every operation of the bot keeps. */
    ghost predicate Valid()
      reads this
    {
      forall i :: 0 <= i < |CURRENCIES| ==> CurrencyConsistent(currentPrices, priceHistory, CURRENCIES[i])
    }

    /** Start-up without a prices file: the default prices. */
    constructor (stamp: string)
      ensures Valid()
      ensures forall i :: 0 <= i < |CURRENCIES| ==>
        currentPrices[CURRENCIES[i]] == INITIAL_PRICE && priceHistory[CURRENCIES[i]] == [InitialEntry(stamp)]
      ensures lastUpdate == None
    {
      currentPrices := map[];
      priceHistory := map[];
      lastUpdate := None;
      new;
      InitializeDefaultPrices(stamp);
    }

    /** Every configured currency starts at the initial price with a
        one-entry history of change 0.0; there has been no update yet. */
    method InitializeDefaultPrices(stamp: string)
      modifies this
      ensures forall c :: (c in currentPrices <==> c in CURRENCIES) && (c in priceHistory <==> c in CURRENCIES)
      ensures forall i :: 0 <= i < |CURRENCIES| ==>
        currentPrices[CURRENCIES[i]] == INITIAL_PRICE && priceHistory[CURRENCIES[i]] == [InitialEntry(stamp)]
      ensures lastUpdate == None
      ensures Valid()
    {
      CurrenciesDistinct();
      currentPrices := map["buxcoin" := INITIAL_PRICE, "bitcoin" := INITIAL_PRICE];
      priceHistory := map["buxcoin" := [], "bitcoin" := []];
      lastUpdate := None;
      for i := 0 to |CURRENCIES|
        invariant currentPrices == map["buxcoin" := INITIAL_PRICE, "bitcoin" := INITIAL_PRICE]
        invariant priceHistory.Keys == {"buxcoin", "bitcoin"}
        invariant priceHistory["buxcoin"] == if i > 0 then [InitialEntry(stamp)] else []
        invariant priceHistory["bitcoin"] == if i > 1 then [InitialEntry(stamp)] else []
        invariant lastUpdate == None
      {
        var c := CURRENCIES[i];
        priceHistory := priceHistory[c := priceHistory[c] + [InitialEntry(stamp)]];
      }
      DefaultsConsistent(currentPrices, priceHistory, stamp);
    }

    /** Sets every configured currency back to the initial price and appends
        one `reset` entry to each history, without trimming. */
    method ForceResetToInitialPrice(stamps: seq<string>, now: string)
      requires |stamps| == |CURRENCIES|
      requires forall i :: 0 <= i < |CURRENCIES| ==> CURRENCIES[i] in priceHistory
      modifies this
      ensures forall i :: 0 <= i < |CURRENCIES| ==>
        WasReset(old(priceHistory), currentPrices, priceHistory, CURRENCIES[i], stamps[i])
      ensures SameOutside(old(currentPrices), currentPrices) && SameOutside(old(priceHistory), priceHistory)
      ensures lastUpdate == Some(now)
      ensures old(Valid()) ==> Valid()
    {
      CurrenciesDistinct();
      for i := 0 to |CURRENCIES|
        invariant forall j :: 0 <= j < i ==>
          WasReset(old(priceHistory), currentPrices, priceHistory, CURRENCIES[j], stamps[j])
        invariant forall j :: i <= j < |CURRENCIES| ==>
          EqualAt(old(currentPrices), currentPrices, CURRENCIES[j]) && EqualAt(old(priceHistory), priceHistory, CURRENCIES[j])
        invariant SameOutside(old(currentPrices), currentPrices) && SameOutside(old(priceHistory), priceHistory)
      {
        var c := CURRENCIES[i];
        var prices := currentPrices[c := INITIAL_PRICE];
        var history := priceHistory[c := priceHistory[c] + [ResetEntry(stamps[i])]];
        ResetStep(old(currentPrices), old(priceHistory), currentPrices, priceHistory, prices, history, stamps, i);
        currentPrices, priceHistory := prices, history;
      }
      lastUpdate := Some(now);
      if old(Valid()) {
        ResetsKeepConsistent(old(currentPrices), old(priceHistory), currentPrices, priceHistory, stamps);
      }
    }

    /** A copy of the current prices; every configured currency has a
        positive price in it. */
    function GetCurrentPrices(): (r: map<string, real>)
      reads this
      ensures Valid() ==> forall i :: 0 <= i < |CURRENCIES| ==> CURRENCIES[i] in r && r[CURRENCIES[i]] > 0.0
    {
      currentPrices
    }

    /** The price of a currency, whatever its case; 0.0 when it is unknown
        (`GetPriceIgnoresCase`, `ValidPricePositive`). */
    function GetPrice(currency: string): real
      reads this
    {
      var c := Lower(currency);
      if c in currentPrices then currentPrices[c] else 0.0
    }

    /** `history[-limit:]` for a positive limit, the whole history otherwise,
        and nothing for an unknown currency. */
    function GetPriceHistory(currency: string, limit: int): (r: seq<HistoryEntry>)
      reads this
      ensures Lower(currency) !in priceHistory ==> r == []
      ensures Lower(currency) in priceHistory ==>
        var h := priceHistory[Lower(currency)];
        && |r| == (if 0 < limit < |h| then limit else |h|)
        && r == h[|h| - |r|..]
    {
      var c := Lower(currency);
      if c !in priceHistory then []
      else
        var history := priceHistory[c];
        if limit > 0 then KeepNewest(history, limit) else history
    }

    /** One tick of the random walk: every configured currency moves by the
        rule of `Fluctuate`, gets one history entry, and its history is
        trimmed to the newest 100 entries. */
    method UpdatePrices(draws: seq<Draw>, stamps: seq<string>, now: string)
      requires |draws| == |CURRENCIES| && |stamps| == |CURRENCIES|
      requires forall i :: 0 <= i < |draws| ==> ValidDraw(draws[i])
      requires HasCurrencies()
      modifies this
      ensures SameOutside(old(currentPrices), currentPrices) && SameOutside(old(priceHistory), priceHistory)
      ensures forall i :: 0 <= i < |CURRENCIES| ==>
        Ticked(old(currentPrices), old(priceHistory), currentPrices, priceHistory, CURRENCIES[i], draws[i], stamps[i])
      ensures forall i :: 0 <= i < |CURRENCIES| ==>
        CURRENCIES[i] in currentPrices && MINIMUM_PRICE <= currentPrices[CURRENCIES[i]] <= MAXIMUM_PRICE
      ensures lastUpdate == Some(now)
      ensures old(Valid()) ==> Valid()
    {
      CurrenciesDistinct();
      var i := 0;
      while i < |CURRENCIES|
        invariant 0 <= i <= |CURRENCIES|
        invariant forall j :: 0 <= j < i ==>
          Ticked(old(currentPrices), old(priceHistory), currentPrices, priceHistory, CURRENCIES[j], draws[j], stamps[j])
        invariant forall j :: i <= j < |CURRENCIES| ==>
          EqualAt(old(currentPrices), currentPrices, CURRENCIES[j]) && EqualAt(old(priceHistory), priceHistory, CURRENCIES[j])
        invariant SameOutside(old(currentPrices), currentPrices) && SameOutside(old(priceHistory), priceHistory)
      {
        ghost var pricesBefore, historyBefore := currentPrices, priceHistory;
        TickCurrency(CURRENCIES[i], draws[i], stamps[i]);
        TickStep(old(currentPrices), old(priceHistory), pricesBefore, historyBefore,
                 currentPrices, priceHistory, draws, stamps, i);
        i := i + 1;
      }
      lastUpdate := Some(now);
      TickedInRange(old(currentPrices), old(priceHistory), currentPrices, priceHistory, draws, stamps);
      if old(Valid()) {
        TicksKeepConsistent(old(currentPrices), old(priceHistory), currentPrices, priceHistory, draws, stamps);
      }
    }

    /** One pass of the per-currency loop body of `update_prices`: the move
        is drawn, applied, clamped, and recorded in the trimmed history. */
    method TickCurrency(currency: string, d: Draw, stamp: string)
      requires currency in currentPrices && currency in priceHistory
      modifies this
      ensures var m := Fluctuate(old(currentPrices)[currency], d);
        && currentPrices == old(currentPrices)[currency := m.price]
        && priceHistory == old(priceHistory)[currency :=
             AppendCapped(old(priceHistory)[currency], TickEntry(m, stamp), HISTORY_LIMIT)]
      ensures lastUpdate == old(lastUpdate)
    {
      var oldPrice := currentPrices[currency];
      var change: real;
      if d.r < 0.35 {
        change := oldPrice * d.p;
      } else if d.r < 0.72 {
        change := -(oldPrice * d.p);
      } else if d.up {
        change := oldPrice * d.p;
      } else {
        change := -(oldPrice * d.p);
      }
      var newPrice := Clamp(oldPrice + change);
      ghost var m := Fluctuate(oldPrice, d);
      FluctuateBranches(oldPrice, d);
      assert m.change == change;
      assert m.price == newPrice;
      var history := priceHistory[currency] + [HistoryEntry(newPrice, stamp, change, false, false)];
      if |history| > HISTORY_LIMIT {
        history := history[|history| - HISTORY_LIMIT..];
      }
      currentPrices := currentPrices[currency := newPrice];
      priceHistory := priceHistory[currency := history];
    }

    /** The change summary of every configured currency. */
    method GetPriceChangeSummary(now: string) returns (summary: map<string, Summary>)
      requires Valid()
      ensures forall c :: c in summary <==> c in CURRENCIES
      ensures forall i :: 0 <= i < |CURRENCIES| ==>
        summary[CURRENCIES[i]] == SummaryOf(priceHistory[CURRENCIES[i]], currentPrices[CURRENCIES[i]], now)
      ensures forall i :: 0 <= i < |CURRENCIES| ==> summary[CURRENCIES[i]].currentPrice == currentPrices[CURRENCIES[i]]
    {
      summary := map[];
      for i := 0 to |CURRENCIES|
        invariant forall c :: c in summary <==> c in CURRENCIES[..i]
        invariant forall j :: 0 <= j < i ==>
          summary[CURRENCIES[j]] == SummaryOf(priceHistory[CURRENCIES[j]], currentPrices[CURRENCIES[j]], now)
      {
        var currency := CURRENCIES[i];
        var history := priceHistory[currency];
        if |history| >= 2 {
          var latest := history[|history| - 1];
          var previous := history[|history| - 2];
          summary := summary[currency := Summary(latest.price, previous.price, latest.change,
                                                ((latest.price - previous.price) / previous.price) * 100.0,
                                                latest.timestamp)];
        } else {
          summary := summary[currency := Summary(currentPrices[currency], currentPrices[currency], 0.0, 0.0, now)];
        }
        assert CURRENCIES[..i + 1] == CURRENCIES[..i] + [currency];
      }
      assert CURRENCIES[..|CURRENCIES|] == CURRENCIES;
    }
  }

  /** Ticking the same currency over and over keeps exactly the newest 100
      entries of the old history followed by all new entries, in order. This
      holds for every old history once there is at least one tick, including
      one that overrides and resets have grown past 100 entries. */
  lemma RepeatedTicksKeepNewest(history: seq<HistoryEntry>, entries: seq<HistoryEntry>)
    requires |history| <= HISTORY_LIMIT || entries != []
    ensures AppendAllCapped(history, entries, HISTORY_LIMIT) == KeepNewest(history + entries, HISTORY_LIMIT)
    ensures |history + entries| >= HISTORY_LIMIT ==>
      AppendAllCapped(history, entries, HISTORY_LIMIT) == (history + entries)[|history + entries| - HISTORY_LIMIT..]
  {
    AppendAllCappedKeepsNewest(history, entries, HISTORY_LIMIT);
  }

  /** A price entered in any case is the price of its lower-case name. */
  lemma {:induction false} GetPriceIgnoresCase(pm: PriceManager, currency: string)
    ensures pm.GetPrice(currency) == pm.GetPrice(Lower(currency))
  {
    LowerIdempotent(currency);
  }

  /** Under the state invariant every configured currency is quoted at a
      positive price, so trades never happen at a price of zero or less. */
  lemma {:induction false} ValidPricePositive(pm: PriceManager, currency: string)
    requires pm.Valid() && Lower(currency) in CURRENCIES
    ensures pm.GetPrice(currency) > 0.0
  {
    CurrenciesDistinct();
    var c := Lower(currency);
    var i := if c == CURRENCIES[0] then 0 else 1;
    assert CurrencyConsistent(pm.currentPrices, pm.priceHistory, CURRENCIES[i]);
    var h := pm.priceHistory[c];
    assert h[|h| - 1].price > 0.0;
  }
}
