/** User wallets: a balance in euros, two coin holdings and a capped log
    of transactions, kept in a dictionary by user id. */
module Users {
  import opened Text
  import opened Retention
  import opened BotConfig

  /** One record of a wallet's transaction log. */
  datatype Transaction =
    | AdminBalanceUpdate(amount: real, newBalance: real, timestamp: string)
    | Buy(currency: string, amount: real, pricePerUnit: real, totalCost: real, timestamp: string)
    | Sell(currency: string, amount: real, pricePerUnit: real, totalValue: real, timestamp: string)

  datatype Wallet = Wallet(balance: real, buxcoin: real, bitcoin: real, transactions: seq<Transaction>)

  /** The wallet a user gets the first time the bot looks them up. */
  const NEW_WALLET: Wallet := Wallet(INITIAL_BALANCE, 0.0, 0.0, [])

  /** `wallet[currency]` */
  function Holding(w: Wallet, c: Coin): real {
    match c
    case Buxcoin => w.buxcoin
    case Bitcoin => w.bitcoin
  }

  /** The coin that is not `c`. */
  function Other(c: Coin): (r: Coin)
    ensures r != c
  {
    match c
    case Buxcoin => Bitcoin
    case Bitcoin => Buxcoin
  }

  /** `wallet[currency] = v` */
  function SetHolding(w: Wallet, c: Coin, v: real): (r: Wallet)
    ensures Holding(r, c) == v
    ensures Holding(r, Other(c)) == Holding(w, Other(c))
    ensures r.balance == w.balance && r.transactions == w.transactions
  {
    match c
    case Buxcoin => w.(buxcoin := v)
    case Bitcoin => w.(bitcoin := v)
  }

  /** No negative money, no negative holding, at most 50 logged transactions. */
  predicate WalletValid(w: Wallet) {
    && w.balance >= 0.0 && w.buxcoin >= 0.0 && w.bitcoin >= 0.0
    && |w.transactions| <= TRANSACTION_LIMIT
  }

  /** The transaction log after recording `t`: the newest 50 of the old log
      followed by `t`. */
  function Logged(log: seq<Transaction>, t: Transaction): (r: seq<Transaction>)
    ensures 0 < |r| <= TRANSACTION_LIMIT && r[|r| - 1] == t
    ensures r == KeepNewest(log + [t], TRANSACTION_LIMIT)
  {
    AppendCapped(log, t, TRANSACTION_LIMIT)
  }

  /** `update_balance` applied to one wallet; `None` when the balance would
      go negative. Zero amounts are not logged. */
  function BalanceUpdated(w: Wallet, amount: real, stamp: string): (r: Option<Wallet>)
    ensures r.None? <==> w.balance + amount < 0.0
    ensures r.Some? ==>
      && r.value.balance == w.balance + amount
      && r.value.buxcoin == w.buxcoin && r.value.bitcoin == w.bitcoin
      && r.value.transactions ==
           (if amount == 0.0 then w.transactions
            else Logged(w.transactions, AdminBalanceUpdate(amount, w.balance + amount, stamp)))
  {
    var newBalance := w.balance + amount;
    if newBalance < 0.0 then None
    else
      var updated := w.(balance := newBalance);
      if amount != 0.0 then
        Some(updated.(transactions := Logged(w.transactions, AdminBalanceUpdate(amount, newBalance, stamp))))
      else Some(updated)
  }

  /** `update_currency` applied to one wallet; `None` when the holding would
      go negative. Nothing is logged. */
  function CurrencyUpdated(w: Wallet, c: Coin, amount: real): (r: Option<Wallet>)
    ensures r.None? <==> Holding(w, c) + amount < 0.0
    ensures r.Some? ==>
      && Holding(r.value, c) == Holding(w, c) + amount
      && Holding(r.value, Other(c)) == Holding(w, Other(c))
      && r.value.balance == w.balance && r.value.transactions == w.transactions
  {
    var newAmount := Holding(w, c) + amount;
    if newAmount < 0.0 then None else Some(SetHolding(w, c, newAmount))
  }

  /** `buy_currency` applied to one wallet. */
  function Bought(w: Wallet, c: Coin, amount: real, price: real, stamp: string): (r: Option<Wallet>)
    ensures r.None? <==> amount < MIN_TRADE_AMOUNT || w.balance < amount * price
    ensures r.Some? ==>
      && r.value.balance == w.balance - amount * price
      && Holding(r.value, c) == Holding(w, c) + amount
      && Holding(r.value, Other(c)) == Holding(w, Other(c))
      && r.value.transactions == Logged(w.transactions, Buy(CoinName(c), amount, price, amount * price, stamp))
  {
    var totalCost := amount * price;
    if amount < MIN_TRADE_AMOUNT || w.balance < totalCost then None
    else
      var paid := SetHolding(w.(balance := w.balance - totalCost), c, Holding(w, c) + amount);
      Some(paid.(transactions := Logged(w.transactions, Buy(CoinName(c), amount, price, totalCost, stamp))))
  }

  /** `sell_currency` applied to one wallet. */
  function Sold(w: Wallet, c: Coin, amount: real, price: real, stamp: string): (r: Option<Wallet>)
    ensures r.None? <==> amount < MIN_TRADE_AMOUNT || Holding(w, c) < amount
    ensures r.Some? ==>
      && r.value.balance == w.balance + amount * price
      && Holding(r.value, c) == Holding(w, c) - amount
      && Holding(r.value, Other(c)) == Holding(w, Other(c))
      && r.value.transactions == Logged(w.transactions, Sell(CoinName(c), amount, price, amount * price, stamp))
  {
    if amount < MIN_TRADE_AMOUNT || Holding(w, c) < amount then None
    else
      var totalValue := amount * price;
      var paid := SetHolding(w.(balance := w.balance + totalValue), c, Holding(w, c) - amount);
      Some(paid.(transactions := Logged(w.transactions, Sell(CoinName(c), amount, price, totalValue, stamp))))
  }

  /** The wallet `get_user_wallet` hands out: the stored one, or a new one. */
  function WalletOf(users: map<string, Wallet>, id: string): (w: Wallet)
    ensures id in users ==> w == users[id]
    ensures id !in users ==> w == NEW_WALLET
  {
    if id in users then users[id] else NEW_WALLET
  }

  /** The dictionary after `get_user_wallet`: a new wallet is stored only
      for an id that has none. */
  function WithWallet(users: map<string, Wallet>, id: string): (r: map<string, Wallet>)
    ensures r == users[id := WalletOf(users, id)]
    ensures id in users ==> r == users
  {
    if id in users then users else users[id := NEW_WALLET]
  }

  /** Storing a wallet after the lookup that may have created it gives the
      same dictionary as storing it directly. */
  lemma StoreAfterLookup(users: map<string, Wallet>, id: string, w: Wallet)
    ensures WithWallet(users, id)[id := w] == users[id := w]
  {
    if id !in users {
      assert users[id := NEW_WALLET][id := w] == users[id := w];
    }
  }

  /** What a wallet operation returns together with the new dictionary. */
  datatype Outcome = Outcome(ok: bool, users: map<string, Wallet>)

  /** The dictionary after a wallet-level step that may refuse: the wallet
      is created either way, and replaced only on success. */
  function Settle(users: map<string, Wallet>, id: string, r: Option<Wallet>): (o: Outcome)
    ensures o.ok == r.Some?
    ensures o.ok ==> o.users == users[id := r.value]
    ensures !o.ok ==> o.users == WithWallet(users, id)
  {
    if r.Some? then Outcome(true, users[id := r.value]) else Outcome(false, WithWallet(users, id))
  }

  /** `update_balance(user_id, amount)` on the whole dictionary. */
  function UpdateBalanceOutcome(users: map<string, Wallet>, id: string, amount: real, stamp: string): (o: Outcome)
    ensures o.ok <==> WalletOf(users, id).balance + amount >= 0.0
    ensures id in o.users
    ensures o.ok ==> o.users[id].balance == WalletOf(users, id).balance + amount
    ensures o.ok ==> o.users == users[id := BalanceUpdated(WalletOf(users, id), amount, stamp).value]
    ensures !o.ok ==> o.users == WithWallet(users, id)
  {
    Settle(users, id, BalanceUpdated(WalletOf(users, id), amount, stamp))
  }

  /** `update_currency(user_id, currency, amount)`: an unknown currency is
      refused before any wallet is created. */
  function UpdateCurrencyOutcome(users: map<string, Wallet>, id: string, currency: string, amount: real): (o: Outcome)
    ensures ParseCoin(currency).None? ==> o == Outcome(false, users)
    ensures ParseCoin(currency).Some? ==>
      (o.ok <==> Holding(WalletOf(users, id), ParseCoin(currency).value) + amount >= 0.0)
    ensures o.ok ==> (id in o.users &&
      Holding(o.users[id], ParseCoin(currency).value) == Holding(WalletOf(users, id), ParseCoin(currency).value) + amount)
    ensures o.ok ==> o.users == users[id := CurrencyUpdated(WalletOf(users, id), ParseCoin(currency).value, amount).value]
    ensures ParseCoin(currency).Some? && !o.ok ==> o.users == WithWallet(users, id)
  {
    match ParseCoin(currency)
    case None => Outcome(false, users)
    case Some(c) => Settle(users, id, CurrencyUpdated(WalletOf(users, id), c, amount))
  }

  /** `buy_currency(user_id, currency, amount, price_per_unit)`: an unknown
      currency or an amount below the minimum is refused before any wallet
      is created; a short balance is refused after. */
  function BuyOutcome(users: map<string, Wallet>, id: string, currency: string, amount: real, price: real, stamp: string): (o: Outcome)
    ensures ParseCoin(currency).None? || amount < MIN_TRADE_AMOUNT ==> o == Outcome(false, users)
    ensures o.ok <==> ParseCoin(currency).Some? && amount >= MIN_TRADE_AMOUNT && WalletOf(users, id).balance >= amount * price
    ensures ParseCoin(currency).Some? && amount >= MIN_TRADE_AMOUNT && !o.ok ==> o.users == WithWallet(users, id)
  {
    match ParseCoin(currency)
    case None => Outcome(false, users)
    case Some(c) =>
      if amount < MIN_TRADE_AMOUNT then Outcome(false, users)
      else Settle(users, id, Bought(WalletOf(users, id), c, amount, price, stamp))
  }

  /** `sell_currency(user_id, currency, amount, price_per_unit)`. */
  function SellOutcome(users: map<string, Wallet>, id: string, currency: string, amount: real, price: real, stamp: string): (o: Outcome)
    ensures ParseCoin(currency).None? || amount < MIN_TRADE_AMOUNT ==> o == Outcome(false, users)
    ensures o.ok <==> ParseCoin(currency).Some? && amount >= MIN_TRADE_AMOUNT
                      && Holding(WalletOf(users, id), ParseCoin(currency).value) >= amount
    ensures ParseCoin(currency).Some? && amount >= MIN_TRADE_AMOUNT && !o.ok ==> o.users == WithWallet(users, id)
  {
    match ParseCoin(currency)
    case None => Outcome(false, users)
    case Some(c) =>
      if amount < MIN_TRADE_AMOUNT then Outcome(false, users)
      else Settle(users, id, Sold(WalletOf(users, id), c, amount, price, stamp))
  }

  /** A successful purchase stores the wallet-level result for the buyer,
      whose balance drops by exactly the cost, and touches nobody else. */
  lemma {:induction false} BuyOutcomeOnSuccess(users: map<string, Wallet>, id: string, currency: string,
                                               amount: real, price: real, stamp: string)
    requires BuyOutcome(users, id, currency, amount, price, stamp).ok
    ensures var o := BuyOutcome(users, id, currency, amount, price, stamp);
      var w := Bought(WalletOf(users, id), ParseCoin(currency).value, amount, price, stamp).value;
      && o.users == users[id := w]
      && w.balance == WalletOf(users, id).balance - amount * price
      && Holding(w, ParseCoin(currency).value) == Holding(WalletOf(users, id), ParseCoin(currency).value) + amount
  {
    var c := ParseCoin(currency).value;
    assert BuyOutcome(users, id, currency, amount, price, stamp) == Settle(users, id, Bought(WalletOf(users, id), c, amount, price, stamp));
  }

  /** A successful sale stores the wallet-level result for the seller,
      whose balance rises by exactly the proceeds, and touches nobody else. */
  lemma {:induction false} SellOutcomeOnSuccess(users: map<string, Wallet>, id: string, currency: string,
                                                amount: real, price: real, stamp: string)
    requires SellOutcome(users, id, currency, amount, price, stamp).ok
    ensures var o := SellOutcome(users, id, currency, amount, price, stamp);
      var w := Sold(WalletOf(users, id), ParseCoin(currency).value, amount, price, stamp).value;
      && o.users == users[id := w]
      && w.balance == WalletOf(users, id).balance + amount * price
      && Holding(w, ParseCoin(currency).value) == Holding(WalletOf(users, id), ParseCoin(currency).value) - amount
  {
    var c := ParseCoin(currency).value;
    assert SellOutcome(users, id, currency, amount, price, stamp) == Settle(users, id, Sold(WalletOf(users, id), c, amount, price, stamp));
  }

  /** Every stored wallet is valid. */
  ghost predicate AllValid(users: map<string, Wallet>) {
    forall id :: id in users ==> WalletValid(users[id])
  }

  /** The wallet of a new user is valid and empty. */
  lemma NewWalletValid()
    ensures WalletValid(NEW_WALLET)
    ensures forall c: Coin :: Holding(NEW_WALLET, c) == 0.0
    ensures NEW_WALLET.balance == INITIAL_BALANCE && NEW_WALLET.transactions == []
  {
  }

  lemma {:induction false} SettleKeepsValid(users: map<string, Wallet>, id: string, r: Option<Wallet>)
    requires AllValid(users)
    requires r.Some? ==> WalletValid(r.value)
    ensures AllValid(Settle(users, id, r).users)
  {
    NewWalletValid();
    var u := Settle(users, id, r).users;
    forall other | other in u ensures WalletValid(u[other]) {
      if other != id {
        assert other in users;
      }
    }
  }

  /** A successful balance update leaves the balance non-negative, the
      holdings untouched and the log within its cap. */
  lemma BalanceUpdateKeepsValid(w: Wallet, amount: real, stamp: string)
    requires WalletValid(w)
    ensures BalanceUpdated(w, amount, stamp).Some? ==> WalletValid(BalanceUpdated(w, amount, stamp).value)
  {
  }

  lemma CurrencyUpdateKeepsValid(w: Wallet, c: Coin, amount: real)
    requires WalletValid(w)
    ensures CurrencyUpdated(w, c, amount).Some? ==> WalletValid(CurrencyUpdated(w, c, amount).value)
  {
  }

  /** A purchase never overdraws: it is refused unless the balance covers
      the cost, whatever the price. */
  lemma BuyKeepsValid(w: Wallet, c: Coin, amount: real, price: real, stamp: string)
    requires WalletValid(w)
    ensures Bought(w, c, amount, price, stamp).Some? ==> WalletValid(Bought(w, c, amount, price, stamp).value)
  {
  }

  /** A sale at a non-negative price never leaves a negative balance or holding. */
  lemma SellKeepsValid(w: Wallet, c: Coin, amount: real, price: real, stamp: string)
    requires WalletValid(w) && price >= 0.0
    ensures Sold(w, c, amount, price, stamp).Some? ==> WalletValid(Sold(w, c, amount, price, stamp).value)
  {
    var r := Sold(w, c, amount, price, stamp);
    if r.Some? {
      assert amount >= MIN_TRADE_AMOUNT;
      NonNegativeProduct(amount, price);
    }
  }

  lemma NonNegativeProduct(x: real, y: real)
    requires x >= 0.0 && y >= 0.0
    ensures x * y >= 0.0
  {
  }

  /** The four wallet operations keep every stored wallet valid (a sale
      needs a non-negative price), including the wallet they may create. */
  lemma {:induction false} UpdateBalanceOutcomeValid(users: map<string, Wallet>, id: string, amount: real, stamp: string)
    requires AllValid(users)
    ensures AllValid(UpdateBalanceOutcome(users, id, amount, stamp).users)
  {
    BalanceUpdateKeepsValid(WalletOf(users, id), amount, stamp);
    SettleKeepsValid(users, id, BalanceUpdated(WalletOf(users, id), amount, stamp));
  }

  lemma {:induction false} UpdateCurrencyOutcomeValid(users: map<string, Wallet>, id: string, currency: string, amount: real)
    requires AllValid(users)
    ensures AllValid(UpdateCurrencyOutcome(users, id, currency, amount).users)
  {
    if ParseCoin(currency).Some? {
      var c := ParseCoin(currency).value;
      CurrencyUpdateKeepsValid(WalletOf(users, id), c, amount);
      SettleKeepsValid(users, id, CurrencyUpdated(WalletOf(users, id), c, amount));
    }
  }

  lemma {:induction false} BuyOutcomeValid(users: map<string, Wallet>, id: string, currency: string, amount: real, price: real, stamp: string)
    requires AllValid(users)
    ensures AllValid(BuyOutcome(users, id, currency, amount, price, stamp).users)
  {
    var o := BuyOutcome(users, id, currency, amount, price, stamp);
    match ParseCoin(currency)
    case None =>
      assert o.users == users;
    case Some(c) =>
      if amount < MIN_TRADE_AMOUNT {
        assert o.users == users;
      } else {
        var r := Bought(WalletOf(users, id), c, amount, price, stamp);
        assert o == Settle(users, id, r);
        BuyKeepsValid(WalletOf(users, id), c, amount, price, stamp);
        SettleKeepsValid(users, id, r);
      }
  }

  lemma {:induction false} SellOutcomeValid(users: map<string, Wallet>, id: string, currency: string, amount: real, price: real, stamp: string)
    requires AllValid(users) && price >= 0.0
    ensures AllValid(SellOutcome(users, id, currency, amount, price, stamp).users)
  {
    var o := SellOutcome(users, id, currency, amount, price, stamp);
    match ParseCoin(currency)
    case None =>
      assert o.users == users;
    case Some(c) =>
      if amount < MIN_TRADE_AMOUNT {
        assert o.users == users;
      } else {
        var r := Sold(WalletOf(users, id), c, amount, price, stamp);
        assert o == Settle(users, id, r);
        SellKeepsValid(WalletOf(users, id), c, amount, price, stamp);
        SettleKeepsValid(users, id, r);
      }
  }

  /** Balance plus the value of the traded holding at the trade price. */
  function Worth(w: Wallet, c: Coin, price: real): real {
    w.balance + Holding(w, c) * price
  }

  lemma ShiftedProduct(h: real, a: real, p: real)
    ensures (h + a) * p == h * p + a * p
    ensures (h - a) * p == h * p - a * p
  {
  }

  /** Buying and selling exchange money for coin at the quoted price: the
      worth of the wallet at that price does not change. */
  lemma {:induction false} TradesConserveWorth(w: Wallet, c: Coin, amount: real, price: real, stamp: string)
    ensures Bought(w, c, amount, price, stamp).Some? ==>
      Worth(Bought(w, c, amount, price, stamp).value, c, price) == Worth(w, c, price)
    ensures Sold(w, c, amount, price, stamp).Some? ==>
      Worth(Sold(w, c, amount, price, stamp).value, c, price) == Worth(w, c, price)
  {
    ShiftedProduct(Holding(w, c), amount, price);
  }

  /** Selling back what was just bought, at the same price, always succeeds
      and restores the balance and both holdings. */
  lemma BuyThenSellRestores(w: Wallet, c: Coin, amount: real, price: real, s1: string, s2: string)
    requires WalletValid(w)
    requires Bought(w, c, amount, price, s1).Some?
    ensures var b := Bought(w, c, amount, price, s1).value;
      && Sold(b, c, amount, price, s2).Some?
      && var s := Sold(b, c, amount, price, s2).value;
      && s.balance == w.balance && s.buxcoin == w.buxcoin && s.bitcoin == w.bitcoin
  {
    var b := Bought(w, c, amount, price, s1).value;
    assert Holding(b, c) >= amount;
    var s := Sold(b, c, amount, price, s2).value;
    assert Holding(s, c) == Holding(w, c);
    assert c == Buxcoin || c == Bitcoin;
  }

  /** Buying back what was just sold, at the same price, always succeeds
      and restores the balance and both holdings. */
  lemma SellThenBuyRestores(w: Wallet, c: Coin, amount: real, price: real, s1: string, s2: string)
    requires WalletValid(w)
    requires Sold(w, c, amount, price, s1).Some?
    ensures var s := Sold(w, c, amount, price, s1).value;
      && Bought(s, c, amount, price, s2).Some?
      && var b := Bought(s, c, amount, price, s2).value;
      && b.balance == w.balance && b.buxcoin == w.buxcoin && b.bitcoin == w.bitcoin
  {
    var s := Sold(w, c, amount, price, s1).value;
    assert s.balance >= amount * price;
    var b := Bought(s, c, amount, price, s2).value;
    assert Holding(b, c) == Holding(w, c);
    assert c == Buxcoin || c == Bitcoin;
  }

  class UserManager {
    var users: map<string, Wallet>

    ghost predicate Valid()
      reads this
    {
      AllValid(users)
    }

    /** Start-up without a users file: no wallets. */
    constructor ()
      ensures users == map[]
      ensures Valid()
    {
      users := map[];
    }

    /** The user's wallet, created with the initial balance, no coins and an
        empty log when the id has none. */
    method GetUserWallet(id: string) returns (wallet: Wallet)
      modifies this
      ensures wallet == WalletOf(old(users), id)
      ensures users == WithWallet(old(users), id)
    {
      if id !in users {
        users := users[id := NEW_WALLET];
      }
      wallet := users[id];
    }

    method UpdateBalance(id: string, amount: real, stamp: string) returns (ok: bool)
      modifies this
      ensures Outcome(ok, users) == UpdateBalanceOutcome(old(users), id, amount, stamp)
    {
      var wallet := GetUserWallet(id);
      ghost var spec := BalanceUpdated(wallet, amount, stamp);
      var newBalance := wallet.balance + amount;
      if newBalance < 0.0 {
        return false;
      }
      var log := wallet.transactions;
      if amount != 0.0 {
        log := AppendTransaction(log, AdminBalanceUpdate(amount, newBalance, stamp));
      }
      assert spec.Some? && spec.value.transactions == log;
      wallet := wallet.(balance := newBalance, transactions := log);
      assert spec.value == wallet;
      StoreAfterLookup(old(users), id, wallet);
      users := users[id := wallet];
      ok := true;
    }

    method UpdateCurrency(id: string, currency: string, amount: real) returns (ok: bool)
      modifies this
      ensures Outcome(ok, users) == UpdateCurrencyOutcome(old(users), id, currency, amount)
    {
      var coin := ParseCoin(currency);
      if coin.None? {
        return false;
      }
      var wallet := GetUserWallet(id);
      var newAmount := Holding(wallet, coin.value) + amount;
      if newAmount < 0.0 {
        return false;
      }
      wallet := SetHolding(wallet, coin.value, newAmount);
      StoreAfterLookup(old(users), id, wallet);
      users := users[id := wallet];
      ok := true;
    }

    method BuyCurrency(id: string, currency: string, amount: real, price: real, stamp: string) returns (ok: bool)
      modifies this
      ensures Outcome(ok, users) == BuyOutcome(old(users), id, currency, amount, price, stamp)
    {
      var coin := ParseCoin(currency);
      if coin.None? {
        return false;
      }
      if amount < MIN_TRADE_AMOUNT {
        return false;
      }
      var totalCost := amount * price;
      var wallet := GetUserWallet(id);
      if wallet.balance < totalCost {
        return false;
      }
      wallet := PayForCoin(wallet, coin.value, amount, price, stamp);
      StoreAfterLookup(old(users), id, wallet);
      users := users[id := wallet];
      ok := true;
    }

    method SellCurrency(id: string, currency: string, amount: real, price: real, stamp: string) returns (ok: bool)
      modifies this
      ensures Outcome(ok, users) == SellOutcome(old(users), id, currency, amount, price, stamp)
    {
      var coin := ParseCoin(currency);
      if coin.None? {
        return false;
      }
      if amount < MIN_TRADE_AMOUNT {
        return false;
      }
      var wallet := GetUserWallet(id);
      if Holding(wallet, coin.value) < amount {
        return false;
      }
      wallet := PayOutCoin(wallet, coin.value, amount, price, stamp);
      StoreAfterLookup(old(users), id, wallet);
      users := users[id := wallet];
      ok := true;
    }
  }

  /** The part of `buy_currency` that changes the wallet once the checks
      have passed: pay the cost, credit the coin and log the purchase. */
  method PayForCoin(w: Wallet, c: Coin, amount: real, price: real, stamp: string) returns (paid: Wallet)
    requires amount >= MIN_TRADE_AMOUNT && w.balance >= amount * price
    ensures Bought(w, c, amount, price, stamp) == Some(paid)
  {
    var totalCost := amount * price;
    var log := AppendTransaction(w.transactions, Buy(CoinName(c), amount, price, totalCost, stamp));
    paid := SetHolding(w.(balance := w.balance - totalCost, transactions := log), c, Holding(w, c) + amount);
  }

  /** The part of `sell_currency` that changes the wallet once the checks
      have passed: debit the coin, credit the proceeds and log the sale. */
  method PayOutCoin(w: Wallet, c: Coin, amount: real, price: real, stamp: string) returns (sold: Wallet)
    requires amount >= MIN_TRADE_AMOUNT && Holding(w, c) >= amount
    ensures Sold(w, c, amount, price, stamp) == Some(sold)
  {
    var totalValue := amount * price;
    var log := AppendTransaction(w.transactions, Sell(CoinName(c), amount, price, totalValue, stamp));
    sold := SetHolding(w.(balance := w.balance + totalValue, transactions := log), c, Holding(w, c) - amount);
  }

  /** `transactions.append(t)` followed by `if len > 50: keep the last 50`,
      the step every logging wallet operation ends with. */
  method AppendTransaction(log: seq<Transaction>, t: Transaction) returns (r: seq<Transaction>)
    ensures r == Logged(log, t)
  {
    r := log + [t];
    if |r| > TRANSACTION_LIMIT {
      r := r[|r| - TRANSACTION_LIMIT..];
    }
  }
}
