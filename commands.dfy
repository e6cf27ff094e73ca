/** The decision logic of the bot's commands: each handler is a chain of
    guards, each refusing with its own reply, followed by the state change.
    A refusal by an argument or permission guard changes nothing; a refusal
    made after a wallet lookup keeps the wallet the lookup created. The slash and prefix variants of a command share one
    model; where they differ the difference is a parameter. */
module Commands {
  import opened Text
  import opened Retention
  import opened BotConfig
  import opened Prices
  import opened Users
  import opened Admins

  /** Which message a handler answers with. */
  datatype Reply =
    | Done
    | NotAuthorised
    | AlreadyAdmin
    | NotAnAdmin
    | LastAdmin
    | SelfRemoval
    | InvalidCurrency
    | NotPositive
    | BelowMinimumAmount
    | BelowMinimumPrice
    | InsufficientFunds
    | InsufficientCoin
    | Usage
    | Failed

  // ---------------------------------------------------------------- admins

  /** `addadmin`: allowed to an admin, or to anyone while there is no admin
      at all; an existing admin cannot be added again. */
  function AddAdminReply(admins: set<int>, caller: int, target: int): (r: Reply)
    ensures r == Done <==> (caller in admins || admins == {}) && target !in admins
    ensures r == NotAuthorised <==> caller !in admins && admins != {}
    ensures r == Done || r == NotAuthorised || r == AlreadyAdmin
  {
    if caller !in admins && |admins| > 0 then NotAuthorised
    else if target in admins then AlreadyAdmin
    else Done
  }

  /** `removeadmin`: only an admin may remove, only an admin can be removed,
      never the last admin and never oneself. */
  function RemoveAdminReply(admins: set<int>, caller: int, target: int): (r: Reply)
    ensures r == Done <==> caller in admins && target in admins && |admins| > 1 && target != caller
    ensures r == Done || r == NotAuthorised || r == NotAnAdmin || r == LastAdmin || r == SelfRemoval
  {
    if caller !in admins then NotAuthorised
    else if target !in admins then NotAnAdmin
    else if |admins| <= 1 then LastAdmin
    else if target == caller then SelfRemoval
    else Done
  }

  /** The admin set after `removeadmin`. */
  function AfterRemoveAdmin(admins: set<int>, caller: int, target: int): set<int> {
    if RemoveAdminReply(admins, caller, target) == Done then admins - {target} else admins
  }

  /** No `removeadmin` can empty a non-empty admin set, and no admin loses
      their own rights through it. */
  lemma {:induction false} RemoveAdminKeepsAnAdmin(admins: set<int>, caller: int, target: int)
    ensures caller in admins ==> caller in AfterRemoveAdmin(admins, caller, target)
    ensures admins != {} ==> AfterRemoveAdmin(admins, caller, target) != {}
    ensures |AfterRemoveAdmin(admins, caller, target)| >= |admins| - 1
  {
    var after := AfterRemoveAdmin(admins, caller, target);
    if RemoveAdminReply(admins, caller, target) == Done {
      assert caller in after;
      assert |after| == |admins| - 1;
    } else if admins != {} {
      assert after == admins;
    }
  }

  method AddAdminCommand(am: AdminManager, caller: int, target: int) returns (reply: Reply)
    modifies am
    ensures reply == AddAdminReply(old(am.admins), caller, target)
    ensures am.admins == if reply == Done then old(am.admins) + {target} else old(am.admins)
    ensures am.logChannel == old(am.logChannel)
  {
    var adminList := am.GetAdmins();
    if !am.IsAdmin(caller) && |adminList| > 0 {
      return NotAuthorised;
    }
    if am.IsAdmin(target) {
      return AlreadyAdmin;
    }
    am.AddAdmin(target);
    reply := Done;
  }

  method RemoveAdminCommand(am: AdminManager, caller: int, target: int) returns (reply: Reply)
    modifies am
    ensures reply == RemoveAdminReply(old(am.admins), caller, target)
    ensures am.admins == AfterRemoveAdmin(old(am.admins), caller, target)
    ensures am.logChannel == old(am.logChannel)
  {
    if !am.IsAdmin(caller) {
      return NotAuthorised;
    }
    if !am.IsAdmin(target) {
      return NotAnAdmin;
    }
    var adminList := am.GetAdmins();
    if |adminList| <= 1 {
      return LastAdmin;
    }
    if target == caller {
      return SelfRemoval;
    }
    var removed := am.RemoveAdmin(target);
    reply := if removed then Done else Failed;
  }

  // -------------------------------------------------------- price override

  /** `updatepriceset` (slash) and `updateprice` (prefix). */
  datatype PriceCommand = SlashSet | PrefixSet

  /** Both variants refuse a non-admin, an unknown currency and a price that
      is not positive; only the prefix variant also refuses a price below
      the minimum. */
  function OverrideReply(cmd: PriceCommand, callerIsAdmin: bool, currency: string, price: real): (r: Reply)
    ensures r == Done <==>
      callerIsAdmin && Lower(currency) in CURRENCIES && price > 0.0 && (cmd == PrefixSet ==> price >= MINIMUM_PRICE)
    ensures !callerIsAdmin ==> r == NotAuthorised
    ensures r == BelowMinimumPrice ==> cmd == PrefixSet && price < MINIMUM_PRICE
  {
    if !callerIsAdmin then NotAuthorised
    else if Lower(currency) !in CURRENCIES then InvalidCurrency
    else if price <= 0.0 then NotPositive
    else if cmd == PrefixSet && price < MINIMUM_PRICE then BelowMinimumPrice
    else Done
  }

  /** The slash variant accepts a price the prefix variant refuses: 500 is
      positive but below the minimum of 1000. */
  lemma SlashOverrideBelowMinimum()
    ensures OverrideReply(SlashSet, true, "buxcoin", 500.0) == Done
    ensures OverrideReply(PrefixSet, true, "buxcoin", 500.0) == BelowMinimumPrice
    ensures 500.0 < MINIMUM_PRICE
  {
    assert Lower("buxcoin") == "buxcoin";
  }

  /** A currency's history after a manual override: exactly one `manual`
      entry with change 0.0 is appended, and nothing is trimmed. */
  function WithManualEntry(h: seq<HistoryEntry>, price: real, stamp: string): (r: seq<HistoryEntry>)
    ensures |r| == |h| + 1 && r[..|h|] == h
    ensures r[|h|].price == price && r[|h|].change == 0.0 && r[|h|].manual && !r[|h|].reset
  {
    h + [ManualEntry(price, stamp)]
  }

  /** An override with a positive price keeps every currency consistent. */
  lemma {:induction false} OverrideKeepsConsistent(prices: map<string, real>, history: map<string, seq<HistoryEntry>>,
                                                   c: string, price: real, stamp: string)
    requires forall i :: 0 <= i < |CURRENCIES| ==> CurrencyConsistent(prices, history, CURRENCIES[i])
    requires c in history && price > 0.0
    ensures forall i :: 0 <= i < |CURRENCIES| ==>
      CurrencyConsistent(prices[c := price], history[c := WithManualEntry(history[c], price, stamp)], CURRENCIES[i])
  {
    var p := prices[c := price];
    var h := history[c := WithManualEntry(history[c], price, stamp)];
    forall i | 0 <= i < |CURRENCIES| ensures CurrencyConsistent(p, h, CURRENCIES[i]) {
      var d := CURRENCIES[i];
      assert CurrencyConsistent(prices, history, d);
      if d == c {
        var hd := h[d];
        forall k | 0 <= k < |hd| ensures hd[k].price > 0.0 {
          if k < |history[c]| {
            assert hd[k] == history[c][k];
          }
        }
      }
    }
  }

  /** The manual price override of both variants. The price is written
      before the history is touched, so a currency with a price but no
      history is left with the new price and the handler fails on the
      missing history key, changing nothing else. */
  method OverridePrice(am: AdminManager, pm: PriceManager, cmd: PriceCommand, caller: int,
                       currency: string, price: real, stamp: string, now: string) returns (reply: Reply)
    modifies pm
    ensures var guards := OverrideReply(cmd, caller in old(am.admins), currency, price);
      reply == if guards == Done && Lower(currency) !in old(pm.priceHistory) then Failed else guards
    ensures reply == Done ==>
      var c := Lower(currency);
      && pm.currentPrices == old(pm.currentPrices)[c := price]
      && pm.priceHistory == old(pm.priceHistory)[c := WithManualEntry(old(pm.priceHistory)[c], price, stamp)]
      && pm.lastUpdate == Some(now)
    ensures reply == Failed ==>
      pm.currentPrices == old(pm.currentPrices)[Lower(currency) := price]
      && pm.priceHistory == old(pm.priceHistory) && pm.lastUpdate == old(pm.lastUpdate)
    ensures reply != Done && reply != Failed ==>
      pm.currentPrices == old(pm.currentPrices) && pm.priceHistory == old(pm.priceHistory) && pm.lastUpdate == old(pm.lastUpdate)
    ensures old(pm.Valid()) ==> reply != Failed && pm.Valid()
  {
    if !am.IsAdmin(caller) {
      return NotAuthorised;
    }
    var c := Lower(currency);
    if c !in CURRENCIES {
      return InvalidCurrency;
    }
    if price <= 0.0 {
      return NotPositive;
    }
    if cmd == PrefixSet && price < MINIMUM_PRICE {
      return BelowMinimumPrice;
    }
    pm.currentPrices := pm.currentPrices[c := price];
    if c !in pm.priceHistory {
      return Failed;
    }
    pm.priceHistory := pm.priceHistory[c := pm.priceHistory[c] + [ManualEntry(price, stamp)]];
    pm.lastUpdate := Some(now);
    reply := Done;
    if old(pm.Valid()) {
      OverrideKeepsConsistent(old(pm.currentPrices), old(pm.priceHistory), c, price, stamp);
    }
  }

  // ------------------------------------------------------------- trading

  /** The argument checks of `buy` and `sell`, made before any wallet is
      looked at. */
  function TradeReply(crypto: string, amount: real): (r: Reply)
    ensures r == Done <==> ParseCoin(crypto).Some? && amount >= MIN_TRADE_AMOUNT
    ensures ParseCoin(crypto).None? ==> r == InvalidCurrency
    ensures ParseCoin(crypto).Some? && amount <= 0.0 ==> r == NotPositive
    ensures ParseCoin(crypto).Some? && 0.0 < amount < MIN_TRADE_AMOUNT ==> r == BelowMinimumAmount
  {
    if Lower(crypto) !in CURRENCIES then InvalidCurrency
    else if amount <= 0.0 then NotPositive
    else if amount < MIN_TRADE_AMOUNT then BelowMinimumAmount
    else Done
  }

  /** The wallet operations depend on the currency only through its parsed
      coin, so handing them the lower-cased name changes nothing. */
  lemma {:induction false} TradeIgnoresCase(users: map<string, Wallet>, id: string, crypto: string,
                                            amount: real, price: real, stamp: string)
    ensures BuyOutcome(users, id, Lower(crypto), amount, price, stamp) == BuyOutcome(users, id, crypto, amount, price, stamp)
    ensures SellOutcome(users, id, Lower(crypto), amount, price, stamp) == SellOutcome(users, id, crypto, amount, price, stamp)
  {
    ParseCoinIgnoresCase(crypto);
  }

  /** `buy`: the argument checks, then `buy_currency` at the current price. */
  method BuyCommand(um: UserManager, pm: PriceManager, caller: string, crypto: string, amount: real, stamp: string)
      returns (reply: Reply)
    modifies um
    ensures TradeReply(crypto, amount) != Done ==> reply == TradeReply(crypto, amount) && um.users == old(um.users)
    ensures TradeReply(crypto, amount) == Done ==>
      var o := BuyOutcome(old(um.users), caller, Lower(crypto), amount, old(pm.GetPrice(Lower(crypto))), stamp);
      um.users == o.users && reply == (if o.ok then Done else InsufficientFunds)
  {
    reply := TradeReply(crypto, amount);
    if reply != Done {
      return;
    }
    var c := Lower(crypto);
    var price := pm.GetPrice(c);
    var ok := um.BuyCurrency(caller, c, amount, price, stamp);
    ghost var o := BuyOutcome(old(um.users), caller, c, amount, price, stamp);
    assert Outcome(ok, um.users) == o;
    reply := if ok then Done else InsufficientFunds;
  }

  /** `sell`: the argument checks, then `sell_currency` at the current
      price. */
  method SellCommand(um: UserManager, pm: PriceManager, caller: string, crypto: string, amount: real, stamp: string)
      returns (reply: Reply)
    modifies um
    ensures TradeReply(crypto, amount) != Done ==> reply == TradeReply(crypto, amount) && um.users == old(um.users)
    ensures TradeReply(crypto, amount) == Done ==>
      var o := SellOutcome(old(um.users), caller, Lower(crypto), amount, old(pm.GetPrice(Lower(crypto))), stamp);
      um.users == o.users && reply == (if o.ok then Done else InsufficientCoin)
  {
    reply := TradeReply(crypto, amount);
    if reply != Done {
      return;
    }
    var c := Lower(crypto);
    var price := pm.GetPrice(c);
    var ok := um.SellCurrency(caller, c, amount, price, stamp);
    ghost var o := SellOutcome(old(um.users), caller, c, amount, price, stamp);
    assert Outcome(ok, um.users) == o;
    reply := if ok then Done else InsufficientCoin;
  }

  /** A sale at the price the price manager quotes keeps every wallet
      valid: under the price state's invariant that price is positive. */
  lemma {:induction false} SellAtQuoteKeepsValid(pm: PriceManager, users: map<string, Wallet>, caller: string,
                                                 crypto: string, amount: real, stamp: string)
    requires pm.Valid() && AllValid(users) && TradeReply(crypto, amount) == Done
    ensures AllValid(SellOutcome(users, caller, crypto, amount, pm.GetPrice(crypto), stamp).users)
  {
    ValidPricePositive(pm, crypto);
    SellOutcomeValid(users, caller, crypto, amount, pm.GetPrice(crypto), stamp);
  }

  // ------------------------------------------------------ money and wallets

  /** `give`: an admin adds a positive amount to a user's balance. */
  method GiveCommand(am: AdminManager, um: UserManager, caller: int, target: string, amount: real, stamp: string)
      returns (reply: Reply)
    modifies um
    ensures caller !in old(am.admins) ==> reply == NotAuthorised && um.users == old(um.users)
    ensures caller in old(am.admins) && amount <= 0.0 ==> reply == NotPositive && um.users == old(um.users)
    ensures caller in old(am.admins) && amount > 0.0 ==>
      var o := UpdateBalanceOutcome(old(um.users), target, amount, stamp);
      um.users == o.users && reply == (if o.ok then Done else Failed)
  {
    if !am.IsAdmin(caller) {
      return NotAuthorised;
    }
    if amount <= 0.0 {
      return NotPositive;
    }
    var ok := um.UpdateBalance(target, amount, stamp);
    reply := if ok then Done else Failed;
  }

  /** Giving a positive amount to a valid dictionary always succeeds (so
      `give` never answers `Failed`) and keeps every wallet valid. */
  lemma {:induction false} GiveSucceeds(users: map<string, Wallet>, target: string, amount: real, stamp: string)
    requires AllValid(users) && amount > 0.0
    ensures UpdateBalanceOutcome(users, target, amount, stamp).ok
    ensures AllValid(UpdateBalanceOutcome(users, target, amount, stamp).users)
  {
    assert WalletValid(WalletOf(users, target));
    UpdateBalanceOutcomeValid(users, target, amount, stamp);
  }

  /** `removeuser` (prefix) and `adminaction removeuser` (slash, whose user
      and amount are optional): an admin takes a positive amount from a
      user who has at least that much. The wallet is created by the lookup
      even when the removal is then refused. */
  method RemoveMoneyCommand(am: AdminManager, um: UserManager, caller: int, target: Option<string>,
                            amount: Option<real>, stamp: string) returns (reply: Reply)
    modifies um
    ensures caller !in old(am.admins) ==> reply == NotAuthorised && um.users == old(um.users)
    ensures caller in old(am.admins) && (target.None? || amount.None?) ==> reply == Usage && um.users == old(um.users)
    ensures caller in old(am.admins) && target.Some? && amount.Some? && amount.value <= 0.0 ==>
      reply == NotPositive && um.users == old(um.users)
    ensures caller in old(am.admins) && target.Some? && amount.Some? && amount.value > 0.0 ==>
      var w := WalletOf(old(um.users), target.value);
      && (reply == Done <==> w.balance >= amount.value)
      && (reply != Done ==> reply == InsufficientFunds && um.users == WithWallet(old(um.users), target.value))
      && (reply == Done ==>
            um.users == old(um.users)[target.value := BalanceUpdated(w, -amount.value, stamp).value]
            && um.users[target.value].balance == w.balance - amount.value >= 0.0)
    ensures old(um.Valid()) ==> um.Valid()
  {
    if !am.IsAdmin(caller) {
      return NotAuthorised;
    }
    if target.None? || amount.None? {
      return Usage;
    }
    if amount.value <= 0.0 {
      return NotPositive;
    }
    var wallet := um.GetUserWallet(target.value);
    if wallet.balance < amount.value {
      return InsufficientFunds;
    }
    ghost var looked := um.users;
    var ok := um.UpdateBalance(target.value, -amount.value, stamp);
    reply := if ok then Done else Failed;
    assert WalletOf(looked, target.value) == wallet;
    if old(um.Valid()) {
      UpdateBalanceOutcomeValid(looked, target.value, -amount.value, stamp);
    }
  }

  /** `resetuser` (prefix) and `adminaction resetuser` (slash): an admin
      replaces a user's wallet by a new one, whether or not there was one. */
  method ResetUserCommand(am: AdminManager, um: UserManager, caller: int, target: Option<string>) returns (reply: Reply)
    modifies um
    ensures caller !in old(am.admins) ==> reply == NotAuthorised && um.users == old(um.users)
    ensures caller in old(am.admins) && target.None? ==> reply == Usage && um.users == old(um.users)
    ensures caller in old(am.admins) && target.Some? ==> reply == Done && um.users == old(um.users)[target.value := NEW_WALLET]
    ensures old(um.Valid()) ==> um.Valid()
  {
    if !am.IsAdmin(caller) {
      return NotAuthorised;
    }
    if target.None? {
      return Usage;
    }
    um.users := um.users[target.value := NEW_WALLET];
    reply := Done;
    if old(um.Valid()) {
      NewWalletValid();
      SettleKeepsValid(old(um.users), target.value, Some(NEW_WALLET));
    }
  }
}
