# Buxcoin bot core, modelled in Dafny

Buxcoin is a Discord bot that runs a toy crypto economy. The bot tracks:
- the prices of two coins, `buxcoin` and `bitcoin`, with a per-coin history;
- a wallet per user: a euro balance, a holding of each coin, and a log of the last 50 transactions;
- a set of administrators, plus an optional log channel.

Every ten minutes a random walk moves each price. Users buy and sell at the current price. Administrators can give money, take money, reset wallets and override prices. At start-up, a data file that is missing or not valid JSON is replaced by its newest shutdown backup.

The model is organised as follows:

| module (file) | models |
|---|---|
| `Text` (`text.dfy`) | ASCII `str.lower()`, `startswith` and `endswith`. |
| `Retention` (`retention.dfy`) | The "append, then keep the newest n" rule. It is used for the 100-entry price history and the 50-entry transaction log. |
| `BotConfig` (`bot_config.dfy`) | The configuration constants, and the two coins as a `Coin` datatype with their parsing from a case-insensitive name. |
| `Prices` (`price_manager.dfy`) | The class `PriceManager`: a map of current prices, a map of histories and `lastUpdate`. Its operations are methods, with loops over the configured currencies. The random draws of one tick are a `Draw` parameter per currency, restricted to the ranges the random sources produce. The state invariant `Valid` says: every configured currency has a price, and a non-empty history of positive prices whose newest entry is that price. |
| `Users` (`user_manager.dfy`) | The class `UserManager`, whose `users` field maps ids to `Wallet` values. Each operation is specified by a pure function on the dictionary (`BuyOutcome`, `SellOutcome`, …) returning the success flag and the new dictionary. The lemmas about those functions carry the properties: validity, conservation of worth, buy/sell round trips. |
| `Admins` (`admin_manager.dfy`) | The class `AdminManager`: the admin set and the log channel. |
| `Commands` (`main.py`'s handlers, `commands.dfy`) | The guard chains of the admin, price-override, trading and wallet commands. Each refusal is a `Reply` value. A refusal by an argument or permission check leaves the state unchanged. A refusal after a wallet lookup keeps the wallet that the lookup created. After the guards comes the state change. The slash and prefix variants share one model, and where they differ the difference is a parameter. |
| `Startup` (`startup.dfy`) | `restore_latest_backup`. The directory listing with creation times, whether each main file parses, and the parsed backups are all parameters. |

Money, prices and amounts are `real`. Timestamps are opaque strings passed in by the caller.

Where the documentation and the code disagree, the model follows the code:
- The slash command `updatepriceset` accepts any positive price, even one below `MINIMUM_PRICE`. Only the prefix command `updateprice` enforces the minimum. So "a price never goes below the minimum" holds for the random walk (`UpdatePrices`) but is not a state invariant. `Valid` asks only that prices be positive.
- The upper bound of the random move is the literal 0.10 used in the code, not the configured maximum percentages.

## Model

| member | source | states |
|---|---|---|
| BotConfig.ParseCoin | user_manager.py:94-97 | A name is accepted iff its lower-case form is one of the configured currencies, and the coin it gives is named by that lower-case form. |
| BotConfig.ParseCoinIgnoresCase | user_manager.py:94 | Parsing a name and parsing its lower-cased form give the same result. |
| BotConfig.ParseCoinName | bot_config.py:13 | Every coin's configured name parses back to that coin. |
| BotConfig.CurrenciesDistinct | bot_config.py:13 | The two configured currencies are distinct lower-case names. |
| Text.LowerIdempotent | user_manager.py:94 | Lower-casing twice is the same as lower-casing once. |
| Retention.KeepNewest | price_manager.py:182-184 | `s[-n:]` applied only when `len(s) > n`: the result has length `min(len(s), n)` and is a suffix of `s`. |
| Retention.AppendCapped | price_manager.py:176-184 | After an append and a trim, the log has at most `n` entries and its last entry is the one appended. |
| Retention.CappedAppendComposes | price_manager.py:182-184 | Trimming before an append loses nothing that trimming after it would keep. |
| Retention.AppendAllCappedKeepsNewest | price_manager.py:176-184 | Capped appends leave exactly the newest `n` entries of the whole sequence, in order. This holds for at least one append to any log, or for any number of appends to a log within the cap. |
| Prices.Clamp | price_manager.py:165-169 | The result lies in [MINIMUM_PRICE, 1000000.0]. It equals the input inside that range and the nearer bound outside it. |
| Prices.Fluctuate | price_manager.py:142-169 | The new price is in the clamp range and is the clamp of `old + change`. The recorded change is the unclamped change of the branch. |
| Prices.RawChangeSign | price_manager.py:142-169 | Under valid draws, the first branch always raises the price and the second always lowers it. In the stability branch the move goes up iff the coin flip says up. The change is never zero, and a price inside the clamp range never falls on a rise and never rises on a fall. |
| Prices.RawChangeSize | price_manager.py:142-163 | The size of the change under valid draws is `old*p`: between 0.1% and 10% of the old price in the up and down branches, between 0.1% and 0.5% in the stability branch. |
| Prices.ChangeMatchesDeltaUnlessClamped | price_manager.py:154-180 | The recorded change equals `new - old` exactly when `old + change` was inside the clamp range. |
| Prices.ClampedChangeExample | price_manager.py:154-169 | Old price 1050 with a 10% downward move gives price 1000 and a recorded change of -105. |
| Prices.UpwardExample | price_manager.py:144-148 | Old price 3000 with a 5% upward move gives price 3150 and change 150. |
| Prices.SummaryOf | price_manager.py:205-224 | With two or more entries: the newest two entries' prices, the newest change and timestamp, and a percentage satisfying `pct * previous == (current - previous) * 100`. Otherwise: the current price twice, with no change. |
| Prices.TickStep | price_manager.py:137-184 | One more pass of the tick loop keeps the loop invariants: the currencies done so far are ticked, later ones are untouched, and keys outside the configured currencies are untouched. |
| Prices.TickedInRange | price_manager.py:165-169 | After a tick, every configured currency's price lies in [MINIMUM_PRICE, 1000000.0]. |
| Prices.TickedConsistent | price_manager.py:171-184 | A ticked currency's newest history entry carries its new price, and all its kept prices are positive. |
| Prices.TicksKeepConsistent | price_manager.py:137-184 | A tick of every currency preserves the state invariant. |
| Prices.ResetConsistent | price_manager.py:79-89 | A reset keeps a currency consistent. |
| Prices.ResetStep | price_manager.py:79-89 | One more pass of the reset loop keeps its loop invariants. |
| Prices.ResetsKeepConsistent | price_manager.py:79-89 | Resetting every currency preserves the state invariant. |
| Prices.PriceManager.constructor | price_manager.py:45-47 | Without a prices file, the state is the default prices, and it is valid. |
| Prices.PriceManager.InitializeDefaultPrices | price_manager.py:52-71 | Exactly the configured currencies have a price and a history. Each price is INITIAL_PRICE, each history is a single entry with change 0.0, `lastUpdate` is None, and the state is valid. |
| Prices.PriceManager.ForceResetToInitialPrice | price_manager.py:75-93 | Every configured currency is set to INITIAL_PRICE, and its history gains exactly one `reset` entry with change 0.0 and no trimming. Other keys are unchanged, `lastUpdate` is set, and validity is kept. |
| Prices.PriceManager.GetCurrentPrices | price_manager.py:111-113 | In a valid state, every configured currency has a positive price in the copy. |
| Prices.GetPriceIgnoresCase | price_manager.py:115-117 | A name in any case is quoted at the price of its lower-case form. |
| Prices.ValidPricePositive | price_manager.py:115-117 | In a valid state, a configured currency is quoted at a positive price. |
| Prices.PriceManager.GetPriceHistory | price_manager.py:123-130 | Empty for an unknown (lower-cased) currency. The newest `limit` entries when `0 < limit`, and the whole history otherwise, always as a suffix of the history in order. |
| Prices.PriceManager.TickCurrency | price_manager.py:138-184 | One currency's price becomes `Fluctuate(old, d).price`. Its history gains the matching entry and is trimmed to the newest 100. Nothing else changes. |
| Prices.PriceManager.UpdatePrices | price_manager.py:132-198 | Every configured currency is ticked by its draw, and every price ends in the clamp range. Other keys are untouched, `lastUpdate` is set, and validity is kept. |
| Prices.RepeatedTicksKeepNewest | price_manager.py:182-184 | Repeated ticks of one currency keep exactly the newest 100 entries of the old history followed by the new entries, in order. This holds for every old history once there is a tick, including one that overrides and resets grew past 100. |
| Prices.PriceManager.GetPriceChangeSummary | price_manager.py:200-226 | The summary has exactly the configured currencies, each summarised by `SummaryOf`, and each reports the current price. |
| Users.WithWallet | user_manager.py:53-59 | After the lookup, the dictionary maps the id to its wallet. It is unchanged when the id already had one. |
| Users.UserManager.GetUserWallet | user_manager.py:50-61 | Returns the user's wallet, creating and storing a new one only when the id has none. |
| Users.Logged | user_manager.py:82-86 | The log after recording `t` ends with `t`, holds at most 50 entries, and is the newest 50 of the old log followed by `t`. |
| Users.AppendTransaction | user_manager.py:82-86 | The append-then-trim step produces `Logged(log, t)`. |
| Users.BalanceUpdated | user_manager.py:63-89 | Refused iff the new balance would be negative. Otherwise the balance changes by `amount`, the holdings are unchanged, and one entry is logged iff `amount != 0`. |
| Users.UpdateBalanceOutcome | user_manager.py:63-89 | Succeeds iff `balance + amount >= 0`. On success only the user's wallet changes, to `BalanceUpdated`'s result, and the stored balance is `balance + amount`. On refusal, only the lookup's wallet creation remains. |
| Users.UserManager.UpdateBalance | user_manager.py:63-89 | The method's flag and new dictionary are `UpdateBalanceOutcome` of the old dictionary. |
| Users.CurrencyUpdated | user_manager.py:99-105 | Refused iff the holding would be negative. Otherwise only that holding changes, by `amount`. |
| Users.UpdateCurrencyOutcome | user_manager.py:91-107 | An unknown currency is refused before any wallet is created. Otherwise it succeeds iff `holding + amount >= 0`. On success only the user's wallet changes, to `CurrencyUpdated`'s result, and the holding becomes `holding + amount`. On refusal, only the lookup's wallet creation remains. |
| Users.UserManager.UpdateCurrency | user_manager.py:91-107 | The method's flag and new dictionary are `UpdateCurrencyOutcome` of the old dictionary. |
| Users.Bought | user_manager.py:117-144 | Refused iff the amount is below 0.0001 or the balance is below `amount*price`. Otherwise the balance drops by `amount*price`, the coin rises by `amount`, the other coin is unchanged, and one `buy` entry is logged. |
| Users.BuyOutcome | user_manager.py:109-147 | An unknown currency or a too-small amount is refused with no change at all. Otherwise it succeeds iff the balance covers `amount*price`, and a refusal leaves only the wallet creation. |
| Users.BuyOutcomeOnSuccess | user_manager.py:127-129 | On success only the buyer's wallet changes: it is `Bought`'s result, whose balance dropped by exactly `amount*price` and whose holding rose by exactly `amount`. |
| Users.PayForCoin | user_manager.py:127-144 | Once the checks have passed, the wallet update is `Bought`'s result. |
| Users.UserManager.BuyCurrency | user_manager.py:109-147 | The method's flag and new dictionary are `BuyOutcome` of the old dictionary. |
| Users.Sold | user_manager.py:157-185 | Refused iff the amount is below 0.0001 or the holding is below it. Otherwise the holding drops by `amount`, the balance rises by `amount*price`, the other coin is unchanged, and one `sell` entry is logged. |
| Users.SellOutcome | user_manager.py:149-188 | An unknown currency or a too-small amount is refused with no change at all. Otherwise it succeeds iff the holding covers `amount`, and a refusal leaves only the wallet creation. |
| Users.SellOutcomeOnSuccess | user_manager.py:166-170 | On success only the seller's wallet changes: it is `Sold`'s result, whose holding dropped by exactly `amount` and whose balance rose by exactly `amount*price`. |
| Users.PayOutCoin | user_manager.py:166-185 | Once the checks have passed, the wallet update is `Sold`'s result. |
| Users.UserManager.SellCurrency | user_manager.py:149-188 | The method's flag and new dictionary are `SellOutcome` of the old dictionary. |
| Users.SetHolding | user_manager.py:105 | Sets one holding and leaves the other holding, the balance and the log as they were. |
| Users.NewWalletValid | user_manager.py:54-59 | A new wallet is valid, holds no coin, has INITIAL_BALANCE and an empty log. |
| Users.SettleKeepsValid | user_manager.py:53-61 | Creating a wallet on lookup, and storing a valid wallet, keep every stored wallet valid. |
| Users.BalanceUpdateKeepsValid | user_manager.py:69-86 | A successful balance update leaves a valid wallet valid. |
| Users.CurrencyUpdateKeepsValid | user_manager.py:102-105 | A successful holding update leaves a valid wallet valid. |
| Users.BuyKeepsValid | user_manager.py:124-129 | A purchase is refused unless the balance covers it, so it never overdraws. |
| Users.SellKeepsValid | user_manager.py:163-170 | A sale at a non-negative price never leaves a negative balance or holding. |
| Users.UpdateBalanceOutcomeValid | user_manager.py:63-89 | `update_balance` keeps every stored wallet valid. |
| Users.UpdateCurrencyOutcomeValid | user_manager.py:91-107 | `update_currency` keeps every stored wallet valid. |
| Users.BuyOutcomeValid | user_manager.py:109-147 | `buy_currency` keeps every stored wallet valid, whatever the price. |
| Users.SellOutcomeValid | user_manager.py:149-188 | `sell_currency` at a non-negative price keeps every stored wallet valid. |
| Users.TradesConserveWorth | user_manager.py:127-128 | A purchase or a sale leaves `balance + holding * price` unchanged at the trade price. |
| Users.BuyThenSellRestores | user_manager.py:127-129 | Selling right back what was just bought, at the same price, always succeeds and restores the balance and both holdings. |
| Users.SellThenBuyRestores | user_manager.py:166-170 | Buying right back what was just sold, at the same price, always succeeds and restores the balance and both holdings. |
| Users.UserManager.constructor | user_manager.py:33-36 | Without a users file there are no wallets, which is a valid state. |
| Admins.AdminManager.constructor | admin_manager.py:33-35 | Without an admin file there are no admins and no log channel. |
| Admins.AdminManager.AddAdmin | admin_manager.py:60-64 | Afterwards the user is an admin. Adding an existing admin changes nothing, and the log channel is untouched. |
| Admins.AdminManager.RemoveAdmin | admin_manager.py:66-73 | Returns true iff the user was an admin. Afterwards it is not, every other admin remains, and a non-admin's removal changes nothing. |
| Admins.AdminManager.GetAdmins | admin_manager.py:75-77 | The list holds exactly the admins, each once. |
| Admins.AdminManager.SetLogChannel | admin_manager.py:79-87 | `get_log_channel` then returns the channel, and the admin set is untouched. |
| Commands.AddAdminReply | main.py:1108-1119 | Done iff the caller is an admin or there is no admin, and the target is not already one. Not authorised iff the caller is not an admin while admins exist. |
| Commands.AddAdminCommand | main.py:1105-1130 | The reply is `AddAdminReply`, and the target is added exactly when the reply is Done. |
| Commands.RemoveAdminReply | main.py:1140-1159 | Done iff the caller and the target are admins, there are at least two admins, and the target is not the caller. |
| Commands.RemoveAdminKeepsAnAdmin | main.py:1148-1157 | No removal empties a non-empty admin set, no caller loses their own rights, and at most one admin goes. |
| Commands.RemoveAdminCommand | main.py:1137-1159 | The reply is `RemoveAdminReply`, and the target is removed exactly when the reply is Done. |
| Commands.OverrideReply | main.py:1616-1632 | Done iff the caller is an admin, the currency is known and the price positive, and, for the prefix variant only, the price is at least MINIMUM_PRICE. |
| Commands.SlashOverrideBelowMinimum | main.py:978-980 | A price of 500 is accepted by the slash variant and refused by the prefix variant. |
| Commands.WithManualEntry | main.py:986-992 | The override appends exactly one `manual` entry with change 0.0, and keeps the earlier history untrimmed. |
| Commands.OverrideKeepsConsistent | main.py:983-992 | An override with a positive price keeps every currency consistent. |
| Commands.OverridePrice | main.py:968-994 | The reply is `OverrideReply`, except that a currency with no history fails. On Done, the price is set, one manual entry is appended and `lastUpdate` is set. On that failure, only the price has been written. Any other refusal changes nothing. Validity is kept, and a valid state never fails. |
| Commands.TradeReply | main.py:845-857 | An unknown currency, an amount `<= 0`, or an amount below 0.0001 is refused, in that order, before any wallet is looked at. |
| Commands.TradeIgnoresCase | main.py:845 | Handing the wallet operations the lower-cased name changes nothing. |
| Commands.BuyCommand | main.py:845-862 | A refused argument check changes no wallet. Otherwise the dictionary is `BuyOutcome` at the quoted price, and the reply says whether the purchase succeeded. |
| Commands.SellCommand | main.py:888-905 | A refused argument check changes no wallet. Otherwise the dictionary is `SellOutcome` at the quoted price, and the reply says whether the sale succeeded. |
| Commands.SellAtQuoteKeepsValid | main.py:902-905 | A sale at the price the valid price state quotes keeps every wallet valid. |
| Commands.GiveCommand | main.py:932-940 | A non-admin or a non-positive amount changes nothing. Otherwise the dictionary is `UpdateBalanceOutcome` of the amount. |
| Commands.GiveSucceeds | main.py:940 | Giving a positive amount always succeeds and keeps every wallet valid. |
| Commands.RemoveMoneyCommand | main.py:1236-1256 | A non-admin, a missing user or amount, or a non-positive amount changes nothing. A short balance leaves only the lookup's wallet creation. Otherwise the balance drops by the amount and stays non-negative, and validity is kept. |
| Commands.ResetUserCommand | main.py:1276-1287 | An admin's reset stores a new wallet for the user, whether or not there was one. Anything else changes nothing. |
| Startup.Backups | main.py:164 | The backups of one kind: exactly the listed files with the kind's prefix and the `.json` suffix, and no more of them than listed files. Their positions in the listing are given by `BackupPosition`. |
| Startup.NewestIndex | main.py:166 | `max(key=ctime)`: an entry no other entry is newer than, and strictly newer than every entry before it. |
| Startup.Chosen | main.py:162-166 | A backup is chosen iff the data directory exists, the main file does not parse, and a backup of that kind exists. The chosen name belongs to a backup at least as new as every other. |
| Startup.ChosenIsFirstNewest | main.py:164-166 | Among the newest backups, the chosen one is the first in listing order. |
| Startup.RestoreUsers | main.py:162-180 | The users become the chosen backup's contents when a backup is chosen and it parses. Otherwise they stay. |
| Startup.RestorePrices | main.py:182-205 | On a chosen backup that parses, the prices and the history are taken from the backup (`{}` when absent). `lastUpdate` is taken too when it is non-empty and parses. Otherwise nothing changes. |
| Startup.RestoreLatestBackup | main.py:126-212 | Without a data directory nothing changes. Otherwise the users and the prices are each restored as above. |

## Left out

- File I/O is not modelled. This covers `load_*`, `save_*` and `ensure_data_directory` in the three managers, and the JSON parsing in `restore_latest_backup`. The constructors model only the no-file branch, and the start-up code receives the parse results as parameters.
- Discord, the web server, the scheduler, the periodic auto-save, the shutdown backups, signals and logging are not modelled. They are I/O or concurrency around the modelled state.
- `random.random`, `random.uniform`, `random.choice` and `datetime.now` are parameters: `Draw` values and timestamp strings.
- Python floats are modelled as exact reals, so IEEE rounding is not modelled.
- `str.lower()` is modelled for ASCII letters only. Python lower-cases all of Unicode.
- The model stores wallets as values, so the in-place mutation of the dictionary returned by `get_user_wallet` is not modelled. Any aliasing of that dictionary by a caller is outside the model.
- `str(user_id)` is not modelled: wallet ids are strings from the start.
- `get_last_update`, `get_all_users`, `backup_users` and `reset_prices` are not modelled. The first three are plain reads or copies; `reset_prices` only calls `initialize_default_prices`.
- Adding the owner as an admin at start-up, `setuplogschannel` and `listadmins` are not modelled. They are handlers outside the modelled decision logic.
- Prices.PriceManager.ForceResetToInitialPrice: demands that every configured currency has a history, where the source raises `KeyError` partway through the loop.
- Prices.PriceManager.UpdatePrices: demands that every configured currency has a price and a history, where the source raises `KeyError` partway through the loop.
- Prices.PriceManager.TickCurrency: demands that the currency has a price and a history, where the source raises `KeyError`.
- Prices.PriceManager.GetPriceChangeSummary: demands the state invariant, which excludes its `KeyError` on a missing currency and its division by a zero previous price.
- Prices.PriceManager.GetPriceHistory: the limit is always passed explicitly, so the source's default of 30 entries is not modelled.
- Wallet validity for `UserManager`'s methods and for the `buy`, `sell` and `give` commands is not stated in the methods. Each method's ensures ties it to its outcome function, and validity is proved by the outcome lemmas (`BuyOutcomeValid`, `SellAtQuoteKeepsValid`, `GiveSucceeds`, …).
- Startup.RestorePrices: a `last_update` that does not parse as ISO 8601 is given as a flag. A failure to read the backup is given by its absence from the parsed backups. The outer exception handler of `restore_latest_backup` is not modelled.
- Admins.AdminManager.IsAdmin and Admins.AdminManager.GetLogChannel are field reads with no contract of their own. `AddAdmin`, `RemoveAdmin` and `SetLogChannel` state their results.
