# Cashflow2 server core in Dafny

A model of the money-handling core of the Cashflow2 board-game server (C#,
ASP.NET). It covers four pieces:

- **Financial entities**: assets with their loan amount and monthly income, and liabilities. For a liability the model covers:
  - its monthly payment, with separate rules for revolving lines, interest-free loans and amortizing loans;
  - the one-month amortization step;
  - the player's derived figures: income, taxes, child expenses, expenses and net income;
  - choosing a profession.
- **Loan bookkeeping**: taking out a personal loan and paying down a liability, both done in place on the player.
- **Stock market**: covers
  - the fixed ten-security catalog;
  - the per-turn price walk, with the normal draw passed in as a value;
  - ETF prices as the rounded mean of their components;
  - buying and selling with a volume-weighted average cost;
  - dividend income.
- **Deal and offer generation**: covers
  - the weighted choice of an asset type from a weight table;
  - the per-type rules for quantity, equity, value, rate of return and name;
  - the buyer offers of the market, with every random draw passed in as a value.

Money is C# `decimal` in the server and an exact `real` here. `Math.Round(x, 2)`
is `Money.Round2`, which rounds half to even as .NET does. Objects that the server
updates in place are classes:
- `Liability`, `Player`, `Profession`, `StockMarket` and `Game`;
- the shared `List<T>` of assets and liabilities, modelled as `Collections.List`.

Values are datatypes. Each state-changing method is proved against a function on
values:
- `AmortizationStep`;
- `RecalculatedETFs` and `SteppedPrices`;
- `Buy` and `Sell`;
- `DividendTotal`.

The properties are proved about those functions. For example, `AmortizationStepBalance`
states the new balance and the pay-off condition of one step in terms of the old terms.

Modules, one per file: `Money`, `Wrappers`, `Collections`, `FinancialData`,
`PlayerData`, `GameData`, `LoanService`, `StockMarketData`, `StockMarketService`,
`AssetGenerator`, `MarketGenerator`.

## Model

| member | source | states |
|---|---|---|
| Money.Round2 | Cashflow2/Cashflow.API/Entities/FinancialData.cs:56-60 | `Math.Round(x, 2)`: a whole number of cents within half a cent of `x`; an amount already in cents is unchanged |
| Money.Round2TiesToEven | Cashflow2/Cashflow.API/Entities/FinancialData.cs:56-60 | an amount exactly halfway between two cents rounds to the neighbour with an even number of cents (`MidpointRounding.ToEven`, the default of `Math.Round`) |
| Money.Round2Ties | Cashflow2/Cashflow.API/Entities/FinancialData.cs:56-60 | concrete ties: 0.125 rounds down to 0.12 and 0.135 rounds up to 0.14 |
| Money.Round2Monotone | Cashflow2/Cashflow.API/Services/StockMarketService.cs:72 | rounding to cents never reverses the order of two amounts |
| Money.Round2Sign | Cashflow2/Cashflow.API/Services/StockMarketService.cs:145 | rounding to cents keeps the sign of an amount |
| Money.Clamp | Cashflow2/Cashflow.API/Services/StockMarketService.cs:54 | `Math.Clamp`: the result lies in the bounds and equals the input when the input already does |
| FinancialData.Asset.LoanAmount | Cashflow2/Cashflow.API/Entities/FinancialData.cs:38 | equity plus loan amount is the value; the loan amount is zero exactly when value equals equity |
| FinancialData.Asset.Income | Cashflow2/Cashflow.API/Entities/FinancialData.cs:39 | twelve monthly incomes are value times rate; non-negative for non-negative value and rate; zero at a zero rate |
| FinancialData.ExactPaymentCases | Cashflow2/Cashflow.API/Entities/FinancialData.cs:50-61 | the unrounded amount `ExactPayment` of each branch: 0 on a cleared balance; on a revolving line the month's interest with a positive rate, else 0; an interest-free loan splits its balance evenly over the months left; an interest-bearing balance pays at least its positive month's interest |
| FinancialData.Payment | Cashflow2/Cashflow.API/Entities/FinancialData.cs:50-61 | the monthly payment is whole cents, within half a cent of the exact branch amount, and zero on a cleared balance or a revolving line without interest |
| FinancialData.InterestOnlyPayment | Cashflow2/Cashflow.API/Entities/FinancialData.cs:55-56 | a revolving line with a positive rate pays the month's interest rounded to cents |
| FinancialData.PaymentCoversInterest | Cashflow2/Cashflow.API/Entities/FinancialData.cs:50-61 | with a non-negative rate the payment is defined, never negative, and covers the rounded month's interest on an interest-bearing balance |
| FinancialData.AnnuityCoversInterest | Cashflow2/Cashflow.API/Entities/FinancialData.cs:59-60 | for a positive monthly rate the level annuity payment is at least one month's interest |
| FinancialData.AnnuityCovers | Cashflow2/Cashflow.API/Entities/FinancialData.cs:59-60 | on an amortizing loan with a positive rate the exact payment is at least the non-negative month's interest |
| FinancialData.NonNegativeRateDefined | Cashflow2/Cashflow.API/Entities/FinancialData.cs:60 | with a non-negative rate the annuity denominator is never zero |
| FinancialData.MonthlyInterestAtMonthlyRate | Cashflow2/Cashflow.API/Entities/FinancialData.cs:76-77 | a twelfth of the annual interest is the balance times the monthly rate |
| FinancialData.MonthlyInterestPositive | Cashflow2/Cashflow.API/Entities/FinancialData.cs:55-56 | a positive balance at a positive rate accrues positive interest |
| FinancialData.Accrued | Cashflow2/Cashflow.API/Entities/FinancialData.cs:70-78 | the balance before the payment is taken: the old balance plus exactly the month's interest, in both the interest-free and the interest-bearing branch |
| FinancialData.AmortizationStep | Cashflow2/Cashflow.API/Entities/FinancialData.cs:64-89 | with no term left nothing changes and the result is false. Otherwise the term drops by one and the rate is kept. The step reports paid-off exactly when the new balance is zero, and a step that does not pay off leaves more than a cent and at least a month. The new balance and the exact pay-off condition are stated by `AmortizationStepBalance` |
| FinancialData.AmortizationStepBalance | Cashflow2/Cashflow.API/Entities/FinancialData.cs:68-88 | with months left, the new balance is the old balance minus the payment, grown first by the monthly rate when there is one, which is the old balance plus the month's interest minus the payment. The step pays off exactly when that balance is at most a cent or this was the last month; the balance is then zero, and otherwise it is the new balance, with one month less and the rate kept |
| FinancialData.StepBalanceBound | Cashflow2/Cashflow.API/Entities/FinancialData.cs:68-78 | on a positive balance with a non-negative rate, one step never raises the balance by more than half a cent |
| FinancialData.StaysPaidOff | Cashflow2/Cashflow.API/Entities/FinancialData.cs:80-86 | a paid-off liability with months left stays at zero and reports paid off |
| FinancialData.Amortized | Cashflow2/Cashflow.API/Entities/FinancialData.cs:64-89 | any number of steps keeps the interest rate |
| FinancialData.TermCountsDown | Cashflow2/Cashflow.API/Entities/FinancialData.cs:80 | after `k <= Term` steps exactly `k` months are gone |
| FinancialData.PaidOffAfterTerm | Cashflow2/Cashflow.API/Entities/FinancialData.cs:80-86 | starting from `n >= 1` months, the `n`-th step reports paid off and leaves balance 0 and term 0 |
| FinancialData.Liability.constructor | Cashflow2/Cashflow.API/Entities/FinancialData.cs:42-48 | a liability holds the given id, name, balance, rate and term |
| FinancialData.Liability.Expense | Cashflow2/Cashflow.API/Entities/FinancialData.cs:50-61 | the getter is the payment rule applied to the liability's current terms |
| FinancialData.Liability.ApplyMonthlyAmortization | Cashflow2/Cashflow.API/Entities/FinancialData.cs:64-89 | the in-place step leaves exactly the terms and result of `AmortizationStep` and keeps id and name, so by `AmortizationStepBalance` the new balance is the old balance plus the month's interest minus the payment, and the result is true exactly when that balance is at most a cent or the last month has passed |
| Collections.List.Add | Cashflow2/Cashflow.API/Services/LoanService.cs:20 | `List.Add` appends at the end |
| Collections.List.Remove | Cashflow2/Cashflow.API/Services/LoanService.cs:41 | `List.Remove` drops the first equal element and reports whether there was one |
| PlayerData.Profession.constructor | Cashflow2/Cashflow.API/Entities/PlayerData.cs:29-38 | a profession holds its figures and fresh asset and liability lists |
| PlayerData.SumIncomeAppend | Cashflow2/Cashflow.API/Entities/PlayerData.cs:14 | asset income is additive over asset lists |
| PlayerData.SumIncomeNonNegative | Cashflow2/Cashflow.API/Entities/PlayerData.cs:14 | assets with non-negative incomes give a non-negative total |
| PlayerData.SumExpensesAppend | Cashflow2/Cashflow.API/Entities/PlayerData.cs:17 | adding a liability adds exactly its payment to the liability expenses |
| PlayerData.SumExpensesRemove | Cashflow2/Cashflow.API/Entities/PlayerData.cs:17 | removing a liability subtracts exactly its payment |
| PlayerData.PaymentsRemove | Cashflow2/Cashflow.API/Entities/PlayerData.cs:17 | dropping the terms at one index keeps every payment defined and lowers the sum of payments by exactly that one payment |
| PlayerData.SumExpensesNonNegative | Cashflow2/Cashflow.API/Entities/PlayerData.cs:17 | liabilities with non-negative rates have defined payments and a non-negative payment total |
| PlayerData.ExpensesAfterAppend | Cashflow2/Cashflow.API/Services/LoanService.cs:20 | appending a liability while the player's other figures and liabilities stay put raises the player's expenses by exactly its payment |
| PlayerData.ExpensesAfterRemove | Cashflow2/Cashflow.API/Services/LoanService.cs:41 | removing the liability at one index while everything else stays put lowers the player's expenses by exactly its payment |
| PlayerData.Player.constructor | Cashflow2/Cashflow.API/Entities/PlayerData.cs:3-12 | a new player is on space 1 with no profession, no cash, no children, empty fresh lists and no stock |
| PlayerData.Player.Income | Cashflow2/Cashflow.API/Entities/PlayerData.cs:14 | asset income plus salary, or plus 0 without a profession. It is at least the salary when no asset loses money, and dividends are not part of it |
| PlayerData.Player.Taxes | Cashflow2/Cashflow.API/Entities/PlayerData.cs:15 | five times the taxes is the income (a 20% rate) |
| PlayerData.Player.ChildExpenses | Cashflow2/Cashflow.API/Entities/PlayerData.cs:16 | zero without a profession or children; otherwise the cost per child is the profession's child expense; never negative for a non-negative count and cost |
| PlayerData.Player.Expenses | Cashflow2/Cashflow.API/Entities/PlayerData.cs:17 | exactly the liability payments without a profession; at least the liability payments when child and other expenses are not negative, and never negative when, in addition, no rate is negative. Taxes are not included |
| PlayerData.Player.NetIncome | Cashflow2/Cashflow.API/Entities/PlayerData.cs:18 | net income plus expenses is income |
| PlayerData.Player.SetProfession | Cashflow2/Cashflow.API/Entities/PlayerData.cs:20-26 | cash becomes the savings and the lists become the profession's own objects (shared, so income follows the profession's assets); nothing else changes |
| LoanService.FindLiability | Cashflow2/Cashflow.API/Services/LoanService.cs:30 | `FirstOrDefault` by id: the first index holding the id, or none when no liability has it |
| LoanService.TakeOutLoan | Cashflow2/Cashflow.API/Services/LoanService.cs:7-24 | accepted exactly for a positive amount and a term of 1 to 5; a rejected call changes nothing. Success appends one fresh "Personal Loan" at 10% over `term * 12` months and credits the amount. It raises the liability payments and the player's expenses by exactly the new loan's payment. Id, name, board space, profession, children, assets, stock and dividends are untouched |
| LoanService.PayOffLoan | Cashflow2/Cashflow.API/Services/LoanService.cs:26-45 | accepted exactly for a positive amount, a known id and a capped amount within cash; a rejected call changes nothing. Cash and balance drop by `min(amount, balance)`, so cash minus balance is conserved and cash stays non-negative. Other liabilities are untouched, and the liability leaves the list exactly when its balance reaches zero, lowering the player's expenses by its payment. The paid liability keeps its id, name, rate and term, and the player keeps id, name, board space, profession, children, assets, stock and dividends |
| LoanService.ApplyPayment | Cashflow2/Cashflow.API/Services/LoanService.cs:36-43 | the update of an accepted payment: cash and the chosen balance both drop by the applied amount, the liability leaves the list exactly when its balance is zero or below, and every other field and liability is unchanged |
| StockMarketData.StockState.Change | Cashflow2/Cashflow.API/Entities/StockMarketData.cs:26 | previous price plus change is the current price; the change is positive exactly on a rise |
| StockMarketData.StockState.ChangePercent | Cashflow2/Cashflow.API/Entities/StockMarketData.cs:27 | whole cents; 0 without a previous price, otherwise the rounded percentage move |
| StockMarketData.ChangePercentFollowsChange | Cashflow2/Cashflow.API/Entities/StockMarketData.cs:26-27 | with a positive previous price the percentage never has the opposite sign to the change |
| StockMarketData.StockMarket.constructor | Cashflow2/Cashflow.API/Entities/StockMarketData.cs:37-41 | a new market is empty at turn 0 |
| GameData.Game.constructor | Cashflow2/Cashflow.API/Entities/GameData.cs:5-21 | a game holds the given players, in seating order, and the given stock market |
| StockMarketService.FindStock | Cashflow2/Cashflow.API/Services/StockMarketService.cs:81 | `FirstOrDefault` by ticker: the first matching index, or the length when none matches |
| StockMarketService.FindPosition | Cashflow2/Cashflow.API/Services/StockMarketService.cs:89 | the first position in the ticker, or the length when the player holds none |
| StockMarketService.Quote | Cashflow2/Cashflow.API/Services/StockMarketService.cs:81-84 | a price exists exactly when some listed security has the ticker |
| StockMarketService.Components | Cashflow2/Cashflow.API/Services/StockMarketService.cs:69 | the filtered list is never longer than the market; `ComponentsMembers` states exactly which securities it holds |
| StockMarketService.MeanPrice | Cashflow2/Cashflow.API/Services/StockMarketService.cs:72 | `Average`: the mean times the count is the sum of the prices |
| StockMarketService.ComponentsMembers | Cashflow2/Cashflow.API/Services/StockMarketService.cs:69 | the components are exactly the listed securities whose ticker is in the ETF's list |
| StockMarketService.ComponentsNonEmpty | Cashflow2/Cashflow.API/Services/StockMarketService.cs:69-72 | an ETF naming a listed security has components, so the average does not throw |
| StockMarketService.ETFUpdate | Cashflow2/Cashflow.API/Services/StockMarketService.cs:67-73 | an ETF's update keeps its identity and component list; a security without components is untouched |
| StockMarketService.RecalcFrom | Cashflow2/Cashflow.API/Services/StockMarketService.cs:65-74 | the pass keeps tickers, categories and component lists, and leaves everything before its start and every unpriced security alone |
| StockMarketService.RecalculatedETFs | Cashflow2/Cashflow.API/Services/StockMarketService.cs:63-75 | the ETF pass keeps the market's shape and leaves every security that is not a priced ETF unchanged |
| StockMarketService.ETFsTrackComponents | Cashflow2/Cashflow.API/Services/StockMarketService.cs:63-75 | when no ETF holds an ETF, the sequential pass equals updating every priced ETF against the market before the pass. Each gets the rounded mean price and the mean yield of its components, with its old price as previous price |
| StockMarketService.RecalculateETFPrices | Cashflow2/Cashflow.API/Services/StockMarketService.cs:63-75 | the in-place loop leaves exactly `RecalculatedETFs` of the old market and keeps the turn number |
| StockMarketService.MeanPriceAtLeast | Cashflow2/Cashflow.API/Services/StockMarketService.cs:72 | the mean price of securities each costing at least `lo` is at least `lo` |
| StockMarketService.MeanPriceAtMost | Cashflow2/Cashflow.API/Services/StockMarketService.cs:72 | the mean price of securities each costing at most `hi` is at most `hi` |
| StockMarketService.ETFPriceAtLeastComponents | Cashflow2/Cashflow.API/Services/StockMarketService.cs:72 | when every component costs at least a whole-cent `lo`, so does the ETF |
| StockMarketService.NextPrice | Cashflow2/Cashflow.API/Services/StockMarketService.cs:53-57 | the new price is whole cents, at least one cent, the clamped move rounded and floored |
| StockMarketService.MovedWithinTenfold | Cashflow2/Cashflow.API/Services/StockMarketService.cs:54-57 | a clamped move stays within a factor of ten of a non-negative price |
| StockMarketService.NextPriceBounds | Cashflow2/Cashflow.API/Services/StockMarketService.cs:54-57 | one turn moves a non-negative price by at most a factor of ten either way, up to rounding and the floor |
| StockMarketService.PriceStep | Cashflow2/Cashflow.API/Services/StockMarketService.cs:48-58 | an ETF is skipped unchanged; any other security keeps its identity, yield and components, takes its old price as previous price and gets a new price in whole cents of at least a cent |
| StockMarketService.SteppedPrices | Cashflow2/Cashflow.API/Services/StockMarketService.cs:48-58 | every security takes its own step with its own draw, ETFs are skipped, and the market's shape is kept |
| StockMarketService.UpdatePrices | Cashflow2/Cashflow.API/Services/StockMarketService.cs:44-61 | the loop leaves exactly the ETF pass applied to the stepped prices and keeps the turn number |
| StockMarketService.PricesStayPositive | Cashflow2/Cashflow.API/Services/StockMarketService.cs:44-61 | after a turn, every non-ETF is at least a cent in whole cents with the old price as previous price, and every priced ETF is at least a cent |
| StockMarketService.InitialStates | Cashflow2/Cashflow.API/Services/StockMarketService.cs:25-37 | one state per catalog entry, in catalog order, at its starting price |
| StockMarketService.CatalogCategory | Cashflow2/Cashflow.API/Services/StockMarketService.cs:7-19 | only the last two catalog entries are ETFs |
| StockMarketService.CatalogComponentsAreStocks | Cashflow2/Cashflow.API/Services/StockMarketService.cs:17-18 | neither ETF lists an ETF among its components |
| StockMarketService.CatalogWellFormed | Cashflow2/Cashflow.API/Services/StockMarketService.cs:7-19 | every catalog ETF has listed components, none of them an ETF, and every stock is in the catalog |
| StockMarketService.InitializeMarket | Cashflow2/Cashflow.API/Services/StockMarketService.cs:21-42 | a fresh market at turn 0 holding the catalog states after the ETF pass |
| StockMarketService.Grown | Cashflow2/Cashflow.API/Services/StockMarketService.cs:92-94 | the quantity grows by the purchase and the average cost is whole cents. Average times quantity is within half a cent per share of the total cost |
| StockMarketService.Buy | Cashflow2/Cashflow.API/Services/StockMarketService.cs:77-104 | accepted exactly for a positive quantity of a listed ticker the cash covers; cash drops by the cost. An existing position grows in place, otherwise a new position at the price is appended |
| StockMarketService.BuyHoldings | Cashflow2/Cashflow.API/Services/StockMarketService.cs:89-104 | a purchase adds exactly `qty` to the ticker's holding and leaves other tickers alone. It keeps quantities positive and tickers unique, so no duplicate entry appears |
| StockMarketService.Sell | Cashflow2/Cashflow.API/Services/StockMarketService.cs:110-127 | accepted exactly for a positive quantity within the holding of a listed ticker; cash rises by the proceeds. The position shrinks, and is removed exactly when it hits zero |
| StockMarketService.SellHoldings | Cashflow2/Cashflow.API/Services/StockMarketService.cs:114-127 | a sale takes exactly `qty` off the holding, leaves other tickers alone and keeps quantities positive and tickers unique. The list shrinks exactly when the holding is sold out |
| StockMarketService.BuyThenSellRestores | Cashflow2/Cashflow.API/Services/StockMarketService.cs:77-131 | buying a ticker the player does not hold and selling the same quantity at an unchanged price restores cash and positions exactly |
| StockMarketService.BuyThenSellRestoresCash | Cashflow2/Cashflow.API/Services/StockMarketService.cs:77-131 | for any ticker, held or not, a purchase followed by the sale of the same quantity at an unchanged price is accepted and restores cash exactly; with unique tickers every ticker's holding is restored too |
| StockMarketService.TradesKeepCashNonNegative | Cashflow2/Cashflow.API/Services/StockMarketService.cs:84-121 | a purchase never overdraws and a sale at a non-negative price never lowers cash |
| StockMarketService.BuyStock | Cashflow2/Cashflow.API/Services/StockMarketService.cs:77-108 | the in-place purchase does exactly what `Buy` says, refreshes dividends on success, changes nothing on rejection and touches no other player state |
| StockMarketService.SellStock | Cashflow2/Cashflow.API/Services/StockMarketService.cs:110-131 | the in-place sale does exactly what `Sell` says, refreshes dividends on success, changes nothing on rejection and touches no other player state |
| StockMarketService.MonthlyDividendNonNegative | Cashflow2/Cashflow.API/Services/StockMarketService.cs:142 | a month's dividend at non-negative quantity, price and yield is non-negative |
| StockMarketService.PositionDividendCases | Cashflow2/Cashflow.API/Services/StockMarketService.cs:139-142 | a position whose ticker is not listed or pays no dividend earns 0; otherwise it earns a non-negative amount at non-negative quantity, price and yield |
| StockMarketService.DividendTotalZero | Cashflow2/Cashflow.API/Services/StockMarketService.cs:137-143 | positions that are all unlisted or without yield give a total of 0 |
| StockMarketService.DividendTotalAppend | Cashflow2/Cashflow.API/Services/StockMarketService.cs:137-143 | the dividend total is additive over positions |
| StockMarketService.DividendTotalNonNegative | Cashflow2/Cashflow.API/Services/StockMarketService.cs:135-145 | with no negative quantities, prices or yields the dividend income, rounded or not, is non-negative |
| StockMarketService.RecalculatePlayerDividends | Cashflow2/Cashflow.API/Services/StockMarketService.cs:133-146 | the accumulator loop sets dividend income to the rounded total over positions. Unknown tickers and zero yields count nothing. Only the dividend income is written; cash, positions, assets, liabilities, profession, children, id, name and board space are unchanged |
| StockMarketService.RecalculateAllDividends | Cashflow2/Cashflow.API/Services/StockMarketService.cs:148-154 | every player's dividend income is refreshed against the game's market, and only that field of each player is written: cash, positions, assets, liabilities, profession, children, id, name and board space are all unchanged |
| AssetGenerator.Next | Cashflow2/Cashflow.API/Resources/AssetGenerator.cs:30-31 | `Random.Next(lo, hi)`: a value in `[lo, hi)`, or `lo` for an empty range |
| AssetGenerator.NextReaches | Cashflow2/Cashflow.API/Resources/AssetGenerator.cs:30-31 | every value of the range comes out of some draw |
| AssetGenerator.Repeat | Cashflow2/Cashflow.API/Resources/AssetGenerator.cs:86 | `Enumerable.Repeat`: `n` copies of the element |
| AssetGenerator.Flatten | Cashflow2/Cashflow.API/Resources/AssetGenerator.cs:86 | the pool has as many slots as the weights add up to |
| AssetGenerator.FlattenCounts | Cashflow2/Cashflow.API/Resources/AssetGenerator.cs:86 | each type occupies exactly its weight's number of slots of the pool |
| AssetGenerator.SlotIsPoolEntry | Cashflow2/Cashflow.API/Resources/AssetGenerator.cs:83-90 | walking the table finds the same entry as indexing the flattened pool |
| AssetGenerator.PickIsPoolIndex | Cashflow2/Cashflow.API/Resources/AssetGenerator.cs:83-90 | the weighted pick is the flattened pool at the drawn index |
| AssetGenerator.SlotInterval | Cashflow2/Cashflow.API/Resources/AssetGenerator.cs:83-90 | slot `i` belongs to the entry whose cumulative-weight interval contains `i` |
| AssetGenerator.PickEntry | Cashflow2/Cashflow.API/Resources/AssetGenerator.cs:83-90 | every entry with a positive weight is picked by some draw |
| AssetGenerator.PickHasWeight | Cashflow2/Cashflow.API/Resources/AssetGenerator.cs:83-90 | the pick is always a type the table gives a positive weight |
| AssetGenerator.PickWeighted | Cashflow2/Cashflow.API/Resources/AssetGenerator.cs:83-90 | `GetRandomWeightedAsset`: the pick is always a type with a positive weight in the table |
| AssetGenerator.SlotWeight | Cashflow2/Cashflow.API/Resources/AssetGenerator.cs:86-89 | every slot of the pool belongs to a type with a positive total weight |
| AssetGenerator.NatToString | Cashflow2/Cashflow.API/Resources/AssetGenerator.cs:126 | an interpolated number is a non-empty string of digits without a leading zero |
| AssetGenerator.ParseNatToString | Cashflow2/Cashflow.API/Resources/AssetGenerator.cs:126 | the numeral reads back as the number it was written from |
| AssetGenerator.TimesTenNumeral | Cashflow2/Cashflow.API/Resources/AssetGenerator.cs:128 | `{q}0` is the numeral of ten times a positive `q` |
| AssetGenerator.IntToString | Cashflow2/Cashflow.API/Resources/AssetGenerator.cs:126 | a negative number gets a minus sign before its magnitude's numeral |
| AssetGenerator.GenerateRoR | Cashflow2/Cashflow.API/Resources/AssetGenerator.cs:92-100 | earning types get a whole percentage in `[min, max)`; gold and the two MLM stakes get 0 |
| AssetGenerator.GenerateValue | Cashflow2/Cashflow.API/Resources/AssetGenerator.cs:102-110 | leveraged types get the equity times a multiplier in `[min, max)`; the rest get the equity |
| AssetGenerator.GenerateEquityAmount | Cashflow2/Cashflow.API/Resources/AssetGenerator.cs:112-115 | a whole amount in `[min, max)`, or in `[min * multiplier, max)` with a multiplier |
| AssetGenerator.GenerateAssetName | Cashflow2/Cashflow.API/Resources/AssetGenerator.cs:117-132 | "Duplex" for two units, otherwise "{q}-Plex"; land is "Land - {q}0 acres"; business is "Business" only for big deals |
| AssetGenerator.BigDealQuantity | Cashflow2/Cashflow.API/Resources/AssetGenerator.cs:28-33 | a big apartment has 4 to 15 units and big land 10 to 99; other types have none |
| AssetGenerator.BigDealMultiplier | Cashflow2/Cashflow.API/Resources/AssetGenerator.cs:37 | the equity multiplier exists exactly when the quantity does; it is the quantity except for land, where it is the quantity divided by ten, rounded down |
| AssetGenerator.BigDealName | Cashflow2/Cashflow.API/Resources/AssetGenerator.cs:36 | a big apartment is "{q}-Plex" and big land "Land - {10q} acres" |
| AssetGenerator.BigDealOf | Cashflow2/Cashflow.API/Resources/AssetGenerator.cs:25-41 | for the chosen type, the big deal has that type's quantity range, its name, and a whole equity of at least 5000 per unit (per hundred acres of land) and below 100000. Leveraged types are worth 1 to 9 times the equity and earning types return 0% to 4% |
| AssetGenerator.GenerateBigDeal | Cashflow2/Cashflow.API/Resources/AssetGenerator.cs:12-42 | only apartment, business, house or land comes out, built by `BigDealOf`, all leveraged and earning |
| AssetGenerator.BigDealProportions | Cashflow2/Cashflow.API/Resources/AssetGenerator.cs:17-23 | the big-deal pool has 10 slots, weighted 3 : 3 : 3 : 1 |
| AssetGenerator.SmallDealQuantity | Cashflow2/Cashflow.API/Resources/AssetGenerator.cs:65-70 | only apartments (2 units) and land (1) have a quantity, and it is positive |
| AssetGenerator.SmallDealOf | Cashflow2/Cashflow.API/Resources/AssetGenerator.cs:62-78 | for the chosen type, the small deal is a "Duplex" of 2, "Land - 10 acres" of 1, or has no quantity. The final name is the small-deal name. Equity is whole, at least 500 per unit and below 8000; value is 8 to 19 times the equity for leveraged types, otherwise the equity with no loan. The rate is -1% to 4% for earning types, otherwise 0 with no income |
| AssetGenerator.GenerateSmallDeal | Cashflow2/Cashflow.API/Resources/AssetGenerator.cs:44-81 | a small deal of the type the weighted pick chooses, built by `SmallDealOf` |
| AssetGenerator.SmallDealAnyType | Cashflow2/Cashflow.API/Resources/AssetGenerator.cs:47-60 | every one of the nine types comes out of some small deal |
| MarketGenerator.OfferPriceRange | Cashflow2/Cashflow.API/Resources/MarketGenerator.cs:28-40 | every type but `mlm1` has a positive, non-empty price range; `mlm1` throws |
| MarketGenerator.OfferName | Cashflow2/Cashflow.API/Resources/MarketGenerator.cs:42-54 | every type but `mlm1` has an offer text; `mlm1` throws |
| MarketGenerator.OfferPickNeverMlm1 | Cashflow2/Cashflow.API/Resources/MarketGenerator.cs:15-25 | the offer pool has 38 slots and the pick is never `mlm1`, so the throwing branches are unreachable |
| MarketGenerator.GenerateAssetOffer | Cashflow2/Cashflow.API/Resources/MarketGenerator.cs:7-57 | never an `mlm1` buyer; the price is a whole amount in the type's range and the name is the type's text |
| MarketGenerator.EveryOfferReachable | Cashflow2/Cashflow.API/Resources/MarketGenerator.cs:7-57 | every type but `mlm1` is offered at every whole price of its range by some pair of draws |

## Left out

- Floating point:
  - The amortizing payment uses the exact formula `A*r / (1 - (1+r)^-n)` on reals with a recursive power. The server computes `Math.Pow` in `double`, and that approximation is not modelled.
  - `NextGaussian` (Box–Muller on `double`) is not modelled. The clamped change `c` of each security is a parameter of `UpdatePrices`.
- Decimal limits: `decimal` is an exact `real`. Its 28-digit precision and overflow exceptions are not modelled, and neither is the 32-bit range of `int` quantities and terms.
- `System.Random`:
  - Every draw is a `nat` parameter, and `Random.Next(lo, hi)` is `lo + d % (hi - lo)`. That can produce every value the real generator can; the distribution and the order in which one generator is consumed are not modelled.
  - `Draws` has one field per call. A draw the server skips (a quantity for a house, a multiplier for gold) is simply unused.
- Identifiers: `Guid.NewGuid()` becomes an `int` id passed in by the caller.
- Throwing paths are preconditions or `Option` results:
  - A non-empty component list whose securities are all unlisted makes `Average` throw. `RecalculateETFPrices` and `UpdatePrices` require `ComponentsPresent`, which the catalog satisfies (`CatalogWellFormed`).
  - `UpdatePrices` requires every non-ETF to be in the catalog, where `First` would throw otherwise.
  - `Liability.Expense` requires `PaymentDefined`: the annuity denominator is non-zero, which holds for every non-negative rate.
  - `Buy` requires that the re-averaged quantity is not zero; that division cannot fail for positive positions.
  - An empty weight table and the `mlm1` offer throw. The first is a precondition; for the second, the model proves the pick never reaches it.
- The pick walks the weight table slot by slot instead of building the flattened list. `PickIsPoolIndex` proves the two agree.
- Dictionary order: a `Dictionary<AssetType, int>` enumerates here in the order its entries are written.
- `MarketGenerator.OfferPickNeverMlm1`: states the pool size (38) but not each type's count. The per-type proportions follow from `FlattenCounts` on the offer table and are not stated type by type.
- Stock positions and the market's securities are sequences of values, because the server reaches them only through their lists. Aliasing between two holders of one position or security is therefore not captured.
- `Player.Income` follows the code and leaves out dividend income.
- `StockMarketService.BuyThenSellRestores`: restores positions exactly only for a ticker the player did not hold. For a held ticker the purchase re-averages the cost and rounds it to cents, and the sale keeps that new average, so only cash and quantities come back (`BuyThenSellRestoresCash`).
- `Game` keeps only its players and stock market. The board, turns, auction and market quorum of `GameData.cs` are not part of this model.
- Not modelled:
  - `GameHub.cs`, `GameService.cs`, `IGameClient.cs`, `Program.cs` and `GameDTO.cs` (SignalR, caching and HTTP);
  - `OptionsData.cs` (a static profession table);
  - the duplicate `Player.cs`;
  - the web client.
