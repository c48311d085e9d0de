# ETF investment helper: a Dafny model of its computations

The dashboard (`main.py`) has four pages: a price chart for one ticker, a comparison of
several tickers rebased to a start date, a portfolio builder, and a backtest of a lump sum or
of a monthly savings plan over a stored portfolio or a single ticker. This project models the
computations behind those pages and proves what each one promises:

- `results.dfy` (`Results`): `Option`, `Result` and the error cases the code runs into:
  an amount of 0, an empty series, an empty schedule, a missing price, a zero weight total,
  and no trading day after the start.
- `dates.dfy` (`Dates`): calendar dates, their order, and the month-start schedule of
  `pd.date_range(start, end, freq='MS')`.
- `series.dfy` (`Series`): a close series as a list of dated quotes, and the pandas
  operations used on it. These are index lookup, forward fill (`reindex(method='ffill')`),
  `searchsorted(side='left')`, scaling a column, and the outer-join sum
  `add(fill_value=0)`.
- `portfolio_builder.dfy` (`PortfolioBuilder`): adding and removing tickers of the
  portfolio being edited, and submitting it under a name. This is a class with the two
  session-state dictionaries as fields.
- `weighted_price.dfy` (`WeightedPrice`): `get_portfolio_weighted_price` as a loop proved
  against a specification function. A per-day weighted sum serves as the reference
  definition.
- `iteration_order.dfy` (`IterationOrder`): the result does not depend on the order in
  which the portfolio's dictionary yields its tickers.
- `charts.dfy` (`Charts`): the one-day lookup of the chart page and the rebasing of the
  comparison page.
- `backtest.dfy` (`Backtest`): the lump-sum result and the monthly table of the savings plan:
  investment, running total, forward-filled close, units, running units, value and return.

Prices and amounts are exact reals. The figures modelled are the ones the page computes
before rounding them for display.

The savings plan follows the code rather than a reading of it as "one row per calendar month
of the range". `pd.date_range(freq='MS')` yields the first days of months inside
`[start, end]`. So when `start` is not the 1st of a month, that month has no row. For
example, with start 2023-01-15 and end 2023-04-01 the rows are February, March and April.
With forward-filled closes 100, 80 and 120 on those days and 100 a month, April's row holds
1 + 1.25 + 5/6 units. They are worth 370 after 300 invested, a return of 70/3 %.

Month starts before the first trading day have no forward-filled close. The modelled plan
starts at the first month start that has one, so every amount counted as invested buys units.
The page keeps the earlier months as NaN rows, and `Backtest.FinalRoiAsWritten` models what it
then shows (see Findings).

## Model

| member | source | states |
|---|---|---|
| PortfolioBuilder.WithTicker | main.py:50-55 | A non-empty ticker with a non-zero weight is inserted with that weight when absent. When present, its weight grows by the amount. Any other input leaves the portfolio as it was. No other entry changes. |
| PortfolioBuilder.WithoutTicker | main.py:57-59 | The keys lose exactly the ticker, every other weight is kept, and an absent ticker leaves the portfolio unchanged. |
| PortfolioBuilder.AddThenRemove | main.py:50-59 | Removing a ticker just added to a portfolio without it gives the portfolio back. |
| PortfolioBuilder.AddTwiceAccumulates | main.py:50-55 | Adding the same ticker twice is adding it once with the two weights summed. The one exception is a new ticker whose two non-zero weights cancel: it stays in the portfolio at weight 0. |
| PortfolioBuilder.Builder.constructor | main.py:66-67 | A session starts with an empty portfolio being edited and an empty library. The page creates the library dictionary only on the first submit (lines 91-92); an absent library and an empty one behave alike. |
| PortfolioBuilder.Builder.AddTicker | main.py:50-55 | Given a weight of at least 0, as the weight input at line 75 guarantees, the edited portfolio becomes `WithTicker` of the old one. The library is untouched, and every portfolio keeps named tickers with positive weights. |
| PortfolioBuilder.Builder.RemoveTicker | main.py:57-62 | It reports success exactly when the ticker was in the edited portfolio. The portfolio becomes `WithoutTicker` of the old one and the library is untouched. |
| PortfolioBuilder.Builder.Submit | main.py:90-98 | It is accepted exactly when the name is not in the library. Then the library maps the name to the edited portfolio and editing restarts from an empty one. A taken name changes nothing. |
| WeightedPrice.PortfolioPrice | main.py:101-125 | Fails with `ZeroWeightTotal` exactly when the weights sum to 0 and some ticker has data (the division by `weight_total`). Otherwise it is the accumulated frame. |
| WeightedPrice.GetPortfolioWeightedPrice | main.py:101-125 | The loop over the tickers, with its skip, copy and add branches and its early failure, returns exactly `PortfolioPrice`. |
| WeightedPrice.ZeroTotalFails | main.py:105-113 | A ticker with data under a zero weight total makes the whole computation fail. |
| WeightedPrice.CombinedWithoutData | main.py:101-111 | When no ticker has data the frame stays empty, whatever the weights. |
| WeightedPrice.CombinedSpec | main.py:105-120 | The accumulated frame is sorted and its dates are the union of the tickers' trading days. Each day's close is the sum of close times share over the tickers, a ticker without a quote that day counting 0. |
| WeightedPrice.TradingDaysMembership | main.py:120 | A day is in the joined index exactly when some ticker has a quote that day. |
| WeightedPrice.PortfolioPriceSpec | main.py:101-125 | With a non-zero total the result is that sorted frame, valued each day by the weighted sum with shares `weight / weight_total`. |
| WeightedPrice.PortfolioPriceIsPriceSeries | main.py:101-125 | A non-empty portfolio of positive weights over price series succeeds and yields a price series: sorted dates and positive closes. |
| WeightedPrice.SharesSumToOne | main.py:105-113 | The normalised weights `weight / weight_total` sum to 1. |
| WeightedPrice.UniformCloseIsKept | main.py:105-120 | On a day when every ticker closes at c, the portfolio closes at c. |
| WeightedPrice.WeightScaleInvariance | main.py:105-113 | Multiplying every weight by the same non-zero factor leaves the result unchanged. |
| WeightedPrice.SubmittedPortfolioIsPriced | main.py:153-155 | A non-empty portfolio from the library, priced over downloaded price series for the backtest, succeeds and yields a price series. |
| WeightedPrice.SingleTicker | main.py:101-125 | A one-ticker portfolio of any non-zero weight is priced exactly as that ticker's series. |
| IterationOrder.SumOverPermutation | main.py:105 | A sum over the tickers is the same for every listing of them without repeats. |
| IterationOrder.OrderIndependence | main.py:101-125 | Any two iteration orders of the portfolio's keys give the same result, failure included. |
| Series.CloseOnSpec | main.py:43-44 | A close is found exactly for the days in the index, and it is that day's quote. |
| Series.LastAtOrBefore | main.py:183 | The forward-fill position is a quote on or before the day with every later quote after the day. It is absent only when all quotes are after the day. |
| Series.ForwardFillIsLatest | main.py:183 | In a sorted series the forward-filled close is the close of the latest quote on or before the day. It is missing exactly when every quote is later. |
| Series.ForwardFillPersists | main.py:183 | Once a day has a forward-filled close, every later day has one. |
| Series.SearchSorted | main.py:135 | The left insertion point: every earlier quote is before the start and every quote from it on is on or after the start. |
| Series.ScaleCloses | main.py:113 | Scaling keeps the index and multiplies each day's close by the factor. |
| Series.AddAlignedSpec | main.py:120 | The outer-join sum of two sorted series is sorted and its index is the union. Each day's value is the sum of the two values, a missing day counting 0. |
| Series.AddAlignedPositive | main.py:120 | Adding two series of positive closes gives positive closes. |
| Dates.MonthStartsSound | main.py:178 | The schedule strictly increases and every entry is a first of month inside `[start, end]`. |
| Dates.MonthStartsComplete | main.py:178 | Every first of month inside `[start, end]` is in the schedule. |
| Charts.LookupDay | main.py:42-48 | Out of range exactly when the day is outside `[start, end]`. Found exactly when it is inside and in the index, and then with that day's quote. Otherwise it is a market holiday. |
| Charts.LookupFindsQuote | main.py:42-44 | Every quote of a sorted series inside the range is found with its own close. |
| Charts.RelativeClose | main.py:135-137 | Fails exactly when every trading day is before the start (`Close[idx_after]` out of bounds). Otherwise it keeps the series length. |
| Charts.RelativeCloseSpec | main.py:135-137 | The base is the first trading day on or after the start and reads exactly 1. Every rebased close times the base close is the original close, dates are kept, and closes stay positive. |
| Charts.RelativeCloseIgnoresScale | main.py:135-137 | Rebasing a series scaled by any positive factor gives the same result as rebasing the series. |
| Backtest.LumpSum | main.py:170-171 | An amount of 0 shows nothing and an empty series has no first close. Otherwise the result times the first close is the amount times the last close. |
| Backtest.LumpSumBreakEven | main.py:171 | When the last close equals the first, the final amount is the amount invested. |
| Backtest.LumpSumGain | main.py:171 | A positive amount grows exactly when the last close is above the first. |
| Backtest.CumSumIsPrefixSum | main.py:180-185 | Entry i of `cumsum()` is the sum of entries 0..i. |
| Backtest.CumSumOfConstant | main.py:179-180 | Paying m every month, the running total after month i is (i + 1) * m. |
| Backtest.Recurring | main.py:176-193 | Fails with `NoAmount` for an amount of 0, with `EmptySchedule` for a range without a month start, and with `MissingPrice` when no month start of the range has a price. Otherwise there is one row per month start from the first priced one on, in order. |
| Backtest.RecurringIsTable | main.py:178-189 | A successful plan is the table over the priced month starts at their forward-filled closes, all of them positive. |
| Backtest.ScheduleCloses | main.py:183 | Every month start from the first priced one on has a positive forward-filled close. |
| Backtest.PricedMonthStartsSound | main.py:178 | The priced month starts strictly increase and are firsts of months inside `[start, end]`. |
| Backtest.PricedMonthStartsComplete | main.py:178-183 | Every first of month inside `[start, end]` that has a forward-filled close is among the priced month starts. |
| Backtest.RecurringSchedule | main.py:178-183 | The rows' dates strictly increase and are firsts of months inside `[start, end]` with a price, and every such day is a row. |
| Backtest.RecurringClose | main.py:183 | A row's close is the positive close of the latest trading day on or before the row's date. |
| Backtest.TableInvestment | main.py:179-180 | Each month invests the amount, and after month i the total invested is (i + 1) times it. |
| Backtest.TableUnits | main.py:184-185 | Month i buys amount / close units, and the units held are the sum of the units bought in months 0..i. |
| Backtest.TableStep | main.py:179-185 | Row by row, the total invested grows by the amount and the units held grow by the month's units. |
| Backtest.TableValuation | main.py:188-189 | The holding is valued at the month's close, and the return times the total invested is 100 times the gain. |
| Backtest.TableGainSign | main.py:189 | With a positive amount the return is positive exactly when the holding is worth more than what was paid in. |
| Backtest.TableFlatValue | main.py:184-188 | At a constant close the holding is always worth exactly what was paid in. |
| Backtest.TableFlatClose | main.py:184-189 | At a constant close every month's return is 0. |
| Backtest.RecurringFlatPrice | main.py:183-189 | If the price never moves, every row of the plan has a return of 0. |
| Backtest.NaNClosesLeading | main.py:178-183 | Over the month starts of `[start, end]`, the forward-filled close is NaN exactly on the month starts before the first priced one. Every later close is the positive close of the plan. |
| Backtest.CumSumSkippingNaNIsPrefixSum | main.py:185 | `cumsum()` of a column with NaN entries: entry i is NaN exactly where the column's entry i is. Otherwise it is the sum of the entries 0..i that are not NaN. |
| Backtest.UnitsSkippingNaN | main.py:184-185 | The last entry of `Total Units` is NaN when there is no month or the last close is NaN. Otherwise it is the sum of amount / close over the months whose close is not NaN. |
| Backtest.FinalRoiAsWritten | main.py:178-193 | The final return the page shows is defined exactly when the schedule is not empty and its last month start has a price. |
| Backtest.FinalRoiOver | main.py:179-193 | Over a given schedule, the final return is defined exactly when the schedule is not empty and its last day has a price. |
| Backtest.FinalRoiOverFormula | main.py:179-193 | When the last day has close c, the final return is that of the units bought in the months with a close, valued at c, over every month's money, NaN months included. |
| Backtest.PageUnitsArePlanUnits | main.py:183-185 | The units the page sums over the months with a close are the units bought by the plan over the priced month starts. |
| Backtest.TableLastRow | main.py:184-187 | The last row holds every unit bought, at the last close. |
| Backtest.TableRoi | main.py:179-189 | Row i's return is that of its units at its close over i + 1 months of the amount. |
| Backtest.FinalRoiAsWrittenValue | main.py:178-193 | Whenever the plan has rows, the page's final return is that of the plan's last holding over every month's money of the schedule, NaN months included. |
| Backtest.FinalRoiAsWrittenIsLastRow | main.py:178-193 | When the first month start has a price, the plan succeeds and the page's final return equals the return of the plan's last row. |
| Backtest.LeadingNaNUnderstatesReturn | main.py:178-193 | When the first month start precedes trading and the amount is positive, the page's final return is strictly below the return of the plan's last row. |
| Backtest.FlatAfterHoliday | main.py:178-189 | A two-month schedule whose first month start precedes trading buys once, in the second month, and at a flat price returns 0. |
| Backtest.HolidayStartUnderstatesReturn | main.py:178-193 | From the default start 2010-01-01 to 2010-02-01, with trading from 2010-01-04 at a flat 100 and 100 a month, the page shows -50 % while the corrected plan shows one row at 0 %. |

## Left out

- The Streamlit page layout, widgets and sidebar navigation (lines 15-41, 64-89, 127-133, 150-169, 195-222) are not modelled. The values they collect become parameters.
- `yf.download` is a parameter: one close series per ticker, or a `Downloads` map for a portfolio. The download window and its exclusive end date are not modelled. Neither are the columns other than `Close`.
- Plotting (lines 30-36, 138-148, 200-206) is left out.
- Floating point is left out: amounts and prices are exact reals. The `round` of lines 171, 191-192 and the `:.2f` display are not modelled.
- The button callbacks at lines 78 and 85 are wired as written in the page. The add call runs while the form is drawn, and the remove callback receives the list of selected tickers. Each operation is modelled on the single ticker its body expects.
- The order in which the portfolio's dictionary yields its tickers is a parameter (`order`). `IterationOrder.OrderIndependence` shows that the result does not depend on it.
- The comparison page loops over several tickers and splits the input text. Both are left out. `Charts.RelativeClose` models one ticker's rebasing.
- Which series the backtest receives (lines 153-159) is a page choice and is left out. The portfolio path is `WeightedPrice.PortfolioPrice`; the single-ticker path is a downloaded series.
- Backtest.Recurring: month starts before the first trading day, which the page keeps as NaN rows, are not rows of the corrected plan. The page's own figures for such a schedule are `Backtest.FinalRoiAsWritten`; see Findings.
- Backtest.FinalRoiAsWritten: `None` stands both for an empty schedule, where `iloc[-1]` raises, and for a NaN last row. `Backtest.Recurring` tells the two apart.
- Backtest.LumpSum: requires positive closes (a downloaded series has them). A zero first close would be a floating-point division by zero in the source.
- WeightedPrice.GetPortfolioWeightedPrice: requires only that `order` lists the portfolio's keys, not that it lists each once. Dictionary keys are distinct, and `IterationOrder.IsKeyOrder` adds that condition where the proof needs it.
- Charts.LookupDay: `data.loc[day]` shows the whole row of the day. The model returns its close only.

## Findings

| source | as written | input that shows it | evidently intended | confidence | as-written member | corrected member |
|---|---|---|---|---|---|---|
| main.py:178-189 | A month start before the first trading day gets a NaN close (line 183). `cumsum` skips its NaN units (line 185), but Total Investment still counts its money (line 180), so the final return is understated. The default start 2010-01-01 (line 17) is a market holiday, so the default inputs hit this. | start 2010-01-01, end 2010-02-01, 100 a month, one quote at 100 on 2010-01-04: -50 % (`Backtest.HolidayStartUnderstatesReturn`). In general, with a positive amount, any schedule whose first month start precedes trading shows a return below that of the plan's last row (`Backtest.LeadingNaNUnderstatesReturn`). | Every amount counted as invested buys units, so a flat price returns 0 % | not executed | Backtest.LeadingNaNUnderstatesReturn | Backtest.RecurringFlatPrice |
