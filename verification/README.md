# Dividend buy-alert bot — decision layer in Dafny

The bot (`telegram_alert_bot.py`) watches a fixed table of B3 tickers. Each
ticker has a fair value and a margin of safety. On every run it fetches each
ticker's price from a primary quote provider (brapi). If that has no price, it
falls back to a secondary provider (Yahoo), which wants the ticker with a
`.SA` region suffix. It then computes the trigger price
`fair_value * (1 - mos)` and the gap `(trigger - price) / trigger * 100`. A
buy alert goes to a Telegram chat whenever `price <= trigger`. The run returns
the tickers that fired, joined by `", "`, or `"Sem alertas"` when none fired.

This project models that decision layer as pure Dafny functions:

- `wrappers.dfy` (`Wrappers`): `Option` and `Result`.
- `tickers.dfy` (`Tickers`): the region suffix and ticker normalisation.
- `pricing.dfy` (`Pricing`): the two-provider fallback. Each provider is an
  abstract function from the ticker it is asked about to an optional price.
- `alerts.dfy` (`Alerts`): the asset record, trigger price, gap and the
  per-asset outcome (failed, quiet or alert).
- `summary.dfy` (`Summary`): the joined summary string and its inverse parser.
- `run.dfy` (`Run`): the loop over the table. It has reference definitions
  of the triggered list and the alert trace, and the loop method
  `CheckAssets`. The reference definitions take the per-asset evaluation as
  a parameter. `Evaluator(providers)` is the evaluation `check_assets`
  performs, so every fact about the loop's bookkeeping holds for it.
- `assets.dfy` (`Assets`): the configured 19-asset table and facts about it.

Prices are Dafny `real`, not IEEE-754 floats. The proofs are about the
threshold logic, not about rounding.

Behaviour followed from the code:

- The fallback is chosen with Python's `or`. A primary answer of `0.0` is
  falsy, so it sends the lookup to the fallback, the same as a missing
  answer. A fallback answer of `0.0` is kept, because only `None` raises.
- The fallback is asked about the normalised ticker, because
  `get_price_yahoo` adds the suffix itself.
- The gap is computed before the `price <= trigger` test. A zero trigger
  therefore raises a division error, which the per-ticker handler catches,
  even when the price would have fired.
- As written, lines 125-126 put `try:` at the same indentation as `for`, and
  line 147 puts `time.sleep` inside the `except`. The model follows the
  evident intent: each iteration has its own `try`/`except`, so a failing
  ticker does not stop the loop.
- When nothing fires, the summary is the literal `"Sem alertas"` that the code
  returns.

## Model

| member | source | states |
|---|---|---|
| Tickers.Normalise | telegram_alert_bot.py:89 | the queried ticker always ends in `.SA` and starts with the input; it equals the input exactly when the input already ended in `.SA`, and otherwise it is the input plus `.SA` |
| Tickers.NormaliseIdempotent | telegram_alert_bot.py:89 | normalising an already-normalised ticker changes nothing |
| Tickers.NormaliseValid | telegram_alert_bot.py:87-89 | a bare B3 symbol is always suffixed, and removing the suffix gives the symbol back |
| Pricing.Or | telegram_alert_bot.py:105 | Python's `or` on two provider answers: a truthy first answer (a price other than `None` and `0.0`) is kept, otherwise the second answer is taken as is; the result is truthy exactly when one of the answers is, and `None` exactly when the first is falsy and the second is `None` |
| Pricing.GetPrice | telegram_alert_bot.py:104-108 | a truthy primary price is returned as is; the fallback's price at the suffixed ticker is used exactly when the primary answer is missing or zero; the lookup fails with "price unavailable" exactly when both are unusable |
| Pricing.GetPriceLocal | telegram_alert_bot.py:104-108 | the price depends only on the primary's answer for the ticker and the fallback's answer for its suffixed form |
| Pricing.FallbackIrrelevant | telegram_alert_bot.py:105 | when the primary answers with a non-zero price, any fallback gives the same primary-sourced quote |
| Alerts.Trigger | telegram_alert_bot.py:128 | for a positive fair value and a margin in [0,1), the trigger is positive and at most the fair value; the fair value exceeds the trigger by exactly the margin's share of the fair value |
| Alerts.MarginFromTrigger | telegram_alert_bot.py:128 | for a non-zero fair value, the margin of safety is recovered from the trigger as its relative discount from the fair value |
| Alerts.TriggerAntitone | telegram_alert_bot.py:128 | for a fixed non-negative fair value, a larger margin of safety never gives a larger trigger |
| Alerts.Gap | telegram_alert_bot.py:130 | the price is the trigger reduced by the gap percentage; the gap is zero exactly at the trigger; for a positive trigger it is non-negative exactly when price <= trigger |
| Alerts.Evaluate | telegram_alert_bot.py:126-145 | an alert fires exactly when a price exists, the trigger is non-zero and price <= trigger; the ticker fails exactly when no price exists (price unavailable) or the trigger is zero (division error); an alert and a quiet outcome both report the fetched price, the trigger and the gap between them, and an alert also the asset's ticker and margin; for a positive trigger the gap is non-negative exactly on an alert |
| Alerts.WellFormedNeverZeroTrigger | telegram_alert_bot.py:128-130 | for a well-formed asset, the division error never happens, and failing means having no price |
| Alerts.EvaluateLocal | telegram_alert_bot.py:125-145 | an asset's outcome depends only on what the providers say about its own ticker |
| Alerts.WorkedExample | telegram_alert_bot.py:128-134 | fair value 20, margin 0.2 gives trigger 16; price 15.5 fires with a 3.125% gap; price 16.5 does not fire |
| Summary.Join | telegram_alert_bot.py:148 | `", ".join` of a non-empty list starts with the first item and ends with the last; for comma-free items the result contains a comma exactly when there are at least two items |
| Summary.Summarise | telegram_alert_bot.py:148 | an empty list gives "Sem alertas"; a non-empty list gives a string that starts with the first triggered ticker and ends with the last, with a comma between comma-free tickers when there are two or more |
| Summary.SplitJoin | telegram_alert_bot.py:148 | splitting `", ".join(items)` at the separator gives the items back when they contain no comma |
| Summary.SummaryRoundTrip | telegram_alert_bot.py:148 | for valid tickers the summary is never empty, is "Sem alertas" exactly when nothing triggered, and reads back as the triggered list in order |
| Run.Triggered | telegram_alert_bot.py:125-142 | the triggered list is never longer than the table, and every ticker in it belongs to an asset of the table that fired |
| Run.SentAlerts | telegram_alert_bot.py:125-142 | one alert is sent per triggered ticker; when alerts name their own asset, the k-th alert names the k-th triggered ticker |
| Run.EvaluatorReportsOwnTicker | telegram_alert_bot.py:137 | every alert `check_assets` raises names the ticker of the asset it was raised for |
| Run.RunStep | telegram_alert_bot.py:125-145 | one iteration appends the asset's ticker to the triggered list and its alert to the trace when it fires, and leaves both unchanged otherwise |
| Run.FiringIndicesExact | telegram_alert_bot.py:125-142 | the firing positions are strictly increasing table positions of firing assets, and every firing asset's position is among them |
| Run.TriggeredIsFiringSubsequence | telegram_alert_bot.py:125-142 | the triggered list and the alert trace come from one strictly increasing sequence of table positions; it holds every firing asset and nothing else, and the k-th alert belongs to the k-th triggered ticker |
| Run.TriggeredMembership | telegram_alert_bot.py:125-142 | a ticker is in the triggered list exactly when some asset with that ticker fired |
| Run.TriggeredDistinct | telegram_alert_bot.py:125-142 | with distinct table tickers, no ticker is triggered twice, and when alerts name their own asset no ticker is alerted twice |
| Run.TriggeredAppend | telegram_alert_bot.py:125-145 | the run over two concatenated tables is the run over the first followed by the run over the second |
| Run.FailedAssetContributesNothing | telegram_alert_bot.py:144-145 | an asset whose evaluation fails leaves the triggered list as if it were not in the table |
| Run.TriggeredCongruent | telegram_alert_bot.py:125-145 | two evaluations that give every asset the same outcome give the same triggered list |
| Run.TriggeredAround | telegram_alert_bot.py:125-145 | changing the outcome of one asset changes only that asset's contribution to the triggered list |
| Run.OnlyOwnQuotesMatter | telegram_alert_bot.py:125-145 | changing what the providers say about one asset changes only that asset's contribution; every other asset contributes as before |
| Run.RunReport | telegram_alert_bot.py:125-148 | after a run, one alert per triggered ticker, naming it, in the same order; for valid tickers the summary is never empty, is the sentinel exactly when nothing fired, and parses back to the list |
| Run.CheckAssets | telegram_alert_bot.py:122-148 | the loop produces the reference triggered list and alert trace, with one alert per triggered ticker in the same order; the returned summary is the joined list or the sentinel, and for valid tickers it is never empty and parses back to the list |
| Assets.ConfiguredWellFormed | telegram_alert_bot.py:40-62 | the `ASSETS` table (`Assets.Configured`) has 19 assets, each with a positive fair value and a margin of 0.15 or 0.20 |
| Assets.ConfiguredTickersValid | telegram_alert_bot.py:40-62 | every ticker of `Assets.Configured` is a bare symbol of upper-case letters and digits |
| Assets.ConfiguredDistinct | telegram_alert_bot.py:40-62 | no ticker appears twice in `Assets.Configured` |
| Assets.ConfiguredRun | telegram_alert_bot.py:122-148 | on the configured table, a ticker fails only for lack of a price, no ticker is triggered or alerted twice, and the summary is non-empty, is the sentinel exactly when nothing fired, and parses back to the triggered list |

## Left out

- HTTP calls and provider JSON parsing (`get_price_brapi`, `get_price_yahoo`, lines 73-88 and 90-101; the suffix at line 89 is modelled): each provider is an abstract `string -> Option<real>`. The primary's own truthiness filter on `regularMarketPrice` lives inside that abstraction.
- Telegram posting (`send_alert`, lines 112-118): it catches every exception, so no exception from it interrupts the loop. It is modelled only as appending the alert's event to a trace. `requests.post` at line 114 has no timeout, unlike the price requests at lines 76 and 93, so a stalled endpoint blocks the run; the model assumes every post returns.
- Message and log formatting and the timestamp (lines 123, 131-140, `strftime`, `%.2f`/`%.1f`): these are locale and float-printing details. The alert event keeps the values the message is built from.
- Flask routes and the `__main__` entry points (lines 18-28, 151-162): web and command-line wrappers around `check_assets`.
- Environment-variable checks (lines 11-14, 65-69): startup configuration, not logic.
- `time.sleep` (line 147): a timing side effect with no behavioural content.
- IEEE-754 rounding: prices, fair values and margins are exact reals, so `price <= trigger` is decided without rounding.
