# RedStone TVS bot: aggregation, formatting and publish decision

A model of the deterministic core of a Discord bot that polls a protocol
analytics endpoint for RedStone's "Total Value Secured" (TVS) and shows it as
the bot's presence. Three pieces of `index.js` are modelled:

- **Aggregation** (`fetchRedStoneTVS`): every entry of `currentChainTvls` adds
  its value to the running total and to one breakdown bucket, chosen by the
  first marker its key contains (`-staking`, `-pool2`, `-borrowed`,
  `-doublecounted`, `-liquidstaking`, `-vesting`, checked in that order; keys
  with none go to `tvl`). Buckets start lazily from 0. The loop is the method
  `Tvs.Aggregate`, proved against the reference functions `Sum` and
  `BucketTotal`; the breakdown is a `map<string, real>`.
- **Formatting** (`formatNumber`): a three-way threshold choice between the
  `B` tier (at least 1e9), the `M` tier (at least 1e6) and plain units, always
  with a `$` prefix.
- **Publishing** (`updateBotStatus`): a failed fetch or a client that is not
  ready publishes nothing; otherwise exactly one presence is set, named
  `"RedStone TVS: " + formatted`, of kind Watching, with status online.

Files: `wrappers.dfy` (an `Option` type standing for `null` and absent
properties), `text.dfy` (`String.prototype.includes` and a reference definition
of containment), `tvs.dfy` (classification and aggregation), `number_format.dfy`
(`formatNumber`), `status.dfy` (the chat client and `updateBotStatus`).

Modelling choices:

- Values are exact `real`s. JavaScript adds doubles, whose addition is not
  associative, so the conservation property (bucket sums add up to the total)
  holds for the model, and for the program only up to rounding.
- `Object.entries(data.currentChainTvls)` is a sequence of `(key, value)`
  pairs; `currentChainTvls` being absent (falsy) is `None`.
- The HTTP request is an input: `Option<ProtocolData>`, where `None` stands
  for every case in which the `try` block throws and `fetchRedStoneTVS`
  returns `null`: a network error, a non-2xx status (which axios rejects), or
  a body that parses to `null`. An empty body does not throw: it has no
  `currentChainTvls`, which is `Some(ProtocolData(None))`, and gives total 0,
  so `$0.00` is published.
- The digit rendering of `toFixed(2)` and `toLocaleString` is abstract: the
  two renderers are function parameters `fixed2` and `grouped2`. The suffix
  properties assume only that `grouped2` (`toLocaleString`, used below 1e6)
  writes numeric text (digits, `,`, `.`, `-`). Nothing is assumed of
  `fixed2`, since `toFixed(2)` switches to exponent form (`1e+21`) from 1e21 on.
- The Discord client is a class with a `ready` flag and a log of the presences
  set on it; `setPresence` appends to the log.
- `index.js` adds each value as it is, with no rule that unparseable values
  count as zero, and it has no HTML-scraping or currency-text fallback;
  neither is modelled.

## Model

| member | source | states |
|---|---|---|
| `Text.Includes` | index.js:39-49 | `key.includes(marker)`, a left-to-right scan over start indices, is true exactly when the marker occurs at some index of the key |
| `Text.ShiftContains` | index.js:39-49 | when the marker does not start the key, it occurs in the key exactly when it occurs in the key without its first character (the step of the scan) |
| `Tvs.Classify` | index.js:39-53 | every key is put in one of the seven buckets `staking`, `pool2`, `borrowed`, `doublecounted`, `liquidstaking`, `vesting`, `tvl` |
| `Tvs.ClassifyFirstMatch` | index.js:39-53 | a key goes to the bucket of marker i exactly when it contains marker i and none of the earlier markers, and to `tvl` exactly when it contains none |
| `Tvs.FirstMarkerWins` | index.js:39-42 | `x-staking-pool2` goes to `staking` only: the earlier marker wins |
| `Tvs.KeyBase` | index.js:51-53 | a key without any marker (`chainA`) goes to `tvl` |
| `Tvs.KeyStaking` | index.js:39-40 | `chainA-staking` goes to `staking` |
| `Tvs.KeyPool2` | index.js:41-42 | `chainA-pool2` goes to `pool2` |
| `Tvs.TotalOverSnoc` | index.js:36-53 | one more entry raises the summed totals of a list of distinct buckets by its value exactly when its bucket is in the list, and leaves them alone otherwise |
| `Tvs.BucketsConserveTotal` | index.js:36-53 | the totals of all seven buckets add up to the sum of all values, since every entry lands in exactly one bucket |
| `Tvs.MapSumOfTotals` | index.js:40-52 | a breakdown that holds each bucket's total (0 for a bucket not started) has the same sum as those totals |
| `Tvs.SumSnoc` | index.js:37 | one more entry raises the running total by exactly its value |
| `Tvs.BucketTotalSnoc` | index.js:39-53 | one more entry raises exactly the total of its own bucket by its value and leaves every other bucket's total alone |
| `Tvs.BreakdownStep` | index.js:39-53 | one round of the loop body, adding the value to the entry's bucket started from 0 when absent, keeps the breakdown equal to the bucket totals and its keys equal to the buckets some entry went to |
| `Tvs.BreakdownConservesTotal` | index.js:36-53 | a breakdown built that way uses only the seven bucket names and its values sum to the total |
| `Tvs.Aggregate` | index.js:32-55 | the total is the sum of all values; each bucket holds the sum of the values classified into it; a bucket is present exactly when some entry was classified into it; only the seven bucket names occur; the breakdown sums to the total; an absent `currentChainTvls` gives total 0 and an empty breakdown |
| `Tvs.FetchTvs` | index.js:27-64 | the result is null exactly when the request threw, and otherwise the sum of all values of `currentChainTvls` (0 when it is absent) |
| `Tvs.WorkedTotal` | index.js:32-37 | entries `chainA` 100, `chainA-staking` 50, `chainA-pool2` 25 total 175 |
| `Tvs.ClassifiedIntoOfThree` | index.js:39-53 | over three entries, a bucket receives something exactly when one of the three keys is classified into it |
| `Tvs.WorkedBreakdown` | index.js:36-53 | the same entries put 100 in `tvl`, 50 in `staking` and 25 in `pool2`, and no entry in any other bucket, so the breakdown is exactly those three |
| `NumberFormat.ScaleOf` | index.js:17-24 | the scaled value passed to the renderer is at least 1 in the `B` branch and lies in [1, 1000) in the `M` branch, and the untiered branch covers only numbers below 1e6 (rounding to two decimals can still show `1000.00M` or `1,000,000.00`) |
| `NumberFormat.FormatNumber` | index.js:17-25 | the text starts with `$` and ends with the suffix of the number's tier (`B`, `M` or none); between them stands `fixed2` of the number divided by its tier's divisor (1e9 or 1e6), or `grouped2` of the unscaled number below 1e6 |
| `NumberFormat.ScaleReadBack` | index.js:18-24 | for any `fixed2`, and a `grouped2` that writes numeric text, the tier read back from the last character of the text is the tier of the number |
| `NumberFormat.SuffixByThreshold` | index.js:18-24 | as a consequence of the read-back, for any `fixed2`, and a `grouped2` that writes numeric text, the text ends in `B` exactly when num >= 1e9 and in `M` exactly when 1e6 <= num < 1e9 |
| `Status.Client.IsReady` | index.js:78 | `client.isReady()` reports the session's ready flag |
| `Status.Client.SetPresence` | index.js:79-85 | a presence update appends exactly that presence to the client's log |
| `Status.StatusPresence` | index.js:79-85 | the published presence has a single Watching activity named `RedStone TVS: ` followed by the formatted total, with status online |
| `Status.UpdateBotStatus` | index.js:67-94 | no presence is set when the fetch result is null or the client is not ready; otherwise exactly one is set, carrying the formatted total |

## Left out

- Creating the Discord client, logging in, the `ready` and `error` handlers and the internals of `setPresence` (index.js:1, 13-15, 96-117): library calls; the client is only a ready flag and a log of updates.
- The HTTP GET with axios and its exception path (index.js:29, 61-63): network I/O; the response is an `Option` input.
- The cron schedule every 15 minutes and overlapping runs (index.js:101-104): timers and concurrency.
- Reading `DISCORD_BOT_TOKEN` and `process.exit` (index.js:5-11): process lifecycle.
- All `console.log` and `console.error` output, including the logged breakdown: logging only.
- The outer `try`/`catch` of `updateBotStatus` (index.js:91-93): nothing in the modelled steps throws.
- Digit rendering by `toFixed(2)` and `toLocaleString` with thousands separators (index.js:19, 21, 23): floating-point-to-decimal formatting, kept abstract as parameters.
- Non-numeric values in `currentChainTvls` (JavaScript would concatenate strings or produce NaN): values are modelled as numbers.
- Floating-point rounding of the running sums: values are exact reals.
- NumberFormat.ScaleOf: bounds the scaled value before rendering, not the rounded digits shown; `toFixed(2)` and `toLocaleString` round, so 999999999 shows `$1000.00M` and 999999.999 shows `$1,000,000.00`.
