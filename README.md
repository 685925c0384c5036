# Bid-rate analyser: a Dafny model

This project models the analytical engine of the "1365 사정율 분석기", a
tool for Korean public-procurement construction bids. For each announcement
number the user enters, it:

- reads the officer's name, the preliminary base-price estimates (복수예가),
  the successful-bid lower-limit rate, the A value (the sum of seven cost
  items) and the opening results (개찰결과) from the public procurement API;
- builds the theoretical ("1365") rate set: the mean self-rate of every
  4-combination of the estimates, sorted and numbered;
- reconstructs each bidder's assessment rate from the bid amount;
- combines both into one table sorted by rate and rounded to 5 places.

Over all announcements of one officer, it then:

- pools the winners' rates, the theoretical rates and every bidder's rate;
- merges the tables on the rate axis;
- finds the hot zone, the 0.3-point window holding the most winning rates;
- finds inside the hot zone the blue ocean: the 0.0005-point bin where
  theoretical density is high and bidders are few;
- reports the upper edge of that bin, rounded to 4 places, as the
  recommended rate.

Everything lives in `app.py`. The model takes each network reply as an
input value (`Lookups.Reply`: unreachable, undecodable, or a decoded JSON
document). Rates are exact `real`s.

Modules, one per file:

- `Wrappers`: `Option` and `Result`.
- `Text`: Python's `strip`, `split`, `join`, `replace`, `str(int)` and
  `float(str)`.
- `Json`: the decoded documents; Python truthiness, `dict.get`, `str()`
  and numeric conversion.
- `Envelope`: `safe_get_items` and the bid-results item reader.
- `Input`: announcement identifiers and the entered list.
- `Lookups`: the officer name, the A value, the lower-limit rate and the
  decoding of estimates and bids.
- `Rounding`: Python's `round` (ties to even).
- `Sequences`: the stable sort, first-occurrence deduplication and
  `unique` plus sort, which stand in for pandas.
- `Theoretical`: the 4-combinations and the theoretical rate set.
- `Reconstruct`: the bid-rate formula and the display set.
- `Announcement`: `analyze_gongo`.
- `HotZone`: `find_hot_zone`, as a loop.
- `BlueOcean`: `find_blue_ocean_v3`, with its scoring loop.
- `Merge`: the integrated table, built by a loop.
- `Batch`: `process_analysis`, with its collecting loop.

The imperative parts of the source are methods proved equal to the
specification functions: the hot-zone scan, the blue-ocean scoring loop,
the collecting loop and the column-by-column merge. The lemmas are stated
about those functions.

## Model

| member | source | states |
|---|---|---|
| Envelope.SafeGetItems | app.py:34-60 | the list under `items`; the list, or the single non-empty object wrapped, under `items.item`; `[]` for a missing or falsy node and for every other shape, including those where Python would raise |
| Envelope.WrappedListRoundTrip | app.py:49-56 | items sent as `items.item = [..]` come back as that list |
| Envelope.BareListRoundTrip | app.py:46-47 | items sent as `items = [..]` come back as that list |
| Envelope.SingleObjectIsListed | app.py:53-54 | a single non-empty object under `items.item` becomes a one-element list |
| Envelope.NoItemsNoData | app.py:41-44 | a falsy `items` node gives no items |
| Envelope.BidItems | app.py:332-346 | the bid-results reader gives no items when the envelope path is broken |
| Envelope.BidItemsAgree | app.py:332-346 | the bid-results reader agrees with `safe_get_items` except on an empty object under `items.item`, which it keeps as one item |
| Json.Field | app.py:39-41 | `d.get(key, default)`: the value when present, else the default |
| Json.PyStr | app.py:120-121 | `str()` of a non-string value is never blank |
| Json.ToNumber | app.py:96-97 | integers and floats read as themselves; null, lists and objects do not read as numbers |
| Json.ToNumberOfIntText | app.py:304 | the text of an integer reads back as that integer |
| Text.Strip | app.py:415 | `strip()` leaves no whitespace at either end |
| Text.StripIsInfix | app.py:244-247 | what `strip()` removes is whitespace, from the two ends only |
| Text.StripIdempotent | app.py:442 | stripping twice is stripping once |
| Text.StripEmptyIffBlank | app.py:415 | the stripped text is empty exactly when the text is all whitespace |
| Text.Split | app.py:243 | `split(sep)` gives at least one part, no part holds `sep`, and two or more parts exactly when `sep` occurs |
| Text.SplitAround | app.py:441 | splitting at one separator splits the text before it and the text after it on their own |
| Text.JoinSplit | app.py:243 | joining the parts of a split with the separator gives the text back |
| Text.SplitJoin | app.py:441 | splitting a join of separator-free parts gives the parts back |
| Text.ReplaceChar | app.py:441 | `replace(a, b)` changes exactly the occurrences of `a`, and the length stays the same |
| Text.ParseIntText | app.py:304 | `float()` of the text of an integer is that integer |
| Input.ParseIdentifier | app.py:242-248 | with a `-`: the stripped first and second parts; without one: the stripped text and ordinal `"00"`; both parts are stripped and hold no `-` |
| Input.ParseFormat | app.py:242-245 | writing `number-ordinal` and parsing it gives the identifier back |
| Input.ParsePlainNumber | app.py:246-248 | without a `-` the ordinal is `"00"` and the number is the stripped text |
| Input.Entries | app.py:441 | every entry is non-empty, stripped, and free of commas and line breaks |
| Input.NonBlankStrippedAppend | app.py:441 | stripping and dropping blank parts works part by part, keeping order |
| Input.EntriesOfPlain | app.py:441 | text without a comma or line break is one entry, stripped, or none when blank |
| Input.EntriesAround | app.py:441 | a comma or a line break separates the entries before it from those after it, in order |
| Input.EntriesOfPaddedList | app.py:441 | padded entries with blank lines between them, as in `" a ,\n\n b "`, read as `a`, then `b` |
| Input.EntriesOfLines | app.py:441 | identifiers written one per line are read back in order |
| Input.EntriesOfCommaList | app.py:441 | identifiers written as a comma list are read back in order |
| Lookups.ReplyItems | app.py:75-76 | a reply that failed has no items; a decoded one has the items `safe_get_items` finds |
| Lookups.NameField | app.py:120 | a field gives a name exactly when it is present and its stripped text is not blank; the name is that stripped text |
| Lookups.FirstName | app.py:119-122 | the first key, in order, whose field holds a name; `확인불가` when none does |
| Lookups.OfficerName | app.py:105-124 | the officer name is non-empty and stripped, and is `확인불가` without items |
| Lookups.OfficerPrefersExecutive | app.py:119-121 | a non-blank `exctvNm` wins |
| Lookups.OfficerFallsBackToCharge | app.py:119-121 | with a blank or missing `exctvNm`, a non-blank `chrgrNm` is named |
| Lookups.OfficerUnknownWithoutNames | app.py:119-122 | with none of the three fields holding a name the officer is `확인불가` |
| Lookups.AValue | app.py:66-102 | the A value is 0 when the reply has no item |
| Lookups.CostUnreadableIsAbsent | app.py:96-97 | a cost field that does not read as a number counts as if it were missing |
| Lookups.CostIgnoresOtherFields | app.py:90 | fields that are not cost items do not change the sum |
| Lookups.CostAddsField | app.py:94-98 | filling in a missing cost item with a number adds that number |
| Lookups.SuccessRate | app.py:293-306 | the first item's `sucsfbidLwltRate` when it reads as a number; 0 without items, when the first item is not an object or lacks the field, or when the field does not read as a number |
| Lookups.CellOf | app.py:272-273 | after `astype(float)` a missing or null cell is NaN (blank), a readable one its number, anything else makes the cast fail |
| Lookups.RowOf | app.py:271-273 | an item gives a row exactly when it is an object whose two cells cast |
| Lookups.RowsOf | app.py:271-273 | all items give rows, in order, or some item does not |
| Lookups.DecodeEstimates | app.py:267-273 | a frame exactly when there are items, both columns exist in some item and every cell casts; then one row per item, in order, missing cells kept as absent |
| Lookups.DecodedBasePrice | app.py:274 | with two or more rows the base price is the second item's `bssamt`, whatever the other cells hold |
| Lookups.DecodeEstimatesRoundTrip | app.py:271-273 | estimates sent as items decode back to full rows, whose complete estimates are those sent |
| Lookups.MissingPlanAmountKeepsBase | app.py:271-274 | a third item without `bsisPlnprc` keeps all three rows and the second item's base price |
| Lookups.ReadableBids | app.py:353-354 | every kept bid comes from an item whose amount reads as a number |
| Lookups.DecodeBids | app.py:348-356 | no bid table exactly when no item has `bidprcAmt`; the name column exists exactly when some item has `prcbdrNm` |
| Lookups.UnreadableBidDropped | app.py:353-354 | a row whose amount does not read as a number is dropped |
| Lookups.ReadableBidsRoundTrip | app.py:353-354 | named bids sent as items decode back to themselves |
| Theoretical.BinomBelow | app.py:277 | fewer than 4 estimates have no 4-combination |
| Theoretical.Binom4 | app.py:279 | C(n, 4) = n(n-1)(n-2)(n-3)/24 |
| Theoretical.Combinations | app.py:279 | `itertools.combinations`: C(n - lo, k) index lists, each strictly increasing within range |
| Theoretical.CombinationsComplete | app.py:279 | every strictly increasing `k`-list of indices occurs |
| Theoretical.CombinationsDistinct | app.py:279 | no combination occurs twice |
| Theoretical.SelfRates | app.py:275 | one self-rate `bsisPlnprc / bssamt * 100` per estimate |
| Theoretical.CombinationMeans | app.py:278-280 | there are C(n, 4) means |
| Theoretical.CombinationMeanSource | app.py:278-280 | every mean is the mean over four distinct indices |
| Theoretical.CombinationMeanPresent | app.py:278-280 | every 4-combination contributes its mean |
| Theoretical.Number | app.py:286 | rates are numbered 1..N in order |
| Theoretical.TheoreticalRates | app.py:277-286 | none below 4 estimates; C(n, 4) rates, numbered from 1, ascending, a permutation of the combination means |
| Theoretical.TheoreticalRateSource | app.py:278-280 | each theoretical rate is the mean self-rate of four distinct estimates |
| Theoretical.TheoreticalCount | app.py:277-280 | there are exactly n(n-1)(n-2)(n-3)/24 theoretical rates |
| Theoretical.CompleteEstimates | app.py:275-279 | the rows with both amounts, in order: an estimate is kept exactly when its full row occurs |
| Theoretical.CompleteOfFullRows | app.py:275-279 | rows that are all full give back their estimates |
| Theoretical.BasePrice | app.py:274 | `bssamt` of the second row when there are two or more, of the first when there is one; absent (NaN) when that cell is |
| Sequences.SortBy | app.py:401 | the sort is ascending by key and a permutation |
| Sequences.SortReals | app.py:283 | the sorted rates are ascending and a permutation |
| Sequences.SortedPermutationUnique | app.py:283 | two ascending permutations of the same reals are equal, so the sort algorithm does not matter |
| Sequences.DedupBy | app.py:378 | `drop_duplicates`: distinct keys, drawn from the input, every key of the input kept |
| Sequences.SortedUnique | app.py:510-511 | `unique` then sort: strictly increasing, holding exactly the input's values |
| Sequences.StrictlyIncreasingUnique | app.py:510-511 | two strictly increasing lists of the same values are equal |
| Rounding.RoundHalfEven | app.py:373 | the nearest integer, ties to the even one |
| Rounding.HalfEvenUnique | app.py:373 | those two properties single out one integer |
| Rounding.HalfEvenMonotone | app.py:402 | rounding to integers keeps order |
| Rounding.RoundError | app.py:373 | `round(x, 5)` is within half a step of `10^-5` of `x` |
| Rounding.RoundIsWholeSteps | app.py:402 | `round(x, 5)` is a whole number of `10^-5` steps |
| Rounding.RoundMonotone | app.py:401-402 | rounding to 5 places keeps order |
| Rounding.RoundIdempotent | app.py:402 | rounding a rounded rate changes nothing |
| Rounding.RoundZero | app.py:363-373 | the sentinel rate 0 rounds to 0 |
| Rounding.RoundError4 | app.py:643 | `round(x, 4)` is within half a step of `10^-4` of `x` |
| Reconstruct.RateAmountRoundTrip | app.py:359-361 | converting a reconstructed rate back gives the bid amount |
| Reconstruct.AmountRateRoundTrip | app.py:359-361 | reconstructing the amount of a rate gives the rate |
| Reconstruct.BidRateIncreasing | app.py:359-361 | a lower bid gives a strictly lower rate |
| Reconstruct.RateBids | app.py:359-363 | every bid, in order, keeps its name and gets the formula's rate |
| Reconstruct.SentinelRates | app.py:362-363 | without a positive lower-limit rate and base price every rate is 0 |
| Reconstruct.DistinctBidsDistinctRates | app.py:359-361 | distinct amounts give distinct rates |
| Reconstruct.BidderRates | app.py:366 | one rate per bid, in order, duplicates kept |
| Reconstruct.Band | app.py:379 | exactly the rows whose rate is in `[90, 110]` |
| Reconstruct.BandDedupCommute | app.py:378-379 | the band filter and deduplication by rate commute |
| Reconstruct.DedupKeepsFirst | app.py:378 | deduplication keeps the first row of each rate |
| Reconstruct.DisplaySet | app.py:378-379 | displayed rates are distinct, in the band and taken from the bids, and every in-band rate is displayed |
| Reconstruct.DisplaySetKeepsFirst | app.py:378 | every displayed row is the first bid at its rate |
| Announcement.TheoRows | app.py:392 | theoretical rates are labelled by their sequence number as text |
| Announcement.BidRowsOf | app.py:380 | displayed bids are labelled by their bidder name |
| Announcement.RoundRowsPermutation | app.py:401-402 | rounding keeps permutations |
| Announcement.Finish | app.py:400-402 | the table is sorted by rate and is a permutation of the rounded rows |
| Announcement.CombineAsWrittenFails | app.py:381-398 | the code raises exactly when `df_rates` is not empty and there is no bid table; otherwise it agrees with `Combine` |
| Announcement.CombineKeepsTheoreticalRates | app.py:389-398 | one theoretical rate and no opening results: the code raises, `Combine` keeps the rate |
| Announcement.Combine | app.py:389-402 | the combined table has every theoretical and displayed row, sorted by rate, rounded |
| Announcement.BidSection | app.py:348-384 | no bid table: `개찰결과 없음`, rate 0, no rates; otherwise distinct displayed rates in the band, drawn from the bid rates, and every in-band bid rate displayed |
| Announcement.DisplayRowsFromRates | app.py:366-380 | every displayed rate is some bid's rate |
| Announcement.DisplayRowsComplete | app.py:366-380 | every in-band bid rate is displayed |
| Announcement.WinnerIsFirstBid | app.py:357-373 | the winner is row 0, its rate rounded to 5 places, taken before deduplication and the band filter; one rate per bid |
| Announcement.SentinelShowsNoBids | app.py:359-379 | with the sentinel, the winner rate is 0, all rates are 0 and no bid is displayed |
| Announcement.TheoOf | app.py:264-286 | no theoretical rates without an estimate frame; otherwise those of its complete rows, when no base amount is zero |
| Announcement.Analyze | app.py:233-408 | unreachable estimates: an exception; unreachable opening results: an HTTP error; otherwise the stripped number, the officer, the theoretical rates and a table sorted by rate (with the corrected `Combine`) |
| Announcement.TheoryNeedsRateFrame | app.py:277-286 | numeric theoretical rates only come with a built `df_rates`, i.e. an estimate frame of at least four rows |
| Announcement.AnalyzeAsWritten | app.py:233-408 | the code's own analysis: it agrees with `Analyze` except that it raises when the estimate frame has at least four rows and there is no bid table |
| Announcement.UndecodableBidsKeepTheory | app.py:345-402 | in the corrected analysis, undecodable opening results give `개찰결과 없음`, rate 0, and the theoretical rows as the table |
| Announcement.UndecodableBidsFailAsWritten | app.py:345-408 | as written, undecodable opening results make the analysis an exception exactly when the estimate frame has at least four rows |
| Announcement.NonNumericRatesFailAsWritten | app.py:271-408 | four or more rows with fewer than four complete ones, or a zero `bssamt`, give no numeric theoretical rate, yet as written undecodable opening results still raise, where the corrected analysis gives an empty table |
| HotZone.CountIn | app.py:144 | the window count is at most the number of rates |
| HotZone.CountInMember | app.py:144 | a rate in the window is counted |
| HotZone.MinOf | app.py:138 | the lowest rate |
| HotZone.MaxOf | app.py:138 | the highest rate |
| HotZone.StartCountScans | app.py:141-148 | the scan tries exactly the starts `min + k*step` that do not pass the maximum |
| HotZone.BestIndex | app.py:145-147 | the first start of the largest count |
| HotZone.HotZoneOf | app.py:134-135 | no zone exactly when there are no rates |
| HotZone.HotZoneIsFirstFullest | app.py:140-150 | the zone is a tried window, none holds more, every earlier one holds fewer, and it is the only such window |
| HotZone.HotZoneBounds | app.py:141-143 | the zone starts between the lowest and the highest rate and spans the window |
| HotZone.HotZoneNonEmpty | app.py:142-147 | the zone holds at least one rate |
| HotZone.HotZoneSingleton | app.py:130-150 | a single rate is its own zone |
| HotZone.FindHotZone | app.py:130-150 | the loop computes `HotZoneOf`: the first fullest window |
| BlueOcean.InRange | app.py:167-168 | exactly the pool's rates within the zone |
| BlueOcean.Edges | app.py:173-175 | at least two edges, from `hot_start` reaching `hot_end`, non-decreasing, strictly increasing unless the fallback pair |
| BlueOcean.ArangeIncreasing | app.py:173 | `arange` edges strictly increase |
| BlueOcean.EdgesReach | app.py:173 | the last `arange` edge reaches `hot_end` |
| BlueOcean.Histogram | app.py:177-178 | one count per bin, half-open bins, the last closed |
| BlueOcean.CountSplit | app.py:177 | splitting a closed range at an inner edge splits its count |
| BlueOcean.HistogramTotal | app.py:177-180 | the bins count every value between the first and last edge exactly once |
| BlueOcean.MaxNat | app.py:184 | the largest count |
| BlueOcean.ScoreClosedForm | app.py:183-207 | the score is `tc / (max * (bc + 1))`: the normalising total cancels |
| BlueOcean.ScoreRange | app.py:205-207 | a bin with theoretical rates scores in `(0, 1]` |
| BlueOcean.FewerBiddersScoreHigher | app.py:205-207 | at equal theoretical count, fewer bidders score strictly higher |
| BlueOcean.ScoredRowsFacts | app.py:193-216 | every row is a bin with theoretical rates, scoring in `(0, 1]`, centred on a bin |
| BlueOcean.RowsByCenter | app.py:226 | rows come in strictly increasing centre, so sorting by centre changes nothing |
| BlueOcean.BestBinFacts | app.py:218-223 | the kept bin scores highest and strictly above every earlier one, and exists exactly when there are rows |
| BlueOcean.BestBinUnique | app.py:218-221 | only one bin is first of the highest score |
| BlueOcean.Search | app.py:188-227 | nothing exactly when no bin has theoretical rates; otherwise rows in `(0, 1]` by increasing centre and the first best bin's edges |
| BlueOcean.BlueOceanFound | app.py:164-186 | nothing exactly when a bound is missing or either pool has no rate in the zone |
| BlueOcean.BinsFound | app.py:177-186 | theoretical rates in the zone always land in a bin |
| BlueOcean.BlueOceanBest | app.py:188-227 | a found blue ocean's rows and best range are those of the first best bin |
| BlueOcean.FindBlueOcean | app.py:153-227 | `find_blue_ocean_v3` computes `BlueOceanOf` |
| BlueOcean.ScoreBins | app.py:188-227 | the scoring loop computes `Search` |
| Merge.FirmsAt | app.py:525-526 | exactly the firms of the table at the rate |
| Merge.RatesOf | app.py:510 | exactly the rates of all tables |
| Merge.MergeAsWrittenRepeatsFirms | app.py:510-531 | two firms of one table at a rate another table has make two rows, repeating the other table's firm |
| Merge.AddColumn | app.py:525-526 | one column more, each row's cell being the table's firms at its rate |
| Merge.AddColumns | app.py:516-528 | one column per table, in order, earlier columns unchanged |
| Merge.Integrate | app.py:516-531 | the column-by-column loop computes `MergeTables` |
| Merge.MergeTablesRows | app.py:510-531 | each rate of any table exactly once, ascending, column `j` holding table `j`'s firms at that rate |
| Merge.MergeKeepsEveryFirm | app.py:516-531 | column `j` holds exactly the firms of table `j`, each as often as the table has it |
| Merge.MergeColumnRenders | app.py:526 | on a table without repeated rates, one outer merge adds that table's column |
| Merge.MergeAgreesOnDistinctRates | app.py:510-531 | when no table repeats a rate, the code's merged frame is the integrated table |
| Batch.Step | app.py:451-485 | a failed or excluded announcement adds its log line and changes nothing else; a kept one adds its table when not empty, its winner rate when not zero, and all of its theoretical and bid rates; included tables stay non-empty and the target officer's |
| Batch.Kept | app.py:451-472 | the kept analyses, in entry order, are all the target officer's |
| Batch.CollectKept | app.py:451-485 | the tables, winner rates, theoretical rates and bid rates pooled are exactly those of the kept announcements, in entry order |
| Batch.Collect | app.py:444-485 | one log line per entry, at most one table each, all non-empty and the target officer's, only non-zero winner rates |
| Batch.CollectPools | app.py:444-485 | the loop computes `Collect` |
| Batch.Process | app.py:414-695 | no data: `filtered = 0`, `missing = total`; a report: `filtered + missing = total`, one column per kept table |
| Batch.ReportOn | app.py:685-695 | `total` entries, `filtered` kept tables, `missing = total - filtered` |
| Batch.ReportFacts | app.py:592-594 | the report's hot zone is the first fullest over non-zero winner rates; its rate column strictly ascends; every column is the target officer's |
| Batch.RecommendedRate | app.py:640-643 | a blue-ocean range exactly when one was found; the recommended rate is its upper edge rounded to 4 places |
| Batch.CollectNoneKept | app.py:463-466 | announcements that fail or are excluded include nothing |
| Batch.NoMatchingOfficer | app.py:487-505 | with no announcement of the target officer, the run reports no data |
| Batch.StepWinnerRates | app.py:477-478 | the winner pool is unchanged exactly when the announcement failed, was excluded or has rate 0; it is empty afterwards exactly when it was empty and nothing was added |
| Batch.CollectWinnerRates | app.py:477-478 | the winner pool is empty exactly when every kept announcement has rate 0 |
| Batch.WinnerPoolEmptyWhen | app.py:592-594 | the run crashes on `min([])` exactly when a table is merged but every kept winner rate is 0 |
| Batch.KeepsOfficer | app.py:458-464 | the officer filter compares the stripped officer with the stripped target |
| Batch.ProcessAnalysis | app.py:414-695 | the step-by-step run computes `Process` |

## Left out

- HTTP requests, URLs, time-outs and the service key. Each reply is an input `Reply`, and a run takes `hasKey` and one `Replies` per identifier (`fetch`), deterministic per identifier.
- `json.loads` and `xmltodict.parse`. The model starts from decoded documents; a decode failure is `Undecodable`.
- The Excel workbook (file name, header row, styling, winner highlight), the Altair charts, the Markdown report text and the Streamlit UI and session state. These are presentation and file output.
- IEEE-754 floating point: drift in `start += step` and `np.arange`, NaN, infinities. Rates are exact reals.
- Theoretical.TheoreticalRates: an estimate whose `bssamt` is 0 gives an infinite or NaN self-rate in the source; the model gives that announcement no theoretical rates (`Announcement.TheoOf`).
- Announcement.TheoOf: a row with a missing or null amount makes every combination it joins a NaN mean, which the source sorts after the numeric rates and numbers last; the model keeps only the numeric rates, so those NaN rows are missing from its table and pools. Whether the code raises for lack of a bid table does not depend on them: `AnalyzeAsWritten` keys it on the frame's row count.
- Lookups.DecodeEstimates: a JSON object under `bssamt` or `bsisPlnprc` is flattened by `json_normalize` into other columns in the source; the model treats it as a cell that does not cast, which drops the frame.
- Json.PyStr: Python's text of a float, list or dictionary is replaced by a fixed non-blank stand-in; only non-blankness is used.
- Rounding.RoundError: the rounding lemmas are stated at the 5 places the tables use and, for the recommended rate, at 4 places; `Round` itself is general.
- Sequences.SortBy: a stable insertion sort. pandas' default sort is not stable, so rows of equal rate may come out in another order in the source; the rates column is the same.
- Lookups.AValue: only the first item's cost fields are summed, as in the source; a non-object first item gives 0.
- The column header text `number\n[officer]\nwinner` and the row of winner rates above the merged table are kept as the `Batch.Column` values, not as formatted text; duplicate header names are not modelled.
- The log line texts are modelled as `Batch.LogEntry` values, not as strings.
- Announcement.Analyze: it uses the corrected `Combine` (see Findings). With an estimate frame of four or more rows (whether or not its means are numeric) and opening results that are undecodable, empty, lack `bidprcAmt` or hold no readable amount, the source raises at app.py:393 and reports an exception; `Analyze` returns its numeric theoretical rows, possibly none, instead. `Announcement.AnalyzeAsWritten`, `NonNumericRatesFailAsWritten` and `UndecodableBidsFailAsWritten` state the code's behaviour.
- Batch.Process: it runs on `Analyze` and on the corrected `Merge.MergeTables`. For an announcement of the case above, the source logs an error, counts it as missing and pools none of its rates, so its filtered and missing counts, its blue-ocean input and its recommended rate can differ from the model's. Its merged table also lacks the source's duplicated rows of app.py:510-531.
- Batch.ProcessAnalysis: it computes `Process`, so the two differences above apply to it as well.
- Batch.Process: when every kept winner rate is 0, the source raises on `min([])` (app.py:592-594); the model ends the run with `WinnerPoolEmpty` instead of a fallback.

## Findings

| source | as written | input that shows it | evidently intended | confidence | as-written member | corrected member |
|---|---|---|---|---|---|---|
| app.py:381-398 | with no usable opening results the bid table is a frame without columns, and selecting `업체명` and `rate` from it raises, so the whole announcement is reported as an exception | an announcement with four estimates and undecodable or empty opening results | the theoretical rates alone form the combined table | not executed | Announcement.CombineKeepsTheoreticalRates | Announcement.Combine |
| app.py:510-531 | repeated outer merges on `rate` pair every left row with every right row of the same rate, so a rate two firms share makes two rows and repeats other tables' firms | tables `[("1", 100), ("2", 100)]` and `[("A", 100)]` give rows `100: 1, A` and `100: 2, A` | one row per distinct rate, each table's firms at that rate in its column | not executed | Merge.MergeAsWrittenRepeatsFirms | Merge.MergeKeepsEveryFirm |
