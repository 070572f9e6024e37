# Bac Bo next-outcome predictor, modelled in Dafny

The predictor reads the history of a three-outcome game (Banker `B`, Player `P`,
Tie `T`) and guesses the next outcome. It combines three frequency models:

- **Order 1** (`matriz_ordem_1`): counts every adjacent pair `a -> b` of the history,
  normalises each predecessor's counts and looks up the last outcome. The matrix is
  zero-filled, so the lookup has an entry, possibly 0, for every outcome that was seen
  as a successor anywhere.
- **Order 2** (`matriz_ordem_2`): the same over every ordered pair `(a, b)` and the
  outcome that follows it, looked up at the last two outcomes. This matrix is also
  zero-filled.
- **Blocks** (`prever_por_blocos`): records every window of three outcomes with the
  outcome that follows it. The windows start at index 0 up to n - 4 (n outcomes in all), so the
  trailing window is recorded only when it also occurs earlier. The model answers with
  the share of each follower of the trailing window.
- **Blend** (`previsao_final`): gives no prediction below four outcomes. Otherwise it
  forms the weighted sum `0.2 * p1 + 0.4 * p2 + 0.4 * p3` over every outcome any model
  mentions, without renormalising, and ranks it in descending order.

The application (`BacboApp`) keeps the history and three counters: hits, confident
hits and high-probability rounds. It also keeps the prediction shown for the next
round and its probability. After each round it scores the previous prediction, once
past 20 rounds. It then renews the prediction and, past 20 rounds, counts a new
prediction above 0.75.

Modules:

- `Outcomes`: the outcome datatype and per-outcome distributions.
- `Counting`: counts runs of outcomes in a history. Every table of the predictor is a
  table of such counts.
- `Counters`: per-context counters and their zero-filled normalisation.
- `OrderOne`, `OrderTwo` and `Blocks`: the three models. Each has a loop method that
  builds its table, proved equal to a recursive specification function. Lemmas state
  what the table counts. The methods `TransitionMatrix`, `PredictByBlocks` and
  `Combiner.Predict` each sit beside the function that specifies them (`Matrix`,
  `BlockPrediction`, `Forecast`). Each method is the source's loop, and its function is
  the same computation written recursively. The two have the same result, which the
  method's `ensures` states. The order-1 and order-2 builders have the same shape
  because the two source functions do.
- `Combiner`: the blend, the ranking and the final prediction, with lemmas that
  restate the prediction in terms of counts.
- `Session`: the application state as a class.
- `Scenarios`: worked examples proved on concrete histories.

Three worked facts about the program, each proved in `Scenarios`:

- After `B P B P B T B`, the order-1 answer for `B` is `{B: 0, P: 2/3, T: 1/3}`: `B`
  was followed by `P` twice and by `T` once, and the matrix is zero-filled
  (`Scenarios.OrderOneExample`).
- The trailing window of `B B P T B B P T B B` is `T B B`. It occurred once earlier,
  followed by `P`, so the block answer is `{P: 1.0}` (`Scenarios.BlockExample`).
- The blend can hold 0-valued entries, because the order-1 and order-2 lookups are
  zero-filled. After `B P B P B T B` the prediction is `P 0.2 * 2/3, T 0.2 * 1/3, B 0`
  (`Scenarios.ForecastExample`).

## Model

| member | source | states |
|---|---|---|
| Outcomes.SharesOfCounts | previsor_bacbo_gui.py:10-11 | dividing three counts by their positive sum gives shares in [0, 1] that add up to exactly 1 |
| Counting.OccAppend | previsor_bacbo_gui.py:8-9 | appending one outcome adds exactly the occurrence of a run that ends at the new outcome, and makes every old occurrence a context |
| Counting.CountsGrow | previsor_bacbo_gui.py:8-9 | appending an outcome never decreases the count of any run, nor the number of times it was seen as a context |
| Counting.FollowerSum | previsor_bacbo_gui.py:8-11 | the counts of B, P and T after a context add up to the number of times the context was followed at all |
| Counting.ContextPositive | previsor_bacbo_gui.py:24-27 | a run was seen as a context exactly when it occurs at some index with at least one outcome after it |
| Counting.SingleContextPositive | previsor_bacbo_gui.py:8-9 | an outcome was seen as a predecessor exactly when it occurs before the last position |
| Counting.PairContextPositive | previsor_bacbo_gui.py:16-17 | a pair was seen as a context exactly when it starts at or below index n - 3 (n outcomes in all) |
| Counting.FollowerOccurs | previsor_bacbo_gui.py:8-9 | an outcome counted after a context occurs at an index past the context's length |
| Counters.Bump | previsor_bacbo_gui.py:9 | `trans[k][o] += 1` on a default-empty table: the key is added, the count of `o` under `k` goes up by one, and every other count and row is unchanged |
| Counters.SharesDistribution | previsor_bacbo_gui.py:10-11 | normalising a non-empty counter over labels that cover its keys gives a distribution whose keys are the labels, with value count / total (0 for labels never counted) |
| Counters.FrameRows | previsor_bacbo_gui.py:10-11 | every row of the zero-filled normalised frame is a distribution over all the labels of the table |
| Counters.Tally | previsor_bacbo_gui.py:30 | `Counter(list)`: its keys are the outcomes in the list, and each count is the number of occurrences |
| Counters.TallyTotal | previsor_bacbo_gui.py:30-31 | the counts of a list's counter add up to the list's length |
| OrderOne.SuccessorsTotal | previsor_bacbo_gui.py:8-11 | the successor counts of `a` add up to the number of times `a` was seen as a predecessor (the column sum) |
| OrderOne.TransitionsKeys | previsor_bacbo_gui.py:7-9 | an outcome is a predecessor in the table exactly when it was seen with a successor |
| OrderOne.TransitionsRows | previsor_bacbo_gui.py:7-9 | each predecessor's counter holds, for each successor, the number of times the pair occurs in the history |
| OrderOne.CountTransitions | previsor_bacbo_gui.py:7-9 | the loop over adjacent pairs builds exactly the transition table of the history |
| OrderOne.TransitionsTotals | previsor_bacbo_gui.py:10-11 | every predecessor's counts add up to at least 1, so normalising never divides by zero |
| OrderOne.TransitionMatrix | previsor_bacbo_gui.py:6-12 | counting and normalising give the zero-filled matrix of the history |
| OrderOne.LabelsAreSuccessors | previsor_bacbo_gui.py:10 | the outcomes the matrix is zero-filled over are exactly the outcomes after the first position |
| OrderOne.MatrixColumn | previsor_bacbo_gui.py:6-12 | the lookup of `a` is empty exactly when `a` never occurs before the last position. Otherwise it is a distribution over every outcome after the first position, with value (# of `a -> b`) / (# of `a` as a predecessor) |
| OrderOne.TransitionsGrow | previsor_bacbo_gui.py:8-9 | appending an outcome never removes a predecessor and never decreases a count |
| OrderTwo.SuccessorsTotal | previsor_bacbo_gui.py:16-19 | the successor counts of `(a, b)` add up to the number of times the pair was seen as a context (the row sum) |
| OrderTwo.TransitionsKeys | previsor_bacbo_gui.py:15-17 | a pair is a key of the table exactly when it was seen as a context |
| OrderTwo.TransitionsRows | previsor_bacbo_gui.py:15-17 | each pair's counter holds, for each successor, the number of times the triple occurs |
| OrderTwo.CountTransitions | previsor_bacbo_gui.py:15-17 | the loop over adjacent triples builds exactly the transition table of the history |
| OrderTwo.TransitionsTotals | previsor_bacbo_gui.py:18-19 | every pair's counts add up to at least 1, so normalising never divides by zero |
| OrderTwo.TransitionMatrix | previsor_bacbo_gui.py:14-20 | counting and normalising give the zero-filled matrix of the history |
| OrderTwo.LabelsAreSuccessors | previsor_bacbo_gui.py:18 | the outcomes the matrix is zero-filled over are exactly the outcomes from the third position on |
| OrderTwo.MatrixRow | previsor_bacbo_gui.py:14-20 | the lookup of `(a, b)` is empty exactly when the pair never starts at or below index n - 3 (n outcomes in all). Otherwise it is a distribution over every outcome from the third position on, with value (# of `a b -> c`) / (# of `a b` as a context) |
| OrderTwo.TransitionsGrow | previsor_bacbo_gui.py:16-17 | appending an outcome never removes a pair and never decreases a count |
| Blocks.Append | previsor_bacbo_gui.py:27 | `blocos[key].append(x)` on a default-empty table: the key is added, its list gains `x` at the end, and every other list is unchanged |
| Blocks.WindowsCount | previsor_bacbo_gui.py:23-27 | a window is a key exactly when it was seen as a context, and its list holds each follower as often as the window followed by it occurs |
| Blocks.CollectWindows | previsor_bacbo_gui.py:23-27 | the loop over `range(len(seq) - 3)` builds exactly the block table of the history |
| Blocks.WindowKeys | previsor_bacbo_gui.py:24-27 | the keys are exactly the windows starting at index 0 up to index n - 4 (n outcomes in all) |
| Blocks.WindowLength | previsor_bacbo_gui.py:27-31 | a window's list has one entry per earlier occurrence of the window, at least one, so the total is never 0 |
| Blocks.PredictByBlocks | previsor_bacbo_gui.py:22-33 | recording the windows and reading off the trailing window's followers gives the block prediction of the history |
| Blocks.BlockPredictionEmpty | previsor_bacbo_gui.py:28-33 | the answer is empty exactly when the history has at most 3 outcomes or the trailing window was never seen as a context |
| Blocks.BlockPredictionUnseen | previsor_bacbo_gui.py:24-29 | past 3 outcomes, the answer is empty exactly when no window starting at or below index n - 4 (n outcomes in all) equals the trailing window |
| Blocks.BlockPredictionShares | previsor_bacbo_gui.py:29-32 | when the trailing window was seen, the answer is a distribution over its followers, with value (# of window then `c`) / (# of earlier occurrences of the window) |
| Blocks.WindowsGrow | previsor_bacbo_gui.py:24-27 | appending an outcome never removes a window, and each list only grows at its end |
| Combiner.BlendBounds | previsor_bacbo_gui.py:46 | blending answers that are each empty or a distribution gives keys equal to the union of the answers' keys and every value in [0, 1]. The mass is the weighted sum of the masses, at most 1, and equals 1 exactly when all three have data |
| Combiner.Insert | previsor_bacbo_gui.py:47 | insertion adds exactly one entry and keeps every other entry and the total probability |
| Combiner.InsertSorted | previsor_bacbo_gui.py:47 | insertion keeps a ranking sorted |
| Combiner.RankFrom | previsor_bacbo_gui.py:47 | ranking the listed outcomes gives a sorted ranking with one entry per listed outcome of the map, at its value |
| Combiner.Ranked | previsor_bacbo_gui.py:47 | the ranking is non-increasing, lists each entry of the map exactly once at its value, and keeps the total mass |
| Combiner.RankedOutcomes | previsor_bacbo_gui.py:47 | the ranking lists exactly the outcomes of the map, and is empty exactly when the map is |
| Combiner.Predict | previsor_bacbo_gui.py:35-47 | running the three table builders and blending their lookups gives the final prediction of the history, with no state besides the history |
| Combiner.OrderOneEmpty | previsor_bacbo_gui.py:41-43 | the order-1 answer is empty exactly when the last outcome never occurred before the last position |
| Combiner.OrderOneFrequencies | previsor_bacbo_gui.py:43 | the order-1 answer is empty or a distribution whose value for `c` is the frequency of `c` after the last outcome |
| Combiner.OrderTwoEmpty | previsor_bacbo_gui.py:42-44 | the order-2 answer is empty exactly when the trailing pair was never seen as a context |
| Combiner.OrderTwoFrequencies | previsor_bacbo_gui.py:44 | the order-2 answer is empty or a distribution whose value for `c` is the frequency of `c` after the trailing pair |
| Combiner.BlockFrequencies | previsor_bacbo_gui.py:40 | the block answer is empty or a distribution whose value for `c` is the frequency of `c` after the trailing window |
| Combiner.AnswersAreFrequencies | previsor_bacbo_gui.py:38-45 | all three answers are empty or distributions of count frequencies after their contexts |
| Combiner.AnswersNested | previsor_bacbo_gui.py:43-45 | a seen trailing window implies a seen trailing pair, which implies a seen last outcome |
| Combiner.ForecastEmpty | previsor_bacbo_gui.py:35-47 | the prediction is empty exactly when the history has fewer than 4 outcomes or its last outcome never occurred before |
| Combiner.ForecastFromCounts | previsor_bacbo_gui.py:41-46 | each predicted probability is `0.2 * f1 + 0.4 * f2 + 0.4 * f3`, where f1, f2 and f3 are the outcome's count frequencies after the last outcome, the trailing pair and the trailing window |
| Combiner.ForecastBounds | previsor_bacbo_gui.py:46-47 | every predicted probability is in [0, 1] and they add up to at most 1, exactly 1 when and only when the trailing window was seen before |
| Combiner.BlendOutcomes | previsor_bacbo_gui.py:43-46 | the blend mentions exactly the outcomes of the order-1 answer |
| Combiner.ForecastOutcomes | previsor_bacbo_gui.py:43-47 | a non-empty prediction lists exactly the outcomes after the first position |
| Counters.Shares | previsor_bacbo_gui.py:10-11 | definition of one normalised row over the table's labels (count / total, 0 for a label never counted); characterised by `Counters.SharesDistribution` |
| Counters.Frame | previsor_bacbo_gui.py:10-11 | definition of the zero-filled normalised frame (`fillna(0)` then `div` by each row's sum); characterised by `Counters.FrameRows` |
| OrderOne.Matrix | previsor_bacbo_gui.py:6-12 | definition of the order-1 matrix; characterised by `OrderOne.MatrixColumn` and computed by `OrderOne.TransitionMatrix` |
| OrderTwo.Matrix | previsor_bacbo_gui.py:14-20 | definition of the order-2 matrix; characterised by `OrderTwo.MatrixRow` and computed by `OrderTwo.TransitionMatrix` |
| Blocks.LastBlock | previsor_bacbo_gui.py:28 | definition of the trailing window `tuple(seq[-3:])`; used by `Blocks.BlockPredictionEmpty`, `Blocks.BlockPredictionUnseen` and `Blocks.BlockPredictionShares` |
| Blocks.BlockPrediction | previsor_bacbo_gui.py:28-33 | definition of the block answer; characterised by `Blocks.BlockPredictionEmpty`, `Blocks.BlockPredictionUnseen` and `Blocks.BlockPredictionShares`, and computed by `Blocks.PredictByBlocks` |
| Combiner.Blend | previsor_bacbo_gui.py:46 | definition of the weighted sum with `fill_value=0` over the union of keys; characterised by `Combiner.BlendBounds` and `Combiner.BlendOutcomes` |
| Combiner.Forecast | previsor_bacbo_gui.py:35-47 | definition of the final prediction; characterised by `Combiner.ForecastEmpty`, `Combiner.ForecastFromCounts`, `Combiner.ForecastBounds` and `Combiner.ForecastOutcomes`, and computed by `Combiner.Predict` |
| Session.Best | previsor_bacbo_gui.py:125-128 | definition of the top entry (`idxmax` and `max` of the ranked prediction); characterised by `Session.BestIsTop` |
| Session.BestIsTop | previsor_bacbo_gui.py:125-128 | there is a top entry exactly when the prediction is non-empty. It is one of the ranked entries, no entry is more likely, and its probability is in [0, 1] |
| Session.PredictionShown | previsor_bacbo_gui.py:124-130 | the shown outcome and probability are absent exactly when the prediction is empty. Otherwise they are an entry of the prediction of maximal probability |
| Session.Predictor.constructor | previsor_bacbo_gui.py:53-58 | a new session has an empty history, zero counters and no prediction |
| Session.Predictor.UpdatePrediction | previsor_bacbo_gui.py:124-151 | the stored prediction and probability become those of the current history, the counter and pairing invariant is kept, and nothing else changes |
| Session.Predictor.ScoreRound | previsor_bacbo_gui.py:102-106 | called with the current round count; past 20 rounds, a hit of the previous prediction increments the hit count. It also increments the confident count when the previous probability was at least 0.8 |
| Session.Predictor.CountHighProbability | previsor_bacbo_gui.py:111-114 | called with the current round count; past 20 rounds, a new prediction above 0.75 increments the high-probability count |
| Session.Predictor.AddResult | previsor_bacbo_gui.py:96-114 | appends exactly the outcome, scores it, renews the prediction and counts it. It keeps `confident <= hits <= max(0, rounds - 20)` and `high-probability <= max(0, rounds - 20)`. The prediction and its probability are stored together |
| Scenarios.NoPredictionYet | previsor_bacbo_gui.py:35-47 | after `B P B P B T` there is no prediction: `T` never occurred before |
| Scenarios.OrderOneExample | previsor_bacbo_gui.py:6-12 | after `B P B P B T B`, the order-1 answer for `B` is `{B: 0, P: 2/3, T: 1/3}` |
| Scenarios.PairUnseen | previsor_bacbo_gui.py:44 | after `B P B P B T B`, the order-2 answer is empty |
| Scenarios.BlockUnseen | previsor_bacbo_gui.py:28-33 | after `B P B P B T B`, the block answer is empty |
| Scenarios.BlockExample | previsor_bacbo_gui.py:22-33 | after `B B P T B B P T B B`, the block answer is `{P: 1.0}` |
| Scenarios.BlendExample | previsor_bacbo_gui.py:46-47 | blending `{P: 1}`, `{}` and `{T: 1}` ranks `T 0.4` above `P 0.2` |
| Scenarios.ForecastExample | previsor_bacbo_gui.py:35-47 | after `B P B P B T B`, the prediction is `P 0.2 * 2/3, T 0.2 * 1/3, B 0`, which totals 0.2 and is not renormalised |

## Left out

- Rounding to two decimals (`.round(2)`, `round(v / total, 2)`): every share,
  blended value and threshold comparison is modelled on exact rational values. On
  values that round across a threshold, such as 0.795 against 0.8, the program's
  rounded comparisons can differ from the model's. The program also blends shares
  that were already rounded and then rounds the blend. Two blended values that are
  nearly equal can therefore be ordered differently from the exact values, and then
  `idxmax` picks a different outcome from the model's top entry.
- Combiner.ForecastBounds: the total of 1 (or at most 1) holds of the exact values.
  The program's rounded values can add up to 0.99 or 1.01.
- Combiner.BlendBounds: the mass equations hold of the exact shares. Over the
  program's rounded shares they hold only up to rounding.
- Floating-point arithmetic: shares are exact reals.
- The pandas DataFrame and Series machinery. Tables are Dafny maps from a context to
  a counter of followers, with the zero-filled frame built explicitly.
- The order of equal blended values after `sort_values` is left to the library's
  sort. The model ranks ties in the order B, P, T. `idxmax` and `max` are read off
  the first entry of the ranking, which has maximal probability.
- Blocks: the window length is fixed at 3. It is a default parameter that is never
  overridden.
- The Tk window, its buttons, the history, statistics and prediction label texts
  (including the statistics label refreshed at the end of each round), and the
  label colours. These are display only and have no effect on the state.
