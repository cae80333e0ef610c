# White-event signal bot: a verified model of its strategy core

The bot follows the live feed of a roulette-like game (a roll from 0 to 14
per round). Every roll of 0, a "white", opens a pending window. Two rounds
later the window holds the two rolls before the white and the two rolls
after it. The white's clock minute and subsets of those rolls are then
turned into predicted minutes (`combosFromFour`). The predictions go into
an index from minute to white ids (`minutePredMap`). On every later round
whose clock minute matches a prediction, the bot sends a signal. The signal
carries a strength: "very strong" when two whites predict that minute,
"strong" for a few fixed distances, plain otherwise. Whites are aged by one
position per round and dropped once they are more than 200 positions old.
When a connection attempt fails or the feed disconnects, the bot rotates
through three hosts with a growing, capped delay.

The Dafny project models:

- `combinations.dfy` (module `Combinations`) — `combosFromFour`.
  - Specification: functions over index tuples (`Tuples`, `Raw`, `Dedup`,
    `Combos`). Lemmas prove soundness, completeness, absence of duplicates,
    first-occurrence order and the counts 0/1/3/7/15.
  - Implementation: the method `CombosFromFour`, with the source's nested
    loops and its seen-set filter, proved equal to `Combos`.
- `prediction_index.dfy` (module `PredictionIndex`) — the minute index.
  - Bucket insertion and deletion, with their exact effect and the fact
    that no bucket is ever empty.
  - `strength`.
- `strategy.dfy` (module `Strategy`) — one round of `onTick` as a pure
  function `Tick` on a `State` value: history, pending whites, index and
  `whiteSeq`. It is split into the halves `Absorb` (record and complete)
  and `Settle` (register, age, evict). The alert pass sits between them.
- `tick_invariant.dfy` (module `TickInvariant`) — the invariant `Valid`
  that every round keeps. Each phase lemma proves its part.
  - The history holds at most 400 rounds.
  - Each pending white sits on a 0 roll 1 to 200 positions back, with its
    own hour and minute.
  - Whites are listed oldest first, with increasing ids drawn from
    `whiteSeq`.
  - A white is completed exactly when it is at least 3 positions old at
    the end of a round.
  - The index records exactly the predictions of the pending whites.
- `tick_messages.dfy` (module `TickMessages`) — what a round sends.
  - One signal per firing white, in list order (distances strictly
    decreasing), each with 1 to 6 labels.
  - A signal's distance is at least 2, so the white of the same round
    never fires.
  - Nothing is sent while stopped.
  - Id numbering.
  - "Very strong" means two different pending whites predict the minute.
- `engine.dfy` (module `TickEngine`) — `class Engine`, holding the four
  mutable globals as fields.
  - `OnTick` runs the source's phases as loops that update the fields.
  - It is proved to compute exactly `Strategy.Tick` and to keep `Valid`.
- `connector.dfy` (module `Connector`) — the host rotation and back-off
  arithmetic of `connect` and `fallback`.

Two behaviours of the code are easy to misread, and the model follows the
code in both:

- The back-off delay grows with `hostIdx`, the number of connection
  failures (connect errors and disconnects) since start. It is never reset
  on a successful connection, so it does not count consecutive failures.
- Duplicate predictions can occur. The filter compares labels,
  which hold roll values, not positions. A window with a repeated roll
  therefore yields the same label twice; `RepeatedValuesCollapse` shows
  3 pushes collapsing to 2 entries.

## Model

| member | source | states |
|---|---|---|
| Combinations.JsRem | index.js:70 | JavaScript `%`: the remainder of the division truncated toward zero (`a == trunc(a / b) * b + r`), strictly between -60 and 60, with the dividend's sign, and equal to the mathematical remainder for non-negative sums |
| Combinations.NonZero | index.js:66 | the filtered values are exactly the non-zero inputs, and there are no more of them than inputs |
| Combinations.NonZeroAppend | index.js:66 | the filter distributes over concatenation, so it keeps the order and multiplicity of the surviving values |
| Combinations.Sum | index.js:70 | definition: the `reduce` sum of the values; characterised by `SumAppend` |
| Combinations.SumAppend | index.js:70 | the sum of a concatenation is the sum of its parts, so the fold order does not matter |
| Combinations.Tuples | index.js:72-75 | every index tuple the loops visit is strictly increasing and within range, of size 1 to 4, and of size 4 only when exactly four values remain |
| Combinations.TuplesDistinct | index.js:72-75 | the loops never visit the same subset twice |
| Combinations.TuplesComplete | index.js:72-75 | every increasing tuple of size 1, 2 or 3 is visited, and so is the whole set when four values remain |
| Combinations.TuplesCount | index.js:72-75 | for 0 to 4 values the loops push 0, 1, 3, 7 and 15 subsets |
| Combinations.PairsSorted | index.js:73 | the pair loop visits pairs in strictly increasing lexicographic order |
| Combinations.TriplesSorted | index.js:74 | the triple loop visits triples in strictly increasing lexicographic order |
| Combinations.Pick | index.js:72-75 | the values of a subset are the values at its indices, in order |
| Combinations.Entry | index.js:68-71 | definition: the record `push` builds, labelled by the anchor and the values and aimed at `(anchor + sum) % 60`; characterised by `ComboSeq` and `GenerateSound` |
| Combinations.ComboSeq | index.js:68-71 | one prediction per subset, in push order, labelled with the anchor minute and the subset's values |
| Combinations.DedupMembers | index.js:76-77 | the seen-set filter leaves no duplicates and removes no distinct entry |
| Combinations.DedupFirstWins | index.js:76-77 | the filter keeps entries in the order of their first occurrence |
| Combinations.DedupOfDistinct | index.js:76-77 | a list without duplicates passes the filter unchanged |
| Combinations.PickInjective | index.js:72-75 | with distinct values, different subsets give different value lists |
| Combinations.RawDistinct | index.js:72-75 | with distinct values, no prediction is pushed twice |
| Combinations.GenerateSound | index.js:65-78 | every result carries the anchor minute, a subset of size 1 to 4 of the non-zero window values (4 only when four remain), and the target `(anchor + sum) % 60` |
| Combinations.GenerateComplete | index.js:72-75 | every subset of size 1 to 3, and the whole set when four values remain, appears in the result |
| Combinations.GenerateDistinct | index.js:76-77 | the result has no duplicates, holds exactly the pushed predictions, and keeps first-occurrence order |
| Combinations.GenerateCount | index.js:72-77 | with distinct values, 0 to 4 values give 0, 1, 3, 7 and 15 predictions |
| Combinations.RepeatedValuesCollapse | index.js:72-77 | a window of two equal rolls pushes 3 predictions and keeps 2: the single value and the pair |
| Combinations.PushSingles | index.js:72 | the first loop pushes exactly the singleton subsets, in order |
| Combinations.PushPairs | index.js:73 | the pair loops append exactly the pairs, in lexicographic order |
| Combinations.PushPairRow | index.js:73 | the inner pair loop appends the pairs with a fixed first index |
| Combinations.PushTriples | index.js:74 | the triple loops append exactly the triples, in lexicographic order |
| Combinations.PushTripleRow | index.js:74 | the middle triple loop appends the triples with a fixed first index |
| Combinations.PushTripleCol | index.js:74 | the innermost loop appends the triples with fixed first two indices |
| Combinations.PushAll | index.js:72-75 | the pushes, including the four-value push, produce exactly the specified raw list |
| Combinations.FilterSeen | index.js:76-77 | the seen-set filter computes exactly `Dedup` |
| Combinations.Raw | index.js:67-75 | definition: one prediction per visited subset, in push order; characterised by `GenerateSound`, `GenerateComplete` and `RawDistinct` |
| Combinations.Dedup | index.js:76-77 | definition: the seen-set filter on values; characterised by `DedupMembers`, `DedupFirstWins` and `DedupOfDistinct` |
| Combinations.Generate | index.js:67-77 | definition: `Dedup` of `Raw`; characterised by `GenerateSound`, `GenerateComplete`, `GenerateDistinct` and `GenerateCount` |
| Combinations.Combos | index.js:65-78 | definition: `Dedup` of `Raw` on the non-zero window values; characterised by `GenerateSound`, `GenerateComplete`, `GenerateDistinct` and `GenerateCount` |
| Combinations.CombosFromFour | index.js:65-78 | the method computes exactly `Combos`, which the lemmas above characterise |
| PredictionIndex.Targets | index.js:101 | a minute is targeted exactly when some prediction aims at it |
| PredictionIndex.AddId | index.js:102-103 | after insertion, (minute, id) is recorded exactly when it was before or is the new pair; no bucket is empty |
| PredictionIndex.RemoveId | index.js:140-141 | after deletion, exactly the pair is gone; an emptied bucket is deleted, so no bucket is empty |
| PredictionIndex.AddPreds | index.js:101-104 | definition: `AddId` for every prediction in turn; characterised by `AddPredsSpec` |
| PredictionIndex.RemovePreds | index.js:139-142 | definition: `RemoveId` for every prediction in turn; characterised by `RemovePredsSpec` |
| PredictionIndex.AddPredsSpec | index.js:101-104 | recording a white adds exactly its id under every minute it targets |
| PredictionIndex.RemovePredsSpec | index.js:139-142 | removing a white deletes exactly its id under every minute it targets |
| PredictionIndex.StrengthOf | index.js:79-84 | "very strong" iff the minute's bucket holds at least 2 ids; otherwise "strong" iff the distance is in `fortesSet` (5, 7, 8, 9, 12; index.js:57), else plain |
| Strategy.Record | index.js:87-88 | the new outcome is at position 0, older outcomes shift back by one, and the length is capped at 400 |
| Strategy.Completes | index.js:92-95 | definition: the white is not completed and both outcomes after it exist; characterised by `CompletesAtTwo` |
| Strategy.CompleteOne | index.js:96-100 | definition: mark a completing white completed and give it the predictions of its window; characterised by `CompleteShape`, `WindowAtTwo` and `CompletionMatches` |
| Strategy.CompleteAll | index.js:91-107 | the completion pass treats every white on its own and keeps the list length |
| Strategy.Hits | index.js:113 | the hits are exactly the predictions for the current minute, never more than the predictions |
| Strategy.HitsAppend | index.js:113 | the filter distributes over concatenation, so the hits keep the order and multiplicity they have among the predictions |
| Strategy.FirstLabels | index.js:116 | at most 6 labels: the first hits' labels, in order |
| Strategy.Window | index.js:97-99 | definition: the before-rolls the history has, then the two after-rolls; characterised by `WindowAtTwo` and `Engine.WindowAt` |
| Strategy.CompletionIndex | index.js:101-104 | definition: the index after adding the predictions of each white that completes; characterised by `CompletionIndexSpec` and `CompletionMatches` |
| Strategy.Fires | index.js:112-114 | definition: a completed white with at least one hit on the minute; characterised by `AlertsSpec` |
| Strategy.SignalFor | index.js:115-123 | definition: the white's hour and minute, its first labels, the target minute, its position as distance and the strength; characterised by `AlertBounds`, `AlertsOrdered` and `TickStrength` |
| Strategy.Alerts | index.js:111-126 | definition: the signal of each firing white, in list order; characterised by `AlertsSpec`, `AlertsOrdered` and `AlertBounds` |
| Strategy.NewWhite | index.js:131 | definition: the record of a new white, at position 0, not completed, without predictions; characterised by `NewWhiteShape`, `NewWhiteMatches` and `TickNumbering` |
| Strategy.Register | index.js:129-131 | definition: append a white with id `whiteSeq + 1` at position 0; characterised by `NewWhiteShape`, `RegisterPreAge` and `TickNumbering` |
| Strategy.Aged | index.js:136 | every white moves back one position and nothing else changes |
| Strategy.Evict | index.js:137-143 | definition: shift the front white while it is older than 200, removing its predictions; characterised by `EvictSpec` and `EvictKeepsYoung` |
| Strategy.Absorb | index.js:87-107 | definition: record the outcome, then run the completion pass; characterised by `AbsorbValid` and `CompletionMatches` |
| Strategy.AgeEvict | index.js:136-143 | definition: age every white, then evict; characterised by `AgeEvictValid` and `EvictSpec` |
| Strategy.Settle | index.js:129-143 | definition: register a white on a 0 roll, then age and evict; characterised by `SettleValid` and `TickNumbering` |
| Strategy.Tick | index.js:85-144 | definition: `Absorb`, the alert pass, then `Settle`; characterised by `TickValid`, `TickSent`, `TickSignalsOrdered`, `TickNumbering` and `TickStrength` |
| TickInvariant.InitialValid | index.js:59-62 | the start-up state satisfies the invariant |
| TickInvariant.RecordShape | index.js:87-88 | after recording, the history stays within 400 and every pending white's roll is still found at its position |
| TickInvariant.CompletesAtTwo | index.js:92-95 | under the invariant, a white completes exactly when its position is 2 |
| TickInvariant.WindowAtTwo | index.js:97-99 | the window at completion is `[before2, before1, after1, after2]`, dropping the before-rolls the history does not have |
| TickInvariant.CompleteShape | index.js:91-100 | the completion pass keeps every white's id, position, hour and minute; afterwards a white is completed iff its position is at least 2, and an uncompleted white holds no predictions |
| TickInvariant.CompletionIndexSpec | index.js:101-104 | the completion pass adds to the index exactly the (minute, id) pairs of newly completed whites |
| TickInvariant.CompletionMatches | index.js:91-107 | after the completion pass, the index records exactly the predictions of the pending whites |
| TickInvariant.NewWhiteShape | index.js:129-131 | a new white joins last, at position 0, with id `whiteSeq + 1`, keeping ids increasing and positions descending |
| TickInvariant.NewWhiteMatches | index.js:131 | the new white has no predictions, so the index stays exact |
| TickInvariant.AgedShape | index.js:136 | ageing preserves the invariant shifted by one position |
| TickInvariant.DropFirstMatches | index.js:138-142 | dropping the oldest white with its predictions keeps the index exact, because ids are unique |
| TickInvariant.EvictSpec | index.js:137-143 | eviction from the front drops exactly the whites older than 200 and their index entries, and restores the invariant |
| TickInvariant.AbsorbValid | index.js:87-107 | recording and completing lead to the state the alert pass reads: completed iff position ≥ 2, index exact |
| TickInvariant.RegisterPreAge | index.js:129-133 | registering a white keeps the pre-ageing conditions |
| TickInvariant.AgeEvictValid | index.js:136-143 | ageing then eviction re-establish the invariant |
| TickInvariant.SettleValid | index.js:129-143 | the second half of a round re-establishes the invariant |
| TickInvariant.TickValid | index.js:85-144 | every round preserves the invariant |
| TickMessages.AlertsSpec | index.js:111-126 | the alert pass emits a signal exactly for each completed white with a hit on the current minute, and never more signals than whites |
| TickMessages.AlertsAbove | index.js:114-120 | when every white is older than `d`, every signal reports a distance above `d` |
| TickMessages.AlertsOrdered | index.js:111-126 | with whites listed oldest first, the signals carry strictly decreasing distances: one per firing white, in list order |
| TickMessages.AlertBounds | index.js:114-123 | every signal targets the current minute, holds 1 to 6 labels and reports the white's position, between 2 and 200, as its distance |
| TickMessages.TickSent | index.js:110-133 | nothing is sent while stopped; otherwise the white notice is sent iff the roll is 0, as the last message, and every signal has distance ≥ 2, so none is for the white of the same round |
| TickMessages.TickSignalsOrdered | index.js:110-133 | in a round, the signals precede the white notice and report strictly decreasing distances |
| TickMessages.EvictKeepsYoung | index.js:137-143 | eviction never removes a white at most 200 positions old and adds none |
| TickMessages.TickNumbering | index.js:129-131 | `whiteSeq` grows by one exactly on a 0 roll, and the new white is then pending at position 1 with that id and no predictions |
| TickMessages.StrengthMeaning | index.js:79-84 | with an exact index, "very strong" iff two different pending whites predict the minute |
| TickMessages.TickStrength | index.js:123 | a round's signal is "very strong" iff, after that round's completion pass, two different pending whites predict the current minute |
| TickEngine.Engine.constructor | index.js:59-62 | the globals start empty with `whiteSeq = 0`, and the invariant holds |
| TickEngine.Engine.OnTick | index.js:85-144 | the fields after the round and the messages sent are exactly those of `Tick`, and the invariant is kept |
| TickEngine.Engine.RecordOutcome | index.js:87-88 | `unshift` then `pop` past 400 yields `Record` of the old history |
| TickEngine.Engine.WindowAt | index.js:97-99 | the window built from the optional before-rolls equals `Window` |
| TickEngine.Engine.CompletePass | index.js:91-107 | the loop leaves exactly `CompleteAll` and `CompletionIndex` of the old state |
| TickEngine.Engine.CompleteAt | index.js:92-105 | one iteration completes the white exactly when both after-rolls exist, and records its predictions |
| TickEngine.Engine.AddAll | index.js:101-104 | creating buckets on demand and adding the id yields `AddPreds` |
| TickEngine.Engine.EmitAlerts | index.js:110-126 | the loop sends `Alerts` of the current state while running, and nothing otherwise |
| TickEngine.Engine.AgeAll | index.js:136 | the loop leaves exactly `Aged` of the old list |
| TickEngine.Engine.EvictOld | index.js:137-143 | the shift loop leaves exactly `Evict` of the old list and index |
| TickEngine.Engine.RemoveAll | index.js:139-142 | deleting the id from each bucket, and the bucket when it empties, yields `RemovePreds` |
| TickEngine.CompletionIndexStep | index.js:101-104 | one more white changes the index only when it completes, by adding its predictions |
| Connector.HostAt | index.js:156 | an attempt always uses one of the three hosts |
| Connector.Delay | index.js:205 | the wait is `2000 * hostIdx` below 8 connection failures (connect errors and disconnects) and 15000 from then on, never above 15000 |
| Connector.HostPeriodic | index.js:148-156 | the hosts repeat with period 3 |
| Connector.ThreeAttemptsCoverHosts | index.js:148-156 | three consecutive attempts use three different hosts, covering all of them |
| Connector.DelayMonotonic | index.js:205 | waits never shrink as connection failures (connect errors and disconnects) accumulate |
| Connector.Reconnector.constructor | index.js:153 | `hostIdx` starts at 0 |
| Connector.Reconnector.Connect | index.js:155-156 | the attempt uses `HOSTS[hostIdx % 3]` |
| Connector.Reconnector.Fallback | index.js:192-208 | each connection failure (connect error or disconnect) increments `hostIdx` and schedules a wait of `Delay(hostIdx)`, between 1 and 15000 ms |

## Left out

- Telegram: the bot, the `send` helper, message auto-deletion and the start/stop/clear commands. `running` is a parameter of `OnTick`.
- The HTTP health server and the configuration read from the environment.
- Socket.IO: opening and closing the socket, its event handlers, the `Number(...)` conversion and `Number.isFinite` guard on incoming rolls, and the `ticks` counter with its log line. `connect` is modelled only by the host it picks. `fallback` is modelled by the counter and the delay it schedules; the timer itself is not modelled.
- Time: parsing the timestamp with `new Date(at || Date.now())`. The round's hour and minute are parameters. History entries keep those two fields instead of the `Date` object.
- Message text: `pad2` and the text layout. Labels are kept as (anchor, values) pairs, not as `"m+a+b"` strings. Decimal numbers joined with `+` determine their parts, so the seen-set key compares the same way. Signals and white notices are structured `Message` values, not strings.
- `Number.isFinite` in `combosFromFour`'s filter always holds for the integer rolls of the model.
- The `?? null` defaults for missing before-rolls: entries the history does not have are simply dropped from the window.
- `color` is stored with each outcome but never read by the strategy.
- Pending whites are JavaScript objects mutated in place. They are modelled as values in a `seq` field. No other reference to them exists, so nothing observable is lost.
- Combinations.GenerateCount: stated for distinct window values. With repeated values the count is smaller; `RepeatedValuesCollapse` exhibits the two-value case.
- JavaScript numbers are doubles, exact only up to 2^53; the model's `int` is unbounded. Rolls, minutes, ids and position counters stay far below that bound, so no rounding is modelled.
