# UniVibe recommendation core in Dafny

This project models the recommendation core of UniVibe, a movie recommender. It covers five parts.

- **The reinforcement-learning engine** (`backend/rlEngine.js`). This is a contextual bandit.
  - A user's state is their dominant genre, dominant experience type and time of day, encoded as `genre|experience|slot`.
  - The actions are movies. The per-user Q-table is updated by temporal-difference learning from the reward of each interaction.
  - Recommendations blend the learned values with content signals. They are picked epsilon-greedily, with the exploration rate decaying as the state is visited.
- **The persistence layer** the engine reads and writes (`backend/database.js`). It is modelled as an abstract store with the schema's guarantees:
  - an append-only interaction log;
  - the event-type CHECK constraint, which refuses every type but the six listed;
  - at most one Q-table row per (user, state, movie);
  - an upsert that replaces value, visit count and last reward;
  - a `q_value`-descending top-N query.
- **The content-based recommender** of the browser client (`js/recommendationEngine.js`):
  - the catalogue filters;
  - the four-factor similarity score and its explanation;
  - the hybrid and similarity recommenders;
  - the sorting and genre helpers.
- **The dashboard aggregations and input checks** of the server (`backend/server.js`):
  - the Q-value histogram and the per-day timeline;
  - the genre heat map, the star distribution and the state-coverage table;
  - the summary figures;
  - the checks of the tracking and rating routes.
- **The hash router** of the client (`js/router.js`): route registration, `:param` segment matching with `decodeURIComponent`, and first-match dispatch with the `/` fallback.

Code whose source changes state step by step is written imperatively:

- `Store.Db` is a class over the tables.
- `Learn` and `UpdateQValue` modify it.
- `HashRouter.Router` is a class with `On` and `Resolve`.
- The tallies, the histogram, the star counters, the draw loop, the de-duplication and the route loop are methods with loops.

Each of those methods is proved against a specification function, and the properties of those functions are proved as lemmas. The pure parts are functions with contracts.

Modules (one per file):

| module | contents |
|---|---|
| `Wrappers` | `Option` |
| `Seqs` | filter, distinct, subsequence, grouping and sums |
| `Sorting` | stable insertion sort, lexicographic order |
| `Text` | ASCII case mapping, `includes`, `join`, `split`, `parseInt`, `String(n)` |
| `Catalogue` | the movie record |
| `ContentEngine` | the content-based recommender |
| `Store` | persistence |
| `RlEngine` | the engine |
| `Distribution` | `buildDistribution` |
| `Activity` | `buildTimeline` and the genre heat map |
| `Ratings` | the star distribution |
| `Dashboard` | state coverage and summary |
| `Validation` | the route checks |
| `HashRouter` | the router |

The clock is a parameter: the hour for the time slot, and the timestamp of a logged event. `Math.random()` is the sequence `draws` of values in [0, 1), consumed in call order.

### Where the code differs from the described behaviour

The model follows the code in each of these cases.

- **Genre fallback.** The dominant genre falls back to the profile's first preferred genre when the window has no tagged genre. It also falls back when the window's most frequent genre is literally `general` (`backend/rlEngine.js:74`). The same holds for an experience named `any`.
- **Explore window.** The explore branch draws from the first `min(n, 30)` candidates still left in the *unsorted*, catalogue-ordered array (`backend/rlEngine.js:309-310`). It does not draw from the thirty best-scored ones.
- **Re-picks.** An exploited pick is not removed from that array, so exploring can pick it again. The final de-duplication then drops the repeat, and the result can be shorter than `count`.
- **Number of rounds.** The draw loop runs `min(count, |candidates|)` rounds. It does not run until the count is reached.
- **Hybrid experience filter.** `getHybridRecommendations` compares the experience criterion as given. `getByExperience` lower-cases it.
- **Timeline grouping.** The dashboard's timeline is grouped by calendar day, although the comment above the call says by hour.

## Model

| member | source | states |
|---|---|---|
| Text.ToLower | js/recommendationEngine.js:45-46 | `toLowerCase` on ASCII letters: same length, each character lower-cased |
| Text.ContainsIff | js/recommendationEngine.js:46 | `includes` holds exactly when the needle occurs at some index of the text |
| Text.SplitConcat | js/router.js:46-47 | `split` distributes over a separator: `(a + c + b).split(c)` is `a.split(c)` followed by `b.split(c)` |
| Text.SplitThree | backend/rlEngine.js:93 | three separator-free parts joined by the separator split back into exactly those three parts |
| Text.Split | js/router.js:46-47 | `split`: at least one piece, none containing the separator |
| Text.Join | js/recommendationEngine.js:93 | `join`: pieces free of a one-character separator, joined and split again, come back |
| Text.TrimStart | backend/rlEngine.js:118 | the leading-white-space skip of `parseInt`: a suffix of the input that does not start with white space |
| Text.DigitRun | backend/rlEngine.js:118 | the longest prefix of digits in the radix: all digits, and the next character is not one |
| Text.DecimalString | backend/rlEngine.js:118 | `String(n)`: non-empty, only decimal digits, no leading zero |
| Text.DecimalValue | backend/rlEngine.js:118 | the digits of `String(n)` read back as `n` |
| Text.ParseDecimal | backend/rlEngine.js:118 | `parseInt(String(n)) === n` for every non-negative `n` |
| Text.ParseInt | backend/rlEngine.js:118 | `parseInt`: a number only when the trimmed text, past one sign, starts with a digit; always one when it starts with 1-9; negative only behind `-` |
| Seqs.Filter | js/recommendationEngine.js:14 | `filter`: keeps exactly the elements satisfying the predicate |
| Seqs.FilterConcat | js/router.js:46-47 | filtering distributes over concatenation |
| Seqs.FilterIsSubseq | js/recommendationEngine.js:14 | a filtered list is an order-preserving subsequence of the input |
| Seqs.Distinct | backend/server.js:268 | `[...new Set(xs)]`: the elements once each, in order of first appearance, and no others |
| Seqs.Max | backend/server.js:317 | `Math.max(...values)`: a value of the list no smaller than any |
| Seqs.Min | backend/server.js:316 | `Math.min(...values)`: a value of the list no larger than any |
| Seqs.DistinctCountsTotal | backend/rlEngine.js:385 | the per-value counts of a list add up to its length |
| Seqs.PermutationKeepsNoDuplicates | js/recommendationEngine.js:303 | reordering a duplicate-free list keeps it duplicate-free |
| Sorting.InsertSorted | js/recommendationEngine.js:276 | inserting into a sorted list keeps it sorted and adds exactly the element |
| Sorting.Sort | js/recommendationEngine.js:276 | the stable sort returns a permutation of its input |
| Sorting.SortSorted | js/recommendationEngine.js:276 | the stable sort returns a sorted permutation of its input, for any total preorder |
| Sorting.SubseqSorted | js/recommendationEngine.js:253 | a subsequence of a sorted list is sorted |
| Sorting.TopPrefix | js/recommendationEngine.js:210-211 | an element of a sorted list left out of its first `k` comes no earlier than any of those `k` |
| Sorting.TopGroupsAreTop | backend/database.js:175-184 | the `GROUP BY … ORDER BY cnt DESC LIMIT n` result: at most `n` rows, most frequent first, and a value left out occurs no more often than any kept |
| Sorting.TopGroups | backend/database.js:175-184 | exactly `min(limit, distinct keys)` groups, most frequent first, each key at most once and with its number of occurrences |
| Sorting.SortedGroups | backend/database.js:175-184 | `GROUP BY … ORDER BY cnt DESC` before the limit: one group per distinct key, every key covered, each with its true count, most frequent first |
| Sorting.SortHead | backend/rlEngine.js:65 | the head of a stable sort is an element that no earlier element may precede |
| Sorting.LexTotalPreorder | js/recommendationEngine.js:303 | the default `sort()` order on strings is a total preorder |
| Sorting.SortedDistinctStrictly | js/recommendationEngine.js:303 | a sorted list without duplicates is strictly ascending |
| ContentEngine.ApplyAgeFilter | js/recommendationEngine.js:12-15 | the input unchanged for a falsy age or one of 120 and over; otherwise exactly the movies whose age limit the age reaches, in order |
| ContentEngine.GetByGenre | js/recommendationEngine.js:20-23 | identity for an empty or `All` genre; otherwise exactly the movies having the genre, in order |
| ContentEngine.GetByExperience | js/recommendationEngine.js:28-31 | identity for an empty or `All` criterion; otherwise exactly the movies whose experience type equals the lower-cased criterion, in order |
| ContentEngine.GetByCategory | js/recommendationEngine.js:36-38 | exactly the movies carrying the tag, in order |
| ContentEngine.SearchByTitle | js/recommendationEngine.js:43-47 | identity for an empty query; otherwise exactly the movies whose lower-cased title contains the lower-cased query, in order |
| ContentEngine.FilterMovies | js/recommendationEngine.js:52-58 | exactly the movies passing the genre, experience and title checks, as a subsequence of the input; identity with no criteria |
| ContentEngine.GetByPlatform | js/recommendationEngine.js:309-313 | exactly the movies available on the platform, in order |
| ContentEngine.SimilarityScore | js/recommendationEngine.js:80-125 | same id: total -1, zero breakdown, no reasons; otherwise 2 for a shared genre, 1 for the same experience, `1 - abs(Δrating)/100`, `1 - abs(Δpopularity)`, their sum as total, and a "similar rating"/"similar popularity" reason exactly when that factor reaches 0.85 |
| ContentEngine.SimilarityReasonFlags | js/recommendationEngine.js:108-119 | the rating and popularity reasons appear exactly when their factors reach 0.85 |
| ContentEngine.FullMatchReasons | js/recommendationEngine.js:86-122 | a fully matching pair scores 5 with the reasons shared genres, experience, similar rating, similar popularity, in that order and text |
| ContentEngine.SimilarityBounds | js/recommendationEngine.js:68-74 | for distinct movies with rating in 0..100 and popularity in 0..1 the total lies in [0, 5] |
| ContentEngine.SimilaritySymmetric | js/recommendationEngine.js:80-122 | the total does not depend on which movie is the reference |
| ContentEngine.BuildReasonText | js/recommendationEngine.js:134-137 | the fallback sentence for absent or empty reasons; otherwise "Recommended because it " + reasons joined by " and " + "." |
| ContentEngine.ReasonTextDistinguishesFallback | js/recommendationEngine.js:134-137 | a non-empty list of reasons never yields the fallback sentence |
| ContentEngine.FindById | js/recommendationEngine.js:235 | `find` by id: nothing exactly when no movie has the id, else a movie of the list with it |
| ContentEngine.RankByScore | js/recommendationEngine.js:210 | the sort by descending score: a permutation, in non-increasing score order |
| ContentEngine.PositiveOnly | js/recommendationEngine.js:208 | exactly the scored items with a positive score |
| ContentEngine.TopPositive | js/recommendationEngine.js:208-211 | positive-scoring items only, best first, exactly `min(count, positives)` of them (a negative `count` drops that many from the end), no item more often than the positive items hold it, and any positive item left out scores no higher than every item kept |
| ContentEngine.HybridCandidates | js/recommendationEngine.js:157-168 | exactly the movies passing the age filter and, when given, the genre and the (not lower-cased) experience criterion |
| ContentEngine.HybridItem | js/recommendationEngine.js:171-206 | an item is the movie scored by the chosen hybrid strategy |
| ContentEngine.HybridScored | js/recommendationEngine.js:171-206 | one item per candidate, in order, each the candidate scored by the chosen strategy, with as many positive items as eligible movies |
| ContentEngine.PositiveCount | js/recommendationEngine.js:208-209 | scoring candidates item by item keeps the number of positive ones |
| ContentEngine.GetHybridRecommendations | js/recommendationEngine.js:154-213 | every result is a candidate scored by the chosen strategy with score > 0; sorted non-increasing; exactly `min(count, eligible)` results (a negative `count` drops that many from the end); no scored item repeated beyond its multiplicity among the positive ones; an eligible movie left out scores no higher than any returned |
| ContentEngine.AgeAllowedPrefix | js/recommendationEngine.js:253-255 | the first `count` age-permitted items of a sorted list, in order (a negative `count` drops that many from the end), no item more often than the list holds it: fewer only when no permitted item is left, and a permitted item left out scores no higher than any kept |
| ContentEngine.MostSimilar | js/recommendationEngine.js:239-255 | the top `count` eligible movies: other movies of the catalogue within the age limit with positive similarity as score, sorted, exactly `min(count, eligible)` of them (a negative `count` drops that many from the end), no similarity item more often than the catalogue yields it, and an eligible movie left out scores no higher than any returned |
| ContentEngine.SimilarityRanked | js/recommendationEngine.js:239-249 | each catalogue movie paired with its similarity total to the reference |
| ContentEngine.SimilarityItem | js/recommendationEngine.js:239-249 | an item is the movie scored by its similarity total to the reference |
| ContentEngine.SimilarResults | js/recommendationEngine.js:239-255 | each result is an eligible catalogue movie other than the reference, scored by similarity |
| ContentEngine.SimilarLeftOut | js/recommendationEngine.js:239-255 | an eligible movie left out scores no higher than any result |
| ContentEngine.EligibleCount | js/recommendationEngine.js:239-255 | as many scored items are positive and allowed as there are eligible movies |
| ContentEngine.PositiveSimilarityIsOther | js/recommendationEngine.js:81-83 | only a different movie can score above zero |
| ContentEngine.GetRecommendations | js/recommendationEngine.js:234-256 | an unknown reference id gives []; otherwise the top `count` eligible movies by similarity, excluding the reference, sorted, within the age limit, exactly `min(count, eligible)` of them (a negative `count` drops that many from the end), no similarity item more often than the catalogue yields it, and an eligible movie left out scores no higher than any returned |
| ContentEngine.GetTrending | js/recommendationEngine.js:273-277 | exactly the movies with popularity ≥ 0.8, as a permutation of them, by popularity descending and then rating descending |
| ContentEngine.GetLatest | js/recommendationEngine.js:282-284 | a permutation of the catalogue, newest first |
| ContentEngine.GetTopRated | js/recommendationEngine.js:289-291 | a permutation of the catalogue, best rated first |
| ContentEngine.GenreTags | js/recommendationEngine.js:302 | exactly the genres some movie has |
| ContentEngine.GetAllGenres | js/recommendationEngine.js:300-304 | exactly the genres some movie has, each once, in strictly ascending order |
| Store.GetQValue | backend/database.js:161 | the row of the key if there is one; nothing exactly when no row has the key |
| Store.UpsertRows | backend/database.js:162-167 | an upsert keeps every row of another key and adds no row but the new one |
| Store.UpsertSpec | backend/database.js:73 | an upsert keeps one row per key, makes the key's lookup return the new row, and grows the table exactly when the key was absent |
| Store.UpsertKeepsOtherKeys | backend/database.js:162-167 | the lookup of every other key is unchanged by an upsert |
| Store.UniqueLookup | backend/database.js:73 | under the key constraint, a row with the key is the one the lookup returns |
| Store.GetTopQValues | backend/database.js:168-171 | rows of the user and state only, highest value first, exactly `min(limit, rows of the state)` of them, no row more often than the state holds it |
| Store.TopQValuesAreTop | backend/database.js:168-171 | a row of the state left out is valued no higher than any returned, and a positive limit on a non-empty state returns a row |
| Store.TopIsMaximum | backend/database.js:168-171 | with limit 1 the single row carries the state's largest value |
| Store.GetAllUserQValues | backend/database.js:172 | exactly the user's rows |
| Store.UserLog | backend/database.js:134-136 | exactly the user's interactions, in log order |
| Store.GetUserInteractions | backend/database.js:134-136 | the user's latest `min(limit, n)` interactions of their `n`, newest first |
| Store.NewestFirst | backend/database.js:135 | a just-logged interaction heads its user's recent window |
| Store.UserLogAppend | backend/database.js:130-136 | logging an event appends it to its user's log and to no other |
| Store.GetUserRatings | backend/database.js:157 | exactly the user's ratings |
| Store.GetUserActivityStats | backend/database.js:185-188 | one row per event type of the user, each type once, with its count; the counts add up to all of the user's interactions |
| Store.GetUserTopGenres | backend/database.js:175-179 | at most five non-empty genres, each once, most engaged first, each with its count; non-empty when there is a tagged event; a genre left out counts no more than any listed |
| Store.GetUserTopMovies | backend/database.js:180-184 | at most ten viewed or clicked movies, each once, most often first, each with its count; non-empty when there is such an event; a movie left out counts no more than any listed |
| Store.GetMovieInteractionCounts | backend/database.js:137-140 | one row per (movie, event type) pair of the user, each once, with its count; the counts add up to all of the user's interactions |
| Store.TopGroupsLeaveOutLess | backend/database.js:175-184 | every key left out of the top groups counts no more than any group kept |
| Store.EventTypesOf | backend/database.js:185-188 | exactly the event types the user produced |
| Store.GenreEvents | backend/database.js:175-179 | the genre tags counted for the top genres are non-empty |
| Store.ViewedIds | backend/database.js:180-184 | exactly the movies the user viewed or clicked |
| Store.MovieEventPairs | backend/database.js:137-140 | exactly the (movie, event type) pairs the user produced |
| Store.Db.constructor | backend/database.js:17-108 | empty tables satisfying the key constraint |
| Store.Db.LogInteraction | backend/database.js:130-133 | an event type outside the six of the CHECK constraint fails and writes nothing; otherwise the log grows by exactly the one event; the key constraint is kept |
| Store.Db.UpsertQValue | backend/database.js:162-167 | the Q-table becomes the upsert of the old one, and the key constraint is kept |
| RlEngine.NonEmptyTags | backend/rlEngine.js:55-62 | the tallied context tags are non-empty |
| RlEngine.TopTag | backend/rlEngine.js:64-70 | none exactly for no tags; otherwise one of the tags |
| RlEngine.TopTagIsMostFrequent | backend/rlEngine.js:65-66 | the chosen tag occurs at least as often as every tag |
| RlEngine.TopTagIsFirstAmongEqual | backend/rlEngine.js:65-66 | every tag first seen before the chosen one occurs strictly less often: ties go to the earliest tag |
| RlEngine.StateGenreIsMostFrequent | backend/rlEngine.js:47-83 | with a tagged genre other than `general` in the window, the state's genre is a most frequent one |
| RlEngine.StateGenreFallback | backend/rlEngine.js:73-79 | with no tagged genre, the first preferred genre if there is one, else `general` |
| RlEngine.DominantGenre | backend/rlEngine.js:47-79 | a tallied genre, the first preferred genre or `general`; `general` when neither the window nor the profile has one |
| RlEngine.DominantExperience | backend/rlEngine.js:48-83 | a tallied experience, the preferred experience or `any`; `any` when neither the window nor the profile has one |
| RlEngine.StateKey | backend/rlEngine.js:93 | `genre|experience|timeSlot`: when genre and experience hold no `|`, the key splits on `|` into exactly those three parts |
| RlEngine.TimeSlot | backend/rlEngine.js:87-91 | one of morning, afternoon, evening and night, so never containing `|` |
| RlEngine.TagCountsSpec | backend/rlEngine.js:55-62 | the tally object holds exactly the tags seen, each with its number of occurrences |
| RlEngine.TallyWindow | backend/rlEngine.js:52-62 | the loop leaves, per field, the tally object of the window's non-empty tags with its keys in first-insertion order |
| RlEngine.TopEntry | backend/rlEngine.js:65-70 | the first entry of the tally sorted by count is the top tag, or the default for an empty tally |
| RlEngine.WindowLeaders | backend/rlEngine.js:47-71 | the window's leading genre and experience, `general`/`any` when none |
| RlEngine.EncodeState | backend/rlEngine.js:45-94 | the key is `dominantGenre|dominantExperience|timeSlot` with the window leaders, the profile fallbacks and the slot of the hour |
| RlEngine.CalculateReward | backend/rlEngine.js:105-126 | the reward lies between the negative and the positive rating weight, and is 0 exactly for an unknown event type |
| RlEngine.RatingWeight | backend/rlEngine.js:118-121 | a rating is negative exactly when `parseInt` does not read a number of at least 3 |
| RlEngine.NegativeRewards | backend/rlEngine.js:105-126 | only a rating that does not read as 3 or more, unparsable text included, is punished |
| RlEngine.RatingReward | backend/rlEngine.js:117-122 | a decimal star count gives 2.0 from 4 up, 0.5 at 3 and -1.0 below |
| RlEngine.TdUpdateTowardTarget | backend/rlEngine.js:153-156 | the new value lies between the old value and the TD target, one tenth of the way |
| RlEngine.RepeatBounded | backend/rlEngine.js:153-156 | repeating a non-negative reward on a state's best movie never lowers its value nor passes `R/(1-γ)` |
| RlEngine.FixedPoint | backend/rlEngine.js:153-156 | `R/(1-γ) = 20R` is a fixed point of the update |
| RlEngine.BestInState | backend/rlEngine.js:150-151 | the largest value stored in the state, attained by a row; nothing exactly when the state has no row |
| RlEngine.TopQueryIsMaxFuture | backend/rlEngine.js:150-151 | the head of the top-1 query is the state's largest value, 0 for an empty state |
| RlEngine.MaxFuture | backend/rlEngine.js:150-151 | the look-ahead is the state's largest stored value, or 0 |
| RlEngine.UpdateQValue | backend/rlEngine.js:143-168 | returns old value, new value, TD error and reward of the TD step, and stores the new value with one more visit and the reward as last reward |
| RlEngine.TdStep | backend/rlEngine.js:144-156 | old value is the stored one (0 if absent); TD error is target minus old; new = old + 0.1·error, between old and target; the reward is passed through |
| RlEngine.FirstUpdate | backend/rlEngine.js:146-156 | the first update in a state with no rows stores 0.1·r |
| RlEngine.StoredKey | backend/rlEngine.js:158-165 | after the update the key's row holds the new value, visits + 1 and the reward, with one row per key |
| RlEngine.StoredOthers | backend/rlEngine.js:158-165 | every other key's row is unchanged |
| RlEngine.UpdateFromWindow | backend/rlEngine.js:364-366 | the state is encoded from the user's 50 latest interactions and its Q-value updated by the TD step |
| RlEngine.Learn | backend/rlEngine.js:344-374 | an unknown user gives null and changes nothing; an event type the CHECK constraint refuses changes nothing; otherwise exactly one event is logged, the reward is `calculateReward`, the state is encoded from the window that now holds the event, and the Q-table is updated by the TD step |
| RlEngine.LearnSeesNewEvent | backend/rlEngine.js:349-365 | the logged interaction is the newest of the window its state is encoded from |
| RlEngine.LogAndLearn | backend/rlEngine.js:348-373 | after the profile lookup: refused by the CHECK constraint with nothing changed, or logged, rewarded and the Q-value updated |
| RlEngine.LoggedTypesAreRewarded | backend/database.js:39 | the event types the log accepts are exactly those with a non-zero reward |
| RlEngine.SharedGenres | backend/rlEngine.js:236-243 | exactly the movie's genres the profile prefers |
| RlEngine.Reasons | backend/rlEngine.js:279-281 | a candidate always has at least one reason |
| RlEngine.ScoreCandidate | backend/rlEngine.js:222-292 | a candidate is `rl` exactly when its state row has been visited, and that reason leads; the trending reason appears exactly when no signal fired; the shown reason is the first one capitalised behind the robot prefix; the Q-value is echoed exactly when the movie has a row |
| RlEngine.LearnedValueScales | backend/rlEngine.js:229-230 | each unit of learned value is worth three points of score |
| RlEngine.RatingLowersScore | backend/rlEngine.js:260-277 | rating a movie costs it at least half a point |
| RlEngine.StaleRowIgnored | backend/rlEngine.js:228-233 | a row with no visits adds nothing and leaves the source `hybrid`, though its value is echoed |
| RlEngine.Score | backend/rlEngine.js:227-277 | without a negative learned value no candidate scores below its baseline less 0.5 |
| RlEngine.PowUnit | backend/rlEngine.js:303 | powers of the decay stay in [0, 1] and shrink |
| RlEngine.PowAntitone | backend/rlEngine.js:303 | a larger exponent gives a smaller power |
| RlEngine.AdaptiveEpsilon | backend/rlEngine.js:300-304 | epsilon lies in [0.05, 0.15] |
| RlEngine.EpsilonDecreasing | backend/rlEngine.js:300-304 | more visits never raise epsilon |
| RlEngine.QMapOfSpec | backend/rlEngine.js:200-201 | the map has exactly the movies of the rows as keys, each mapped to one of its rows |
| RlEngine.QMapHoldsStoredRow | backend/rlEngine.js:199-201 | the learned row seen for a movie is the row the table stores for the key |
| RlEngine.BuildQMap | backend/rlEngine.js:200-201 | the loop builds the movie-to-row map |
| RlEngine.ViewedMovies | backend/rlEngine.js:209-215 | the loop collects the movies of the view and click groups |
| RlEngine.ViewedIff | backend/rlEngine.js:209-215 | a movie counts as viewed exactly when the user viewed or clicked it |
| RlEngine.LovedIds | backend/rlEngine.js:206 | exactly the movies rated 4 or more |
| RlEngine.RankingSpec | backend/rlEngine.js:297 | `sortedByScore` lists every candidate once, highest score first |
| RlEngine.FirstUnpicked | backend/rlEngine.js:318 | `find` of the best-ranked candidate not yet picked: an unpicked position of the ranking |
| RlEngine.FirstUnpickedNext | backend/rlEngine.js:318 | when all better-ranked candidates are picked, `find` returns the next one |
| RlEngine.GreedyStep | backend/rlEngine.js:316-321 | when every earlier round exploited, the next round picks the next-ranked candidate |
| RlEngine.Round | backend/rlEngine.js:306-323 | one round: a draw below epsilon with candidates left explores, else it exploits; one or two draws used, at most one pick added, earlier picks and marks kept, picks stay positions |
| RlEngine.RoundCount | backend/rlEngine.js:295 | `Math.min(count, scored.length)` as a number of rounds: 0 for `count <= 0`, at most both, positive when both are |
| RlEngine.DrawRound | backend/rlEngine.js:307-322 | the loop body takes exactly one `Round` step |
| RlEngine.RoundsGrow | backend/rlEngine.js:306-323 | rounds only add picks and marks, at most one pick each, and keep them positions of `scored` |
| RlEngine.SelectedBounds | backend/rlEngine.js:295-323 | the picks are positions of `scored`, at most one per round, every explored one among them, and at least one when the loop runs over candidates |
| RlEngine.GreedyRounds | backend/rlEngine.js:316-321 | while no draw falls below epsilon each round picks the next-ranked candidate |
| RlEngine.GreedySelection | backend/rlEngine.js:306-323 | never drawing below epsilon, the loop picks the top `min(count, n)` of the ranking and explores nothing |
| RlEngine.FirstRoundExplores | backend/rlEngine.js:307-315 | a first draw below epsilon makes the first pick the one the second draw chooses among the first thirty, marked explored |
| RlEngine.FirstUnpickedAt | backend/rlEngine.js:318 | every candidate ranked ahead of the one `find` returns is picked already |
| RlEngine.ExploitPicksBest | backend/rlEngine.js:316-321 | an exploiting round picks a candidate no unpicked candidate outscores |
| RlEngine.ExploreRepeatsExploit | backend/rlEngine.js:306-333 | with two candidates and `count` 2, exploiting then exploring the same one picks it twice, and de-duplication returns one result, fewer than `min(count, n)` |
| RlEngine.ExploreWindow | backend/rlEngine.js:309 | `Math.min(scored.length, 30)`: at most 30 and at most what remains, positive when something remains |
| RlEngine.ExploreIndex | backend/rlEngine.js:309 | the explored index is below the remaining count and below 30 |
| RlEngine.SpliceOut | backend/rlEngine.js:309-310 | `splice` removes and returns the drawn one of the remaining candidates, the rest keeping their order |
| RlEngine.DrawRounds | backend/rlEngine.js:306-323 | `totalCount` passes of the loop end in the picks and explored marks of that many `Round` steps from the given positions with nothing picked |
| RlEngine.SelectSlots | backend/rlEngine.js:295-323 | the loop ends in the picks and explored marks of `RoundCount` rounds of `Round` from the start state |
| RlEngine.Shown | backend/rlEngine.js:311-314 | one result per round, edited when it was ever explored |
| RlEngine.FirstById | backend/rlEngine.js:326-331 | the `seen` filter: the first recommendation of each movie, every movie kept, no id twice |
| RlEngine.FirstByIdHead | backend/rlEngine.js:326-331 | the first recommendation always survives de-duplication |
| RlEngine.DedupById | backend/rlEngine.js:326-331 | the loop keeps the first recommendation of each movie |
| RlEngine.TopScoredIsBest | backend/rlEngine.js:295-297 | the top candidates come by descending score, and one left out scores no higher than any kept, which then fill all `count` places |
| RlEngine.TopScored | backend/rlEngine.js:297 | exactly `min(count, candidates)` candidates, no candidate more often than `scored` holds it |
| RlEngine.RankedCandidates | backend/rlEngine.js:297 | the candidates in ranking order: a permutation of `scored`, position `j` holding the candidate of the `j`-th ranked slot |
| RlEngine.Choose | backend/rlEngine.js:294-333 | the `slice(0, count)` of the de-duplicated shown picks of the rounds; [] for `count <= 0`; at most `min(count, n)` results with distinct ids, each a scored candidate as is or as explored; never exploring gives the `count` best; a first exploring round puts the explored candidate first |
| RlEngine.ShownAreScored | backend/rlEngine.js:306-323 | every shown recommendation is a scored candidate, edited or not |
| RlEngine.GreedyShown | backend/rlEngine.js:306-323 | never exploring, the shown picks are the top `count` scored candidates |
| RlEngine.ChosenAreCandidates | backend/rlEngine.js:222-292 | a recommendation taken from the scored candidates, edited or not, is a candidate with its hybrid score |
| RlEngine.ProfileFor | backend/rlEngine.js:189-192 | the given profile, else the stored one; nothing exactly when neither exists |
| RlEngine.Candidates | backend/rlEngine.js:218-219 | exactly the movies whose age limit the user's age reaches |
| RlEngine.ScoreAll | backend/rlEngine.js:222-292 | one scored candidate per candidate, in order |
| RlEngine.GatherSignals | backend/rlEngine.js:194-215 | the learned rows, ratings and views the scoring reads, and the state's epsilon |
| RlEngine.ScoreAndChoose | backend/rlEngine.js:222-333 | the same rounds over the hybrid scores: [] for `count <= 0`; every result a candidate scored by the hybrid score, explored or not; ids distinct; at most `min(count, n)`; greedy when never exploring |
| RlEngine.GetRecommendations | backend/rlEngine.js:188-334 | an unknown user or `count <= 0` gives []; at most `count` results with distinct ids, the de-duplicated rounds over the age-appropriate movies (age 99 when missing or 0) scored by the hybrid score; greedy top-`count` when never exploring |
| RlEngine.MaturityOf | backend/rlEngine.js:398-401 | the stage rank counts the thresholds 5, 20 and 50 the total reaches |
| RlEngine.MaturityMonotone | backend/rlEngine.js:398-401 | more interactions never give a less mature stage |
| RlEngine.GetUserLearningStats | backend/rlEngine.js:379-403 | the total counts every interaction of the user and decides the maturity stage; no more learned states than Q entries, and none exactly when there are no entries |
| RlEngine.AverageWithin | backend/rlEngine.js:386-388 | a mean of bounded values is within the bounds |
| RlEngine.AverageWithinRange | backend/rlEngine.js:386-388 | the average Q-value lies between the user's smallest and largest |
| RlEngine.BreakdownOfGroups | backend/rlEngine.js:397 | folding distinct groups maps each key to its count, and has no other key |
| RlEngine.BreakdownCountsEvents | backend/rlEngine.js:397 | the activity breakdown maps exactly the user's event types to how often each occurred |
| Distribution.Spread | backend/server.js:318 | `max - min || 1` is positive |
| Distribution.Step | backend/server.js:319 | the bucket width is positive |
| Distribution.BucketIndices | backend/server.js:325-327 | one valid bucket index per value |
| Distribution.BucketOf | backend/server.js:326 | the clamped bucket index is a valid bucket |
| Distribution.HistogramCounts | backend/server.js:325-328 | each counter holds how many values fall in its bucket |
| Distribution.Histogram | backend/server.js:321-328 | one counter per bucket |
| Distribution.HistogramTotal | backend/server.js:325-328 | with every index valid, the counters add up to the number of indices |
| Distribution.BuildDistribution | backend/server.js:314-330 | empty labels and counts for no values; otherwise the bucket lower edges and the histogram of the bucket indices |
| Distribution.CountBuckets | backend/server.js:321-328 | the array loop leaves the histogram of the bucket indices |
| Distribution.DistributionTotal | backend/server.js:325-328 | the counts add up to the number of values |
| Distribution.EdgesSpanValues | backend/server.js:319-324 | labels start at the minimum, are one step apart, and `buckets` steps cover exactly the spread |
| Distribution.Edges | backend/server.js:322-324 | one label per bucket |
| Distribution.EdgesEvenlySpaced | backend/server.js:322-324 | consecutive labels are one step apart |
| Distribution.ExtremesInEndBuckets | backend/server.js:326 | the smallest value lands in bucket 0 and, with a spread, the largest in the last |
| Distribution.LowestBucket | backend/server.js:326 | the minimum lands in bucket 0 |
| Distribution.HighestBucket | backend/server.js:326 | with a spread, the maximum lands in the last bucket thanks to the clamp |
| Distribution.BucketMonotone | backend/server.js:326 | a larger value never lands in a lower bucket |
| Distribution.EqualValuesShareFirstBucket | backend/server.js:318-327 | when all values are equal the spread is 1 and every value lands in bucket 0 |
| Activity.Tallied | backend/server.js:338 | counting an event keeps the counter keys |
| Activity.DayOfIsFirstPiece | backend/server.js:336 | the day is `created_at.split(' ')[0]` |
| Activity.DayOf | backend/server.js:336 | a day never contains a space |
| Activity.DayOfTimestamp | backend/server.js:336 | the day of `date + " " + time` is the date |
| Activity.CounterCounts | backend/server.js:335-338 | each counter holds the number of the key's interactions of that event type |
| Activity.CountsFor | backend/server.js:335-338 | the counters of a key hold exactly the six event types |
| Activity.CountsWithinInteractions | backend/server.js:337-338 | a key's counters add up to at most its interactions, exactly when all event types are known |
| Activity.CountsForUnseen | backend/server.js:337 | a key without interactions has all-zero counters |
| Activity.BuildTimeline | backend/server.js:333-350 | labels are the sorted distinct days; the four datasets have the labels' length and hold each day's counters |
| Activity.Series | backend/server.js:344-347 | one dataset entry per label, the label's counter of the event type |
| Activity.TallyDays | backend/server.js:334-339 | the loop builds the day object, its keys in first-appearance order |
| Activity.Tally | backend/server.js:334-339 | every key holds counters with exactly the six event types, and the genre object has no empty genre |
| Activity.TallySpec | backend/server.js:334-339 | a key is present exactly when an interaction has it (a genre also non-empty), and holds that key's counters |
| Activity.TallyKeys | backend/server.js:340 | the day object's keys are the distinct days; the genre object's the distinct non-empty genres |
| Activity.TimelineDays | backend/server.js:340-342 | the labels are exactly the days with interactions, strictly ascending |
| Activity.GenreBreakdown | backend/server.js:217-226 | the loop builds the genre object over non-empty genres, in first-appearance order |
| Activity.TaggedGenres | backend/server.js:219 | exactly the non-empty context genres |
| Ratings.StarTally | backend/server.js:257-258 | five counters |
| Ratings.RatingDistribution | backend/server.js:256-258 | the array loop leaves the five star counters |
| Ratings.StarCounts | backend/server.js:258 | counter k holds the number of (k+1)-star ratings |
| Ratings.RatingDistributionTotal | backend/server.js:257-258 | the counters add up to the ratings from 1 to 5, all of them under the schema's check |
| Dashboard.Entries | backend/server.js:270 | exactly the rows of the state |
| Dashboard.DetailOf | backend/server.js:271-277 | a coverage row names its state |
| Dashboard.StateDetails | backend/server.js:267-278 | one row per distinct state, each once, sorted by visits descending, each row that state's coverage |
| Dashboard.DetailBounds | backend/server.js:270-276 | movie count is the number of entries; the max is the largest entry's value and is attained; the mean lies between min and max |
| Dashboard.SummaryAgreesWithStats | backend/server.js:300-307 | the dashboard's maturity (from at most 500 interactions), mean, state count and entry count agree with the learning statistics |
| Dashboard.DashboardSummary | backend/server.js:300-307 | no more states than entries; with entries the mean lies between min and max; max bounds every value |
| Dashboard.SummaryBounds | backend/server.js:302-306 | no more states than entries; the mean lies between min and max; max bounds every value |
| Validation.ValidateTrack | backend/server.js:74-81 | accepted exactly for a truthy id and one of the six event types, which the engine rewards and the dashboard counts; otherwise status 400 |
| Validation.ValidateRate | backend/server.js:128-130 | accepted exactly for a truthy id and a rating in [1, 5]; otherwise status 400 |
| Validation.AcceptedStarsReward | backend/server.js:128-140 | an accepted whole-star rating teaches the engine its rating reward |
| HashRouter.EscapeAt | js/router.js:54 | an escape `%XY` at a position gives a byte |
| HashRouter.EscapedBytes | js/router.js:54 | a run of `n` escapes reads `n` bytes |
| HashRouter.Utf8CodePoint | js/router.js:54 | a multi-byte sequence decodes only to a scalar value of at least 0x80 |
| HashRouter.DecodePlain | js/router.js:54 | text without `%` decodes to itself |
| HashRouter.Decode | js/router.js:54 | `decodeURIComponent`: decoding never lengthens the text |
| HashRouter.EscapedSlash | js/router.js:54 | `a%2Fb` decodes to `a/b` |
| HashRouter.Segments | js/router.js:46-47 | the non-empty pieces of a split on `/` |
| HashRouter.MatchRoute | js/router.js:45-60 | the segment loop computes the match |
| HashRouter.Match | js/router.js:45-60 | a match exactly when the segment counts agree and each segment is accepted |
| HashRouter.MatchSegments | js/router.js:51-59 | the segment loop matches exactly when every segment is accepted |
| HashRouter.LiteralMismatchRejects | js/router.js:55-56 | a differing literal segment after accepted ones gives null |
| HashRouter.UndecodableThrows | js/router.js:53-54 | an undecodable parameter segment after accepted ones throws |
| HashRouter.Bindings | js/router.js:52-59 | a match binds exactly the parameter names, each to the decoded path segment of its last occurrence |
| HashRouter.SegmentBindings | js/router.js:52-54 | after the loop each parameter name is bound to the decoded segment of its last occurrence, and earlier bindings of other names are kept |
| HashRouter.NoParamsMatchExactly | js/router.js:49-59 | a pattern without parameters matches exactly the paths of the same segments, binding nothing |
| HashRouter.SegmentsJoin | js/router.js:46-47 | the segments of `a/b` are those of `a` then `b` |
| HashRouter.NoSegments | js/router.js:46-47 | `""` and `/` have no segments |
| HashRouter.ExtraSlashesIgnored | js/router.js:46-47 | a trailing or a doubled leading slash adds no segment |
| HashRouter.RootMatchesOnlyEmpty | js/router.js:46-59 | `/` matches exactly the paths without segments |
| HashRouter.HashPath | js/router.js:26 | the path is never empty |
| HashRouter.NavigateHash | js/router.js:18-26 | navigating to a path and resolving gives that path back, `/` for the empty path |
| HashRouter.FirstMatchWins | js/router.js:29-38 | the first pattern not giving null decides: its handler with its params, or the error; if all give null, the `/` handler with {} if registered |
| HashRouter.Dispatch | js/router.js:29-38 | the loop computes that first-match outcome |
| HashRouter.FirstDispatch | js/router.js:29-38 | a dispatched handler is the registered handler of its pattern, a registered pattern or the `/` fallback with `{}`; nothing is handled only when `/` is not registered |
| HashRouter.Router.constructor | js/router.js:3-5 | no routes and no current route |
| HashRouter.Router.On | js/router.js:11-13 | the pattern's handler is set, the pattern appended if new, and every other registration unchanged |
| HashRouter.Router.Resolve | js/router.js:25-39 | records the hash path as current route and gives the first-match outcome over the registration order |

## Left out

- Display rounding (`Math.round(x * 100) / 100`) is not modelled. Every score, mean and value is an exact real, so IEEE floating point is not modelled either.
- JavaScript object key order is modelled as insertion order. Integer-like keys, which JavaScript enumerates first, are not. This affects the tallies, the timeline and genre objects and the router's registration order.
- The prototype properties of plain objects are not modelled.
  - An event type such as `toString` has no counter in the model.
  - A parameter named `__proto__` is bound like any other.
- `toLowerCase` and `toUpperCase` work on ASCII letters only. Strings are sequences of Unicode scalar values, not UTF-16 code units.
- `JSON.parse` of `preferred_genres` is taken as already done. The result is a list, or absent when it does not parse. A JSON string or number that does parse is not modelled.
- SQL is modelled as its effect.
  - `ORDER BY created_at DESC` is taken as the reverse of insertion order.
  - The `GROUP BY` queries return groups in first-appearance order.
  - Timestamps are passed in as text.
- The clock (`new Date().getHours()`, `CURRENT_TIMESTAMP`) and `Math.random()` are parameters.
- GetRecommendations, Choose, ScoreAndChoose and SelectSlots require at least `2 * count` draws: the most the loop can consume.
- The `ignore` reward weight (-0.2) is configured but used by no event type, so it has no effect.
- `topMovieQ`, `sourceBreakdown` and `config` of the dashboard route are not modelled. The first is a sort over a rounded aggregate; the other two pass through values the model already has.
- Express wiring, JSON responses, authentication and the request-body coercions of the routes are not modelled. The route checks take the body fields as already typed: `Option<int>` ids, `Option<string>` event types and `Option<real>` ratings.
- `getSimilar` reads `localStorage`, and `getAllPlatforms` is a constant table. Neither is modelled.
- The handler invocation of the router is modelled as its outcome: which handler, with which parameters, or the `URIError`. What the handler then does is not modelled, nor is a handler re-entering the router.
- `navigate` is modelled only as the hash it writes (NavigateHash).
- `init` and the `hashchange` listener are I/O and not modelled.
- buildDistribution is also defined for zero buckets, which the dashboard never requests. Every index is then -1, the counts array stays empty, and the model returns empty labels and counts.
