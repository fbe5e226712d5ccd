/** The reinforcement-learning recommender: a contextual bandit whose state is the user's dominant genre,
    dominant experience and time of day, whose actions are movies, and whose per-user Q-table is updated by
    temporal-difference learning from interaction rewards. Recommendations blend the learned values with
    content signals and pick epsilon-greedily. The clock and `Math.random` are parameters. */
module RlEngine {
  import opened Wrappers
  import opened Seqs
  import opened Sorting
  import opened Text
  import opened Catalogue
  import opened Store
  import ContentEngine

  // Exploration hyperparameters; the learning rate 0.1 and discount factor 0.95 appear in `TdUpdate`.
  const Epsilon: real := 0.15
  const EpsilonDecay: real := 0.999
  const EpsilonMin: real := 0.05

  // Reward weights. An `ignore` weight of -0.2 is configured but no event type maps to it.
  const RewardClick: real := 1.0
  const RewardView: real := 0.5
  const RewardSearch: real := 0.3
  const RewardRatingPositive: real := 2.0
  const RewardRatingNeutral: real := 0.5
  const RewardRatingNegative: real := -1.0
  const RewardRecommendClick: real := 1.5
  const RewardDwell: real := 0.8

  /** The size of the recent-interaction window the state is encoded from. */
  const RecentWindow: nat := 50

  // ---------------------------------------------------------------------------------------------
  // State encoding
  // ---------------------------------------------------------------------------------------------

  /** The part of the day `hour` falls in; a slot never holds the key separator. */
  function TimeSlot(hour: int): (r: string)
    ensures r in ["morning", "afternoon", "evening", "night"] && '|' !in r
  {
    if 5 <= hour < 12 then "morning"
    else if 12 <= hour < 17 then "afternoon"
    else if 17 <= hour < 21 then "evening"
    else "night"
  }

  function GenreOf(e: Interaction): string { e.contextGenre }

  function ExperienceOf(e: Interaction): string { e.contextExperience }

  /** The non-empty values of one context field, in window order. */
  function NonEmptyTags(recent: seq<Interaction>, field: Interaction -> string): (r: seq<string>)
    ensures forall t :: t in r ==> t != ""
  {
    if recent == [] then []
    else
      var rest := NonEmptyTags(recent[..|recent| - 1], field);
      var t := field(recent[|recent| - 1]);
      if t != "" then rest + [t] else rest
  }

  /** The tag tallied most often; among equally frequent tags the one seen first, since the tally object
      keeps first-insertion order and the sort by count is stable. */
  function TopTag(tags: seq<string>): (r: Option<string>)
    ensures r.None? <==> tags == []
    ensures r.Some? ==> r.value in tags
  {
    var sorted := Sort(GroupCount(tags), CountFirst);
    assert tags != [] ==> tags[0] in Distinct(tags);
    if sorted == [] then None
    else
      assert sorted[0] in multiset(GroupCount(tags));
      Some(sorted[0].0)
  }

  /** The top tag occurs at least as often as every tag. */
  lemma TopTagIsMostFrequent(tags: seq<string>, x: string)
    requires x in tags
    ensures multiset(tags)[x] <= multiset(tags)[TopTag(tags).value]
  {
    var groups := GroupCount(tags);
    var sorted := Sort(groups, CountFirst);
    CountFirstTotal<string>();
    SortSorted(groups, CountFirst);
    var i :| 0 <= i < |groups| && groups[i].0 == x;
    assert groups[i] in multiset(sorted);
    var j :| 0 <= j < |sorted| && sorted[j] == groups[i];
    if j > 0 {
      assert CountFirst(sorted[0], sorted[j]);
    }
    assert sorted[0] in multiset(groups);
  }

  /** Every tag first seen before the top tag occurs strictly less often: ties go to the earliest tag. */
  lemma TopTagIsFirstAmongEqual(tags: seq<string>)
    requires tags != []
    ensures exists k :: 0 <= k < |Distinct(tags)| && Distinct(tags)[k] == TopTag(tags).value &&
                        (forall j :: 0 <= j < k ==> multiset(tags)[Distinct(tags)[j]] < multiset(tags)[TopTag(tags).value])
  {
    var groups := GroupCount(tags);
    var sorted := Sort(groups, CountFirst);
    var top := TopTag(tags).value;
    assert top == sorted[0].0;
    var k := SortHead(groups, CountFirst);
    var d := Distinct(tags);
    assert d[k] == top;
    assert groups[k].1 == multiset(tags)[top];
    forall j | 0 <= j < k ensures multiset(tags)[d[j]] < multiset(tags)[top] {
      assert groups[j].0 == d[j] && groups[j].1 == multiset(tags)[d[j]];
      assert !CountFirst(groups[j], groups[k]);
    }
  }

  /** The tag `encodeState` reads off the window for one field before any fallback. */
  function WindowLeader(recent: seq<Interaction>, field: Interaction -> string, default: string): string
  {
    var top := TopTag(NonEmptyTags(recent, field));
    if top.Some? then top.value else default
  }

  /** The state's genre: the most frequent genre of the recent window, or else the profile's first
      preferred genre (also when the window's top genre is literally "general"), or else "general". */
  function DominantGenre(profile: Profile, recent: seq<Interaction>): (r: string)
    ensures var tags := NonEmptyTags(recent, GenreOf);
      && (r in tags || r == "general" || (profile.preferredGenres.Some? && |profile.preferredGenres.value| > 0 &&
                                            r == profile.preferredGenres.value[0]))
      && (tags == [] && (profile.preferredGenres.None? || profile.preferredGenres.value == []) ==> r == "general")
  {
    var g := WindowLeader(recent, GenreOf, "general");
    if g == "general" && profile.preferredGenres.Some? && |profile.preferredGenres.value| > 0
    then profile.preferredGenres.value[0]
    else g
  }

  /** The state's experience, falling back to the profile's preferred experience, then "any". */
  function DominantExperience(profile: Profile, recent: seq<Interaction>): (r: string)
    ensures var tags := NonEmptyTags(recent, ExperienceOf);
      && (r in tags || r == "any" || r == profile.preferredExperience)
      && (tags == [] && profile.preferredExperience == "" ==> r == "any")
  {
    var e := WindowLeader(recent, ExperienceOf, "any");
    if e == "any" && profile.preferredExperience != "" then profile.preferredExperience else e
  }

  /** `genre|experience|timeSlot`: a key that splits back on '|' into its three parts when the genre and
      experience hold no '|'. */
  function StateKey(profile: Profile, recent: seq<Interaction>, hour: int): (r: string)
    ensures '|' !in DominantGenre(profile, recent) && '|' !in DominantExperience(profile, recent) ==>
      Split(r, '|') == [DominantGenre(profile, recent), DominantExperience(profile, recent), TimeSlot(hour)]
  {
    var g, e, t := DominantGenre(profile, recent), DominantExperience(profile, recent), TimeSlot(hour);
    SplitThree(g, e, t, '|');
    g + "|" + e + "|" + t
  }

  /** When the window tags some genre other than "general", the state names a most frequent one. */
  lemma StateGenreIsMostFrequent(profile: Profile, recent: seq<Interaction>)
    requires NonEmptyTags(recent, GenreOf) != []
    requires TopTag(NonEmptyTags(recent, GenreOf)).value != "general"
    ensures var tags := NonEmptyTags(recent, GenreOf); var g := DominantGenre(profile, recent);
      g in tags && forall x :: x in tags ==> multiset(tags)[x] <= multiset(tags)[g]
  {
    var tags := NonEmptyTags(recent, GenreOf);
    forall x | x in tags ensures multiset(tags)[x] <= multiset(tags)[DominantGenre(profile, recent)] {
      TopTagIsMostFrequent(tags, x);
    }
  }

  /** With no tagged genre in the window the profile decides, and with neither the state says "general". */
  lemma StateGenreFallback(profile: Profile, recent: seq<Interaction>)
    requires NonEmptyTags(recent, GenreOf) == []
    ensures profile.preferredGenres.Some? && |profile.preferredGenres.value| > 0 ==>
      DominantGenre(profile, recent) == profile.preferredGenres.value[0]
    ensures !(profile.preferredGenres.Some? && |profile.preferredGenres.value| > 0) ==>
      DominantGenre(profile, recent) == "general"
  {
  }

  /** The counts of the tally object of `tags`: each tag seen, with the number of times it was seen. */
  function TagCounts(tags: seq<string>): map<string, nat>
  {
    if tags == [] then map[]
    else
      var m, t := TagCounts(tags[..|tags| - 1]), tags[|tags| - 1];
      m[t := (if t in m then m[t] else 0) + 1]
  }

  /** The tally object holds exactly the tags seen, each with its number of occurrences. */
  lemma {:induction false} TagCountsSpec(tags: seq<string>)
    ensures forall x :: x in TagCounts(tags) <==> x in tags
    ensures forall x :: x in TagCounts(tags) ==> TagCounts(tags)[x] == multiset(tags)[x]
  {
    if tags != [] {
      var init, t := tags[..|tags| - 1], tags[|tags| - 1];
      assert init + [t] == tags;
      TagCountsSpec(init);
      assert multiset(init + [t]) == multiset(init) + multiset{t};
      if t !in init {
        assert multiset(init)[t] == 0;
      }
    }
  }

  /** `counts` and `keys` are the tally object of `tags`: its counts and its keys in insertion order. */
  ghost predicate Tallies(counts: map<string, nat>, keys: seq<string>, tags: seq<string>)
  {
    counts == TagCounts(tags) && keys == Distinct(tags)
  }

  /** `counts[t] = (counts[t] || 0) + 1` for a non-empty tag `t`. */
  function Bump(counts: map<string, nat>, t: string): map<string, nat>
  {
    if t == "" then counts else counts[t := (if t in counts then counts[t] else 0) + 1]
  }

  /** The tally's key order after counting `t`: a new key goes last. */
  function BumpKeys(counts: map<string, nat>, keys: seq<string>, t: string): seq<string>
  {
    if t == "" || t in counts then keys else keys + [t]
  }

  lemma TallyStep(counts: map<string, nat>, keys: seq<string>, recent: seq<Interaction>, i: nat,
                  field: Interaction -> string)
    requires i < |recent|
    requires Tallies(counts, keys, NonEmptyTags(recent[..i], field))
    ensures Tallies(Bump(counts, field(recent[i])), BumpKeys(counts, keys, field(recent[i])),
                    NonEmptyTags(recent[..i + 1], field))
  {
    NonEmptyTagsStep(recent, i, field);
    var t := field(recent[i]);
    var tags := NonEmptyTags(recent[..i], field);
    if t != "" {
      assert NonEmptyTags(recent[..i + 1], field) == tags + [t];
      TagStep(counts, keys, tags, t);
    } else {
      assert NonEmptyTags(recent[..i + 1], field) == tags;
    }
  }

  /** Counting one more non-empty tag into the tally object. */
  lemma TagStep(counts: map<string, nat>, keys: seq<string>, tags: seq<string>, t: string)
    requires t != "" && Tallies(counts, keys, tags)
    ensures Tallies(Bump(counts, t), BumpKeys(counts, keys, t), tags + [t])
  {
    var tags' := tags + [t];
    assert Bump(counts, t) == TagCounts(tags') by {
      assert tags'[..|tags|] == tags;
    }
    assert BumpKeys(counts, keys, t) == Distinct(tags') by {
      TagCountsSpec(tags);
      DistinctAppend(tags, t);
    }
  }

  lemma NonEmptyTagsStep(recent: seq<Interaction>, i: nat, field: Interaction -> string)
    requires i < |recent|
    ensures NonEmptyTags(recent[..i + 1], field) ==
      NonEmptyTags(recent[..i], field) + if field(recent[i]) != "" then [field(recent[i])] else []
  {
    assert recent[..i + 1][..i] == recent[..i];
  }

  /** `Object.entries` of a tally. */
  function Entries(counts: map<string, nat>, keys: seq<string>): seq<(string, nat)>
    requires forall x :: x in keys ==> x in counts
  {
    seq(|keys|, i requires 0 <= i < |keys| => (keys[i], counts[keys[i]]))
  }

  /** The tally loop of `encodeState`: count the non-empty genre and experience tags of the window into
      two objects. */
  method TallyWindow(recent: seq<Interaction>)
    returns (genreCounts: map<string, nat>, genreKeys: seq<string>, expCounts: map<string, nat>, expKeys: seq<string>)
    ensures Tallies(genreCounts, genreKeys, NonEmptyTags(recent, GenreOf))
    ensures Tallies(expCounts, expKeys, NonEmptyTags(recent, ExperienceOf))
  {
    genreCounts, genreKeys, expCounts, expKeys := map[], [], map[], [];
    var i := 0;
    while i < |recent|
      invariant 0 <= i <= |recent|
      invariant Tallies(genreCounts, genreKeys, NonEmptyTags(recent[..i], GenreOf))
      invariant Tallies(expCounts, expKeys, NonEmptyTags(recent[..i], ExperienceOf))
    {
      TallyStep(genreCounts, genreKeys, recent, i, GenreOf);
      TallyStep(expCounts, expKeys, recent, i, ExperienceOf);
      var g, x := recent[i].contextGenre, recent[i].contextExperience;
      genreKeys, genreCounts := BumpKeys(genreCounts, genreKeys, g), Bump(genreCounts, g);
      expKeys, expCounts := BumpKeys(expCounts, expKeys, x), Bump(expCounts, x);
      i := i + 1;
    }
    assert recent[..|recent|] == recent;
  }

  /** The key of the first entry of the tally sorted by count, or `fallback` for an empty tally. */
  method TopEntry(counts: map<string, nat>, keys: seq<string>, ghost tags: seq<string>, fallback: string)
    returns (top: string)
    requires Tallies(counts, keys, tags)
    ensures top == (if tags == [] then fallback else TopTag(tags).value)
  {
    TagCountsSpec(tags);
    assert Entries(counts, keys) == GroupCount(tags);
    var sorted := Sort(Entries(counts, keys), CountFirst);
    top := if |sorted| > 0 then sorted[0].0 else fallback;
  }

  /** The window part of `encodeState`: with a non-empty window, tally both fields and take each tally's
      most frequent entry. */
  method WindowLeaders(recent: seq<Interaction>) returns (genre: string, experience: string)
    ensures genre == WindowLeader(recent, GenreOf, "general")
    ensures experience == WindowLeader(recent, ExperienceOf, "any")
  {
    genre, experience := "general", "any";
    if |recent| > 0 {
      var genreCounts, genreKeys, expCounts, expKeys := TallyWindow(recent);
      genre := TopEntry(genreCounts, genreKeys, NonEmptyTags(recent, GenreOf), genre);
      experience := TopEntry(expCounts, expKeys, NonEmptyTags(recent, ExperienceOf), experience);
    }
  }

  /** `encodeState`: the window's most frequent genre and experience, each falling back to the profile,
      and the time slot of `hour`. */
  method EncodeState(profile: Profile, recent: seq<Interaction>, hour: int) returns (key: string)
    ensures key == StateKey(profile, recent, hour)
  {
    var dominantGenre, dominantExperience := WindowLeaders(recent);
    if dominantGenre == "general" && profile.preferredGenres.Some? && |profile.preferredGenres.value| > 0 {
      dominantGenre := profile.preferredGenres.value[0];
    }
    if dominantExperience == "any" && profile.preferredExperience != "" {
      dominantExperience := profile.preferredExperience;
    }
    var timeSlot := TimeSlot(hour);
    key := dominantGenre + "|" + dominantExperience + "|" + timeSlot;
  }

  // ---------------------------------------------------------------------------------------------
  // Reward
  // ---------------------------------------------------------------------------------------------

  /** The event types that carry a reward. */
  predicate Rewarded(eventType: string)
  {
    || eventType == "click" || eventType == "view" || eventType == "search"
    || eventType == "recommend_click" || eventType == "dwell" || eventType == "rating"
  }

  /** `calculateReward`: a fixed weight per event type; a rating's weight depends on the integer
      `parseInt` reads from the value (4 or more positive, 3 neutral, anything else, unparsable text
      included, negative); unknown event types are worth nothing. */
  function CalculateReward(eventType: string, eventValue: string): (r: real)
    ensures RewardRatingNegative <= r <= RewardRatingPositive
    ensures r == 0.0 <==> !Rewarded(eventType)
  {
    if eventType == "click" then RewardClick
    else if eventType == "view" then RewardView
    else if eventType == "search" then RewardSearch
    else if eventType == "recommend_click" then RewardRecommendClick
    else if eventType == "dwell" then RewardDwell
    else if eventType == "rating" then RatingWeight(ParseInt(eventValue))
    else 0.0
  }

  /** The weight of a rating read by `parseInt`: 4 or more positive, 3 neutral, anything else negative;
      `None` (NaN) compares false against both and is negative. */
  function RatingWeight(rating: Option<int>): (r: real)
    ensures r < 0.0 <==> !(rating.Some? && rating.value >= 3)
  {
    if rating.Some? && rating.value >= 4 then RewardRatingPositive
    else if rating == Some(3) then RewardRatingNeutral
    else RewardRatingNegative
  }

  /** Only a rating can be punished: one that does not read as 3 or more, unparsable text included. */
  lemma NegativeRewards(eventType: string, eventValue: string)
    ensures CalculateReward(eventType, eventValue) < 0.0 <==>
      eventType == "rating" && !(ParseInt(eventValue).Some? && ParseInt(eventValue).value >= 3)
  {
    if eventType != "rating" {
      assert CalculateReward(eventType, eventValue) in
        {RewardClick, RewardView, RewardSearch, RewardRecommendClick, RewardDwell, 0.0};
    }
  }

  /** A star rating written in decimal earns the positive, neutral or negative rating weight. */
  lemma RatingReward(stars: nat)
    ensures CalculateReward("rating", DecimalString(stars)) ==
      if stars >= 4 then RewardRatingPositive else if stars == 3 then RewardRatingNeutral else RewardRatingNegative
  {
    ParseDecimal(stars);
  }

  // ---------------------------------------------------------------------------------------------
  // Temporal-difference update
  // ---------------------------------------------------------------------------------------------

  /** `Q + α·(R + γ·maxFuture − Q)` with learning rate α = 0.1 and discount factor γ = 0.95: the value
      moves a tenth of the way toward the TD target. */
  function TdUpdate(q: real, reward: real, maxFuture: real): real
  {
    q + 0.1 * (reward + 0.95 * maxFuture - q)
  }

  /** The updated value lies between the old value and the TD target, a tenth of the way along. */
  lemma TdUpdateTowardTarget(q: real, reward: real, maxFuture: real)
    ensures var target := reward + 0.95 * maxFuture; var r := TdUpdate(q, reward, maxFuture);
      && (q <= target ==> q <= r <= target)
      && (target <= q ==> target <= r <= q)
      && (r - q) * 10.0 == target - q
  {
  }

  /** Repeating one reward on a movie that is the best of its state, starting from the empty value. */
  function Repeat(q: real, reward: real, n: nat): real
    decreases n
  {
    if n == 0 then q else Repeat(TdUpdate(q, reward, q), reward, n - 1)
  }

  /** Repeating a non-negative reward never lowers the value and never passes `R / (1 − γ)`, the value at
      which the update is a fixed point. */
  lemma {:induction false} RepeatBounded(q: real, reward: real, n: nat)
    requires 0.0 <= reward && 0.0 <= q <= 20.0 * reward
    ensures q <= Repeat(q, reward, n) <= 20.0 * reward
    decreases n
  {
    if n > 0 {
      var next := TdUpdate(q, reward, q);
      TdUpdateTowardTarget(q, reward, q);
      assert q <= next <= 20.0 * reward;
      RepeatBounded(next, reward, n - 1);
    }
  }

  lemma FixedPoint(reward: real)
    ensures TdUpdate(20.0 * reward, reward, 20.0 * reward) == 20.0 * reward
  {
  }

  /** The stored value of the key (`existing ? existing.q_value : 0`). */
  function CurrentQ(rows: seq<QRow>, user: string, state: string, movieId: int): real
  {
    var row := GetQValue(rows, user, state, movieId);
    if row.Some? then row.value.qValue else 0.0
  }

  function CurrentVisits(rows: seq<QRow>, user: string, state: string, movieId: int): nat
  {
    var row := GetQValue(rows, user, state, movieId);
    if row.Some? then row.value.visits else 0
  }

  /** The largest value stored for the state, if it has a row. */
  function BestInState(rows: seq<QRow>, user: string, state: string): (m: Option<real>)
    ensures m.None? <==> forall row :: row in rows ==> !InState(row, user, state)
    ensures m.Some? ==> forall row :: row in rows && InState(row, user, state) ==> row.qValue <= m.value
    ensures m.Some? ==> exists row :: row in rows && InState(row, user, state) && row.qValue == m.value
  {
    if rows == [] then None
    else
      var rest := BestInState(rows[1..], user, state);
      assert forall row :: row in rows ==> row == rows[0] || row in rows[1..];
      if InState(rows[0], user, state) && (rest.None? || rows[0].qValue >= rest.value) then Some(rows[0].qValue)
      else rest
  }

  /** The best value the update looks ahead to, 0 for a state without rows. */
  function MaxFutureQ(rows: seq<QRow>, user: string, state: string): real
  {
    BestInState(rows, user, state).GetOr(0.0)
  }

  /** `getTopQValues(user, state, 1)` heads with the state's best value, and is empty exactly when the
      state has no row. */
  lemma TopQueryIsMaxFuture(rows: seq<QRow>, user: string, state: string)
    ensures var best := GetTopQValues(rows, user, state, 1);
      (if |best| > 0 then best[0].qValue else 0.0) == MaxFutureQ(rows, user, state)
  {
    var best := GetTopQValues(rows, user, state, 1);
    var m := BestInState(rows, user, state);
    if m.Some? {
      var row :| row in rows && InState(row, user, state) && row.qValue == m.value;
      TopIsMaximum(rows, user, state, row);
      assert best[0] in best;
    } else if |best| > 0 {
      assert best[0] in best;
    }
  }

  /** The look-ahead of `updateQValue`: the head of `getTopQValues(user, state, 1)`, or 0. */
  method MaxFuture(rows: seq<QRow>, user: string, state: string) returns (m: real)
    ensures m == MaxFutureQ(rows, user, state)
  {
    var bestFuture := GetTopQValues(rows, user, state, 1);
    m := if |bestFuture| > 0 then bestFuture[0].qValue else 0.0;
    TopQueryIsMaxFuture(rows, user, state);
  }

  datatype QUpdate = QUpdate(oldQ: real, newQ: real, tdError: real, reward: real)

  /** The update `updateQValue` makes to the key of `rows`: the TD error is the distance from the stored
      value (0 if absent) to the target `R + γ·maxFuture`, and the new value moves a tenth of the way
      toward that target, ending between the old value and the target. */
  function TdStep(rows: seq<QRow>, user: string, state: string, movieId: int, reward: real): (u: QUpdate)
    ensures var target := reward + 0.95 * MaxFutureQ(rows, user, state);
      && u.oldQ == CurrentQ(rows, user, state, movieId)
      && u.tdError == target - u.oldQ
      && u.newQ == u.oldQ + 0.1 * u.tdError
      && (u.oldQ <= target ==> u.oldQ <= u.newQ <= target)
      && (target <= u.oldQ ==> target <= u.newQ <= u.oldQ)
      && u.reward == reward
  {
    var q := CurrentQ(rows, user, state, movieId);
    var maxFuture := MaxFutureQ(rows, user, state);
    TdUpdateTowardTarget(q, reward, maxFuture);
    QUpdate(q, TdUpdate(q, reward, maxFuture), reward + 0.95 * maxFuture - q, reward)
  }

  /** The Q-table after upserting the key (user, state, movie) with `update` and one more visit. */
  function Stored(rows: seq<QRow>, user: string, state: string, movieId: int, update: QUpdate): seq<QRow>
  {
    Upsert(rows, user, state, movieId, update.newQ, CurrentVisits(rows, user, state, movieId) + 1, update.reward)
  }

  /** `updateQValue`: read the key's value and visit count and the state's best value, move the value by
      the TD rule, and upsert it with one more visit and the reward as the last reward. */
  method UpdateQValue(db: Db, user: string, state: string, movieId: int, reward: real) returns (u: QUpdate)
    requires db.Valid()
    modifies db`qtable
    ensures db.Valid()
    ensures u == TdStep(old(db.qtable), user, state, movieId, reward)
    ensures db.qtable == Stored(old(db.qtable), user, state, movieId, u)
  {
    var rows := db.qtable;
    var currentQ := CurrentQ(rows, user, state, movieId);
    var visitCount := CurrentVisits(rows, user, state, movieId);
    var maxFutureQ := MaxFuture(rows, user, state);
    var tdTarget := reward + 0.95 * maxFutureQ;
    var tdError := tdTarget - currentQ;
    var newQ := currentQ + 0.1 * tdError;
    u := QUpdate(currentQ, newQ, tdError, reward);
    assert u == TdStep(rows, user, state, movieId, reward);
    db.UpsertQValue(user, state, movieId, u.newQ, visitCount + 1, reward);
  }

  /** The first update of a key in a state with no row stores a tenth of the reward. */
  lemma FirstUpdate(rows: seq<QRow>, user: string, state: string, movieId: int, reward: real)
    requires forall row :: row in rows ==> !InState(row, user, state)
    ensures TdStep(rows, user, state, movieId, reward).newQ == 0.1 * reward
    ensures TdStep(rows, user, state, movieId, reward).tdError == reward
  {
  }

  /** After the update the key's row holds the new value, one more visit and the reward as last reward;
      the table keeps one row per key. */
  lemma StoredKey(rows: seq<QRow>, user: string, state: string, movieId: int, u: QUpdate)
    requires UniqueKeys(rows)
    ensures var r := Stored(rows, user, state, movieId, u);
      && UniqueKeys(r)
      && GetQValue(r, user, state, movieId) ==
         Some(QRow(user, state, movieId, u.newQ, CurrentVisits(rows, user, state, movieId) + 1, u.reward))
      && CurrentQ(r, user, state, movieId) == u.newQ
      && CurrentVisits(r, user, state, movieId) == CurrentVisits(rows, user, state, movieId) + 1
  {
    UpsertSpec(rows, user, state, movieId, u.newQ, CurrentVisits(rows, user, state, movieId) + 1, u.reward);
  }

  /** The update leaves every other key's row as it was. */
  lemma StoredOthers(rows: seq<QRow>, user: string, state: string, movieId: int, u: QUpdate,
                     user': string, state': string, movieId': int)
    requires UniqueKeys(rows)
    requires !(user' == user && state' == state && movieId' == movieId)
    ensures GetQValue(Stored(rows, user, state, movieId, u), user', state', movieId') ==
      GetQValue(rows, user', state', movieId')
  {
    UpsertKeepsOtherKeys(rows, user, state, movieId, u.newQ, CurrentVisits(rows, user, state, movieId) + 1,
                         u.reward, user', state', movieId');
  }

  // ---------------------------------------------------------------------------------------------
  // Learning from an interaction
  // ---------------------------------------------------------------------------------------------

  /** The optional context of an interaction; an absent field is empty or 0. */
  datatype LearnContext = LearnContext(genre: string, experience: string, source: string, duration: int)

  datatype LearnResult = LearnResult(stateKey: string, movieId: int, reward: real, update: QUpdate)

  /** What `learn` ends in: `null` for an unknown user, the error the interaction log's CHECK constraint
      throws for an event type outside the schema's list, or the learning result. */
  datatype LearnOutcome = UnknownUser | ConstraintError | Updated(result: LearnResult)

  function LoggedEvent(user: string, movieId: int, eventType: string, eventValue: string,
                       context: LearnContext, now: string): Interaction
  {
    Interaction(user, movieId, eventType, eventValue, context.genre, context.experience, context.source,
                context.duration, now)
  }

  /** The second half of `learn`, once the interaction is logged: encode the state from the user's
      window and update the Q-value of (state, movie) with the reward. */
  method UpdateFromWindow(db: Db, user: string, profile: Profile, movieId: int, reward: real, hour: int)
    returns (stateKey: string, update: QUpdate)
    requires db.Valid()
    modifies db`qtable
    ensures db.Valid()
    ensures stateKey == StateKey(profile, GetUserInteractions(db.log, user, RecentWindow), hour)
    ensures update == TdStep(old(db.qtable), user, stateKey, movieId, reward)
    ensures db.qtable == Stored(old(db.qtable), user, stateKey, movieId, update)
  {
    var recent := GetUserInteractions(db.log, user, RecentWindow);
    stateKey := EncodeState(profile, recent, hour);
    update := UpdateQValue(db, user, stateKey, movieId, reward);
  }

  /** `learn`: for a known user, log the interaction, reward it, encode the state from the window that now
      starts with it, and update the Q-value of (state, movie). An unknown user changes nothing, and so does
      an event type the log's CHECK constraint refuses, which throws before anything is learned. */
  method Learn(db: Db, user: string, movieId: int, eventType: string, eventValue: string,
               context: LearnContext, now: string, hour: int) returns (r: LearnOutcome)
    requires db.Valid()
    modifies db`log, db`qtable
    ensures db.Valid()
    ensures user !in db.profiles ==> r == UnknownUser && db.log == old(db.log) && db.qtable == old(db.qtable)
    ensures user in db.profiles ==> LearnedFrom(db, old(db.log), old(db.qtable), user,
                                                LoggedEvent(user, movieId, eventType, eventValue, context, now), hour, r)
  {
    if user !in db.profiles {
      return UnknownUser;
    }
    r := LogAndLearn(db, user, LoggedEvent(user, movieId, eventType, eventValue, context, now), hour);
  }

  /** The effect of `learn` for a known user and the event `e`: refused by the CHECK constraint with
      nothing changed, or logged, rewarded, and the Q-value of the state the new window encodes updated. */
  ghost predicate LearnedFrom(db: Db, log0: seq<Interaction>, qtable0: seq<QRow>, user: string, e: Interaction,
                              hour: int, r: LearnOutcome)
    requires user in db.profiles
    reads db
  {
    && (e.eventType !in EventTypes ==> r == ConstraintError && db.log == log0 && db.qtable == qtable0)
    && (e.eventType in EventTypes ==>
          && db.log == log0 + [e]
          && r.Updated? && r.result.movieId == e.movieId
          && r.result.reward == CalculateReward(e.eventType, e.eventValue)
          && r.result.stateKey == StateKey(db.profiles[user], GetUserInteractions(db.log, user, RecentWindow), hour)
          && r.result.update == TdStep(qtable0, user, r.result.stateKey, e.movieId, r.result.reward)
          && db.qtable == Stored(qtable0, user, r.result.stateKey, e.movieId, r.result.update))
  }

  /** The part of `learn` after the profile lookup: log the event, then reward it and update the Q-value. */
  method LogAndLearn(db: Db, user: string, e: Interaction, hour: int) returns (r: LearnOutcome)
    requires db.Valid() && user in db.profiles
    modifies db`log, db`qtable
    ensures db.Valid()
    ensures LearnedFrom(db, old(db.log), old(db.qtable), user, e, hour, r)
  {
    var logged := db.LogInteraction(e);
    if !logged {
      return ConstraintError;
    }
    var reward := CalculateReward(e.eventType, e.eventValue);
    var stateKey, update := UpdateFromWindow(db, user, db.profiles[user], e.movieId, reward, hour);
    r := Updated(LearnResult(stateKey, e.movieId, reward, update));
  }

  /** The event types the log accepts are exactly the rewarded ones, so every interaction `learn` gets
      past the constraint earns a non-zero reward. */
  lemma LoggedTypesAreRewarded(eventType: string, eventValue: string)
    ensures eventType in EventTypes <==> Rewarded(eventType)
    ensures eventType in EventTypes <==> CalculateReward(eventType, eventValue) != 0.0
  {
  }

  /** The interaction `learn` logs is the newest of the window its state is encoded from. */
  lemma LearnSeesNewEvent(log: seq<Interaction>, user: string, movieId: int, eventType: string,
                          eventValue: string, context: LearnContext, now: string)
    ensures var e := LoggedEvent(user, movieId, eventType, eventValue, context, now);
      var w := GetUserInteractions(log + [e], user, RecentWindow); |w| > 0 && w[0] == e
  {
    NewestFirst(log, LoggedEvent(user, movieId, eventType, eventValue, context, now), RecentWindow);
  }

  // ---------------------------------------------------------------------------------------------
  // Scoring a candidate
  // ---------------------------------------------------------------------------------------------

  datatype Source = Rl | Explore | Hybrid

  /** A scored candidate: `allReasons` lists the signals that fired, `reason` displays the first one;
      `qValue` and `visitCount` echo the learned row of the movie, if any. */
  datatype Recommendation = Recommendation(movie: Movie, score: real, source: Source, reason: string,
                                           allReasons: seq<string>, qValue: Option<real>, visitCount: nat)

  /** What the scoring reads about the user. */
  datatype Signals = Signals(
    qMap: map<int, QRow>,                  // the state's learned rows, by movie
    preferredGenres: Option<seq<string>>,  // the profile's genre list, when present and well-formed
    preferredExperience: string,
    rated: set<int>,                       // the movies the user rated
    loved: seq<int>,                       // the movies the user rated 4 or more, in rating order
    viewed: set<int>,                      // the movies the user viewed or clicked
    catalogue: seq<Movie>)                 // every movie, to look the loved ones up in

  const LearnedReason := "learned from your behavior"
  const CollaborativeReason := "similar to movies you rated highly"
  const TrendingReason := "trending and highly rated"
  const ExploreReason := "\U{1F52E} Exploring new territory for you"
  const RobotPrefix := "\U{1F916} "

  function TasteReason(shared: seq<string>): string
  {
    "matches your taste (" + Join(shared, ", ") + ")"
  }

  function VibeReason(experience: string): string
  {
    "matches your preferred vibe (" + experience + ")"
  }

  /** The state holds a row for the movie that has been visited. */
  predicate Learned(sig: Signals, m: Movie)
  {
    m.id in sig.qMap && sig.qMap[m.id].visits > 0
  }

  /** The movie's genres that the profile prefers, in the movie's order. */
  function SharedGenres(sig: Signals, m: Movie): (r: seq<string>)
    ensures forall g :: g in r <==> g in m.genres && sig.preferredGenres.Some? && g in sig.preferredGenres.value
  {
    match sig.preferredGenres
    case None => []
    case Some(preferred) => Filter(m.genres, g => g in preferred)
  }

  predicate VibeMatch(sig: Signals, m: Movie)
  {
    sig.preferredExperience != "" && m.experience == sig.preferredExperience
  }

  /** `rated` is in the catalogue, shares a genre with `m` and has its experience. */
  predicate Alike(rated: Option<Movie>, m: Movie)
  {
    rated.Some? && ContentEngine.SharesGenre(rated.value, m) && rated.value.experience == m.experience
  }

  /** Some movie the user rated 4 or more is alike `m`, and the user has not rated `m` itself. */
  predicate Collaborative(sig: Signals, m: Movie)
  {
    && (exists i :: 0 <= i < |sig.loved| && Alike(ContentEngine.FindById(sig.catalogue, sig.loved[i]), m))
    && m.id !in sig.rated
  }

  /** The quality baseline: 0.3 of the popularity plus 0.3 of the rating fraction. */
  function Baseline(m: Movie): real
  {
    m.popularity * 0.3 + m.ratingPercent as real / 100.0 * 0.3
  }

  /** The blended score: three times the learned value, 0.8 per shared genre, 0.6 for the experience,
      1.2 for resembling a loved movie, the baseline, 0.2 for novelty and −0.5 for a rated movie. Without a
      negative learned value no candidate scores below its baseline less the rated penalty. */
  function Score(sig: Signals, m: Movie): (r: real)
    ensures (Learned(sig, m) ==> sig.qMap[m.id].qValue >= 0.0) ==> r >= Baseline(m) - 0.5
  {
    (if Learned(sig, m) then sig.qMap[m.id].qValue * 3.0 else 0.0)
    + |SharedGenres(sig, m)| as real * 0.8
    + (if VibeMatch(sig, m) then 0.6 else 0.0)
    + (if Collaborative(sig, m) then 1.2 else 0.0)
    + Baseline(m)
    + (if m.id !in sig.viewed then 0.2 else 0.0)
    - (if m.id in sig.rated then 0.5 else 0.0)
  }

  /** The reasons that fired, in the order the signals are checked, or the trending reason alone. */
  function Reasons(sig: Signals, m: Movie): (r: seq<string>)
    ensures r != []
  {
    var shared := SharedGenres(sig, m);
    var fired := (if Learned(sig, m) then [LearnedReason] else [])
      + (if |shared| > 0 then [TasteReason(shared)] else [])
      + (if VibeMatch(sig, m) then [VibeReason(m.experience)] else [])
      + (if Collaborative(sig, m) then [CollaborativeReason] else []);
    if fired == [] then [TrendingReason] else fired
  }

  /** The scoring callback of `getRecommendations`. A candidate is marked learned exactly when its state
      has a visited row, which then heads its reasons; it falls back to the trending reason exactly when no
      signal fired; the displayed reason is the first one, capitalised behind the robot prefix. */
  function ScoreCandidate(sig: Signals, m: Movie): (r: Recommendation)
    ensures r.movie == m && r.score == Score(sig, m)
    ensures r.source == Rl <==> Learned(sig, m)
    ensures r.allReasons != [] && (r.allReasons[0] == LearnedReason <==> Learned(sig, m))
    ensures r.allReasons == [TrendingReason] <==>
      !Learned(sig, m) && |SharedGenres(sig, m)| == 0 && !VibeMatch(sig, m) && !Collaborative(sig, m)
    ensures r.reason == RobotPrefix + Capitalize(r.allReasons[0])
    ensures r.qValue.Some? <==> m.id in sig.qMap
  {
    var shared := SharedGenres(sig, m);
    assert TasteReason(shared)[0] == 'm' && VibeReason(m.experience)[0] == 'm';
    assert LearnedReason[0] == 'l' && CollaborativeReason[0] == 's' && TrendingReason[0] == 't';
    var reasons := Reasons(sig, m);
    var row := if m.id in sig.qMap then Some(sig.qMap[m.id]) else None;
    Recommendation(m, Score(sig, m), if Learned(sig, m) then Rl else Hybrid, RobotPrefix + Capitalize(reasons[0]),
                   reasons, if row.Some? then Some(row.value.qValue) else None, if row.Some? then row.value.visits else 0)
  }

  /** Each unit of learned value is worth three points of score. */
  lemma LearnedValueScales(sig: Signals, m: Movie, q: real)
    requires Learned(sig, m)
    ensures var sig' := sig.(qMap := sig.qMap[m.id := sig.qMap[m.id].(qValue := q)]);
      Score(sig', m) - Score(sig, m) == 3.0 * (q - sig.qMap[m.id].qValue)
  {
  }

  /** Rating a movie costs it at least half a point: the rated penalty, and the collaborative bonus
      no longer applies. */
  lemma RatingLowersScore(sig: Signals, m: Movie)
    requires m.id !in sig.rated
    ensures Score(sig.(rated := sig.rated + {m.id}), m) <= Score(sig, m) - 0.5
  {
  }

  /** A row that was never visited contributes nothing to the score and does not make the pick learned,
      though its value is reported. */
  lemma StaleRowIgnored(sig: Signals, m: Movie)
    requires m.id in sig.qMap && sig.qMap[m.id].visits == 0
    ensures ScoreCandidate(sig, m).score == Score(sig.(qMap := sig.qMap - {m.id}), m)
    ensures ScoreCandidate(sig, m).source == Hybrid
    ensures ScoreCandidate(sig, m).qValue == Some(sig.qMap[m.id].qValue)
  {
  }

  // ---------------------------------------------------------------------------------------------
  // What the recommender reads
  // ---------------------------------------------------------------------------------------------

  function Pow(b: real, n: nat): real
  {
    if n == 0 then 1.0 else b * Pow(b, n - 1)
  }

  /** A power of a base in [0, 1] stays in [0, 1] and shrinks as the exponent grows. */
  lemma {:induction false} PowUnit(b: real, n: nat)
    requires 0.0 <= b <= 1.0
    ensures 0.0 <= Pow(b, n + 1) <= Pow(b, n) <= 1.0
  {
    if n > 0 {
      PowUnit(b, n - 1);
    }
    var x := Pow(b, n);
    assert 0.0 <= x <= 1.0;
    assert 0.0 <= b * x by {
      MulNonNegative(b, x);
    }
    assert x - b * x == (1.0 - b) * x;
    MulNonNegative(1.0 - b, x);
  }

  lemma MulNonNegative(a: real, b: real)
    requires 0.0 <= a && 0.0 <= b
    ensures 0.0 <= a * b
  {
  }

  lemma {:induction false} PowAntitone(b: real, m: nat, n: nat)
    requires 0.0 <= b <= 1.0 && m <= n
    ensures Pow(b, n) <= Pow(b, m)
    decreases n - m
  {
    if m < n {
      PowUnit(b, m);
      PowAntitone(b, m + 1, n);
    }
  }

  /** `max(ε_min, ε · decay^visits)`. */
  function AdaptiveEpsilon(totalVisits: nat): (e: real)
    ensures EpsilonMin <= e <= Epsilon
  {
    var decayed := Epsilon * Pow(EpsilonDecay, totalVisits);
    assert decayed <= Epsilon by {
      PowUnit(EpsilonDecay, totalVisits);
    }
    if EpsilonMin >= decayed then EpsilonMin else decayed
  }

  /** The more the state's rows were visited, the less the recommender explores. */
  lemma EpsilonDecreasing(a: nat, b: nat)
    requires a <= b
    ensures AdaptiveEpsilon(b) <= AdaptiveEpsilon(a)
  {
    PowAntitone(EpsilonDecay, a, b);
  }

  /** The total visit count of the learned rows (`reduce((sum, v) => sum + v.visit_count, 0)`). */
  function SumVisits(rows: seq<QRow>): nat
  {
    if rows == [] then 0 else SumVisits(rows[..|rows| - 1]) + rows[|rows| - 1].visits
  }

  /** The map `forEach(v => qMap.set(v.movie_id, v))` builds: a later row of a movie replaces an earlier one. */
  function QMapOf(rows: seq<QRow>): map<int, QRow>
  {
    if rows == [] then map[] else QMapOf(rows[..|rows| - 1])[rows[|rows| - 1].movieId := rows[|rows| - 1]]
  }

  /** The map has a key for each movie of the rows, and maps it to one of its rows. */
  lemma {:induction false} QMapOfSpec(rows: seq<QRow>)
    ensures forall id :: id in QMapOf(rows) <==> exists row :: row in rows && row.movieId == id
    ensures forall id :: id in QMapOf(rows) ==> QMapOf(rows)[id] in rows && QMapOf(rows)[id].movieId == id
  {
    if rows != [] {
      var init := rows[..|rows| - 1];
      QMapOfSpec(init);
      assert rows == init + [rows[|rows| - 1]];
    }
  }

  /** The learned row the recommender sees for a movie is the one the table stores for the key. */
  lemma QMapHoldsStoredRow(rows: seq<QRow>, user: string, state: string, id: int)
    requires UniqueKeys(rows)
    ensures var qMap := QMapOf(GetTopQValues(rows, user, state, 100));
      id in qMap ==> Some(qMap[id]) == GetQValue(rows, user, state, id)
  {
    var top := GetTopQValues(rows, user, state, 100);
    QMapOfSpec(top);
    var qMap := QMapOf(top);
    if id in qMap {
      UniqueLookup(rows, qMap[id], user, state, id);
    }
  }

  /** The `qMap` loop. */
  method BuildQMap(learned: seq<QRow>) returns (qMap: map<int, QRow>)
    ensures qMap == QMapOf(learned)
  {
    qMap := map[];
    for i := 0 to |learned|
      invariant qMap == QMapOf(learned[..i])
    {
      assert learned[..i + 1][..i] == learned[..i];
      qMap := qMap[learned[i].movieId := learned[i]];
    }
    assert learned[..|learned|] == learned;
  }

  predicate ViewOrClickGroup(group: ((int, string), nat))
  {
    group.0.1 == "view" || group.0.1 == "click"
  }

  /** The movies of the view and click groups. */
  function ViewedSet(counts: seq<((int, string), nat)>): set<int>
  {
    set i | 0 <= i < |counts| && ViewOrClickGroup(counts[i]) :: counts[i].0.0
  }

  /** The `viewedMovies` loop over the user's interaction counts. */
  method ViewedMovies(counts: seq<((int, string), nat)>) returns (viewed: set<int>)
    ensures viewed == ViewedSet(counts)
  {
    viewed := {};
    for i := 0 to |counts|
      invariant viewed == ViewedSet(counts[..i])
    {
      assert forall j :: 0 <= j < i ==> counts[..i + 1][j] == counts[..i][j];
      if counts[i].0.1 == "view" || counts[i].0.1 == "click" {
        viewed := viewed + {counts[i].0.0};
      }
    }
    assert counts[..|counts|] == counts;
  }

  /** A movie counts as viewed exactly when the user viewed or clicked it. */
  lemma ViewedIff(log: seq<Interaction>, user: string, id: int)
    ensures id in ViewedSet(GetMovieInteractionCounts(log, user)) <==>
      exists e :: e in log && e.user == user && IsViewOrClick(e) && e.movieId == id
  {
    var pairs := MovieEventPairs(log, user);
    var counts := GetMovieInteractionCounts(log, user);
    if exists e :: e in log && e.user == user && IsViewOrClick(e) && e.movieId == id {
      var e :| e in log && e.user == user && IsViewOrClick(e) && e.movieId == id;
      assert (e.movieId, e.eventType) in pairs;
      var i :| 0 <= i < |counts| && counts[i].0 == (e.movieId, e.eventType);
      assert ViewOrClickGroup(counts[i]);
    }
    if id in ViewedSet(counts) {
      var i :| 0 <= i < |counts| && ViewOrClickGroup(counts[i]) && counts[i].0.0 == id;
      assert counts[i].0 in pairs;
    }
  }

  function RatedIds(ratings: seq<RatingRow>): set<int>
  {
    set i | 0 <= i < |ratings| :: ratings[i].movieId
  }

  /** The movies rated 4 or more, in rating order. */
  function LovedIds(ratings: seq<RatingRow>): (r: seq<int>)
    ensures forall id :: id in r <==> exists x :: x in ratings && x.rating >= 4 && x.movieId == id
  {
    var loved := Filter(ratings, (x: RatingRow) => x.rating >= 4);
    var r := seq(|loved|, i requires 0 <= i < |loved| => loved[i].movieId);
    assert forall x :: x in loved ==> x.movieId in r by {
      forall x | x in loved ensures x.movieId in r {
        var i :| 0 <= i < |loved| && loved[i] == x;
        assert r[i] == x.movieId;
      }
    }
    r
  }

  /** `userProfile.age || 99`: a missing or zero age lifts the age limit. */
  function UserAge(profile: Profile): int
  {
    if profile.age.Some? && profile.age.value != 0 then profile.age.value else 99
  }

  /** The state the recommender encodes for the user at `hour`. */
  function CurrentState(db: Db, user: string, profile: Profile, hour: int): string
    reads db
  {
    StateKey(profile, GetUserInteractions(db.log, user, RecentWindow), hour)
  }

  /** The learned rows of the state (`getTopQValues(user, state, 100)`). */
  function LearnedValues(db: Db, user: string, profile: Profile, hour: int): seq<QRow>
    reads db
  {
    GetTopQValues(db.qtable, user, CurrentState(db, user, profile, hour), 100)
  }

  function UserSignals(db: Db, user: string, profile: Profile, allMovies: seq<Movie>, hour: int): Signals
    reads db
  {
    var ratings := GetUserRatings(db.ratings, user);
    Signals(QMapOf(LearnedValues(db, user, profile, hour)), profile.preferredGenres, profile.preferredExperience,
            RatedIds(ratings), LovedIds(ratings), ViewedSet(GetMovieInteractionCounts(db.log, user)), allMovies)
  }

  // ---------------------------------------------------------------------------------------------
  // Epsilon-greedy selection
  // ---------------------------------------------------------------------------------------------

  /** A candidate by its position in `scored`, with its score. Positions stand for the candidate objects,
      which the selection compares by identity. */
  datatype Slot = Slot(index: nat, score: real)

  /** Higher score first, as the comparator `(a, b) => b.score - a.score` orders. */
  predicate ByScore(a: Slot, b: Slot)
  {
    a.score >= b.score
  }

  function Slots(scored: seq<Recommendation>): (r: seq<Slot>)
    ensures |r| == |scored|
    ensures forall i :: 0 <= i < |r| ==> r[i] == Slot(i, scored[i].score)
  {
    seq(|scored|, i requires 0 <= i < |scored| => Slot(i, scored[i].score))
  }

  /** `sortedByScore`: the candidates by descending score, ties in candidate order. */
  function Ranking(scored: seq<Recommendation>): seq<Slot>
  {
    Sort(Slots(scored), ByScore)
  }

  function Indices(slots: seq<Slot>): (r: seq<nat>)
    ensures |r| == |slots|
  {
    seq(|slots|, i requires 0 <= i < |slots| => slots[i].index)
  }

  /** The ranking lists every candidate once, highest score first. */
  lemma RankingSpec(scored: seq<Recommendation>)
    ensures var ranking := Ranking(scored);
      && |ranking| == |scored|
      && SortedBy(ranking, ByScore)
      && (forall j :: 0 <= j < |ranking| ==>
            ranking[j].index < |scored| && ranking[j].score == scored[ranking[j].index].score)
      && NoDuplicates(Indices(ranking))
  {
    var slots := Slots(scored);
    var ranking := Ranking(scored);
    SortSorted(slots, ByScore);
    assert forall j :: 0 <= j < |ranking| ==> ranking[j] in multiset(slots);
    assert NoDuplicates(slots);
    PermutationKeepsNoDuplicates(slots, ranking);
    forall i, j | 0 <= i < j < |ranking| ensures ranking[i].index != ranking[j].index {
      assert ranking[i] in multiset(slots) && ranking[j] in multiset(slots);
    }
  }

  /** `sortedByScore.find(s => !results.includes(s))`. */
  function FirstUnpicked(ranking: seq<Slot>, picks: seq<nat>): (r: Option<nat>)
    ensures r.Some? ==> r.value !in picks && exists j :: 0 <= j < |ranking| && ranking[j].index == r.value
    ensures |ranking| > 0 && picks == [] ==> r.Some?
  {
    if ranking == [] then None
    else if ranking[0].index !in picks then Some(ranking[0].index)
    else
      var r := FirstUnpicked(ranking[1..], picks);
      assert r.Some? ==> exists j :: 0 <= j < |ranking[1..]| && ranking[1..][j].index == r.value;
      r
  }

  /** When the leading `i` entries are picked and the next is not, the next is found. */
  lemma {:induction false} FirstUnpickedNext(ranking: seq<Slot>, picks: seq<nat>, i: nat)
    requires i < |ranking| && ranking[i].index !in picks
    requires forall j :: 0 <= j < i ==> ranking[j].index in picks
    ensures FirstUnpicked(ranking, picks) == Some(ranking[i].index)
  {
    if i > 0 {
      FirstUnpickedNext(ranking[1..], picks, i - 1);
    }
  }

  /** `Math.min(n, 30)`. */
  function ExploreWindow(n: nat): (m: nat)
    ensures m <= n && m <= 30 && (n > 0 ==> m > 0)
  {
    if n < 30 then n else 30
  }

  /** `Math.floor(d * Math.min(n, 30))`: the explored candidate is among the first thirty left. */
  function ExploreIndex(d: real, n: nat): (k: nat)
    requires 0.0 <= d < 1.0 && n > 0
    ensures k < n && k < 30
  {
    FloorScaled(d, ExploreWindow(n));
    (d * ExploreWindow(n) as real).Floor
  }

  lemma FloorScaled(d: real, m: nat)
    requires 0.0 <= d < 1.0 && m > 0
    ensures 0 <= (d * m as real).Floor < m
  {
    ScaleBelow(d, m as real);
    FloorBelow(d * m as real, m);
  }

  lemma ScaleBelow(d: real, m: real)
    requires 0.0 <= d < 1.0 && m > 0.0
    ensures 0.0 <= d * m < m
  {
    MulNonNegative(d, m);
    assert m - d * m == (1.0 - d) * m;
  }

  lemma FloorBelow(x: real, m: nat)
    requires 0.0 <= x < m as real
    ensures 0 <= x.Floor < m
  {
  }

  /** Every draw falls at or above epsilon, so every round exploits. */
  predicate NeverExplores(draws: seq<real>, epsilon: real)
  {
    forall i :: 0 <= i < |draws| ==> draws[i] >= epsilon
  }

  /** Positions `0 .. n - 1`, the candidates not yet spliced out before the first round. */
  function Positions(n: nat): (r: seq<nat>)
    ensures |r| == n && forall j :: 0 <= j < n ==> r[j] == j
  {
    seq(n, j requires 0 <= j < n => j)
  }

  /** `scored.splice(randIdx, 1)[0]` with `randIdx` drawn from `d`: remove and return a remaining candidate. */
  method SpliceOut(pool: seq<nat>, d: real, ghost n: nat) returns (rest: seq<nat>, pick: nat)
    requires 0.0 <= d < 1.0 && |pool| > 0
    requires forall j :: 0 <= j < |pool| ==> pool[j] < n
    ensures pick == pool[ExploreIndex(d, |pool|)]
    ensures rest == pool[..ExploreIndex(d, |pool|)] + pool[ExploreIndex(d, |pool|) + 1..]
    ensures pick < n && forall j :: 0 <= j < |rest| ==> rest[j] < n
  {
    var randIdx := ExploreIndex(d, |pool|);
    pick := pool[randIdx];
    rest := pool[..randIdx] + pool[randIdx + 1..];
    assert forall j :: 0 <= j < |rest| ==> rest[j] == if j < randIdx then pool[j] else pool[j + 1];
  }

  /** In a round that exploits while every earlier round did, the next-ranked candidate is picked. */
  lemma GreedyStep(ranking: seq<Slot>, picks: seq<nat>, i: nat)
    requires NoDuplicates(Indices(ranking)) && i < |ranking| && picks == Indices(ranking[..i])
    ensures FirstUnpicked(ranking, picks) == Some(ranking[i].index)
    ensures Indices(ranking[..i + 1]) == picks + [ranking[i].index]
  {
    forall j | 0 <= j < i ensures ranking[j].index in picks {
      assert picks[j] == ranking[j].index;
    }
    assert ranking[i].index !in picks by {
      assert Indices(ranking)[i] == ranking[i].index;
      forall j | 0 <= j < i ensures picks[j] != ranking[i].index {
        assert picks[j] == Indices(ranking)[j];
      }
    }
    FirstUnpickedNext(ranking, picks, i);
    assert Indices(ranking[..i + 1]) == Indices(ranking[..i]) + [ranking[i].index];
  }

  /** What `FirstUnpicked` returns is a position of the ranking. */
  lemma FirstUnpickedBound(ranking: seq<Slot>, picks: seq<nat>, n: nat)
    requires forall j :: 0 <= j < |ranking| ==> ranking[j].index < n
    ensures FirstUnpicked(ranking, picks).Some? ==> FirstUnpicked(ranking, picks).value < n
  {
  }

  /** The state of the draw loop between rounds: the positions still in `scored` (the explore rounds splice
      theirs out), the picks so far in order, the picks marked explored, and how many draws are used. */
  datatype Selection = Selection(pool: seq<nat>, picks: seq<nat>, explored: set<nat>, used: nat)

  /** The positions left and picked are positions of `scored`, and every explored one is picked. */
  ghost predicate WithinSlots(s: Selection, n: nat)
  {
    && (forall j :: 0 <= j < |s.pool| ==> s.pool[j] < n)
    && (forall j :: 0 <= j < |s.picks| ==> s.picks[j] < n)
    && (forall p :: p in s.explored ==> p in s.picks)
  }

  /** One round of the draw loop. A draw below `epsilon`, with candidates left in `scored`, explores: a
      second draw chooses one of the first thirty left, which is spliced out, picked and marked explored,
      whether or not an earlier round already picked it. Otherwise the round exploits: it picks the
      best-ranked candidate not picked yet, if any. A round adds at most one pick, keeps the earlier ones
      and their marks, and the first round over a non-empty ranking always picks. */
  function Round(ranking: seq<Slot>, epsilon: real, draws: seq<real>, s: Selection): (t: Selection)
    requires s.used + 2 <= |draws|
    requires forall i :: 0 <= i < |draws| ==> 0.0 <= draws[i] < 1.0
    ensures s.used < t.used <= s.used + 2
    ensures |s.picks| <= |t.picks| <= |s.picks| + 1 && t.picks[..|s.picks|] == s.picks
    ensures s.explored <= t.explored
    ensures |ranking| > 0 && s.picks == [] ==> |t.picks| == 1
    ensures (forall j :: 0 <= j < |ranking| ==> ranking[j].index < |ranking|) && WithinSlots(s, |ranking|) ==>
      WithinSlots(t, |ranking|)
  {
    if draws[s.used] < epsilon && |s.pool| > 0 then
      var k := ExploreIndex(draws[s.used + 1], |s.pool|);
      var t := Selection(s.pool[..k] + s.pool[k + 1..], s.picks + [s.pool[k]], s.explored + {s.pool[k]}, s.used + 2);
      assert forall j :: 0 <= j < |t.pool| ==> t.pool[j] == if j < k then s.pool[j] else s.pool[j + 1];
      t
    else if |ranking| > 0 && FirstUnpicked(ranking, s.picks).Some? then
      s.(picks := s.picks + [FirstUnpicked(ranking, s.picks).value], used := s.used + 1)
    else
      s.(used := s.used + 1)
  }

  /** `n` rounds of the draw loop from `s`. */
  function Rounds(ranking: seq<Slot>, epsilon: real, draws: seq<real>, s: Selection, n: nat): Selection
    requires s.used + 2 * n <= |draws|
    requires forall i :: 0 <= i < |draws| ==> 0.0 <= draws[i] < 1.0
    decreases n
  {
    if n == 0 then s else Rounds(ranking, epsilon, draws, Round(ranking, epsilon, draws, s), n - 1)
  }

  /** `totalCount = Math.min(count, scored.length)`, as the number of times the loop runs. */
  function RoundCount(count: int, n: nat): (r: nat)
    ensures r <= n && (count >= 0 ==> r <= count) && (count <= 0 ==> r == 0)
    ensures count > 0 && n > 0 ==> r > 0
  {
    if count <= 0 then 0 else if count < n then count else n
  }

  function Start(n: nat): Selection
  {
    Selection(Positions(n), [], {}, 0)
  }

  /** What the draw loop of `getRecommendations` ends with: `RoundCount` rounds from all positions of
      `scored`, nothing picked and no draw used. */
  function Selected(scored: seq<Recommendation>, count: int, epsilon: real, draws: seq<real>): Selection
    requires |draws| >= 2 * count
    requires forall i :: 0 <= i < |draws| ==> 0.0 <= draws[i] < 1.0
  {
    Rounds(Ranking(scored), epsilon, draws, Start(|scored|), RoundCount(count, |scored|))
  }

  /** Running `n + 1` rounds is running `n` and then one more; `n` rounds use at most `2 * n` draws. */
  lemma {:induction false} RoundsSnoc(ranking: seq<Slot>, epsilon: real, draws: seq<real>, s: Selection, n: nat)
    requires s.used + 2 * (n + 1) <= |draws|
    requires forall i :: 0 <= i < |draws| ==> 0.0 <= draws[i] < 1.0
    ensures Rounds(ranking, epsilon, draws, s, n).used <= s.used + 2 * n
    ensures Rounds(ranking, epsilon, draws, s, n + 1) == Round(ranking, epsilon, draws, Rounds(ranking, epsilon, draws, s, n))
    decreases n
  {
    if n > 0 {
      RoundsSnoc(ranking, epsilon, draws, Round(ranking, epsilon, draws, s), n - 1);
    }
  }

  /** One pass of the draw loop's body, on the loop's variables: it takes the `Round` step. */
  method DrawRound(ranking: seq<Slot>, epsilon: real, draws: seq<real>, pool: seq<nat>, picks: seq<nat>,
                   explored: set<nat>, used: nat)
    returns (pool': seq<nat>, picks': seq<nat>, explored': set<nat>, used': nat)
    requires used + 2 <= |draws|
    requires forall i :: 0 <= i < |draws| ==> 0.0 <= draws[i] < 1.0
    ensures Selection(pool', picks', explored', used')
         == Round(ranking, epsilon, draws, Selection(pool, picks, explored, used))
  {
    pool', picks', explored', used' := pool, picks, explored, used + 1;
    if draws[used] < epsilon && |pool| > 0 {
      var randIdx := ExploreIndex(draws[used + 1], |pool|);
      var pick := pool[randIdx];
      pool' := pool[..randIdx] + pool[randIdx + 1..];
      used' := used + 2;
      explored' := explored + {pick};
      picks' := picks + [pick];
    } else if |ranking| > 0 {
      var pick := FirstUnpicked(ranking, picks);
      if pick.Some? {
        picks' := picks + [pick.value];
      }
    }
  }

  /** The draw loop of `getRecommendations`, on candidate positions: it ends in the `Selected` picks and
      explored marks. */
  method SelectSlots(scored: seq<Recommendation>, count: int, epsilon: real, draws: seq<real>)
    returns (picks: seq<nat>, explored: set<nat>)
    requires |draws| >= 2 * count
    requires forall i :: 0 <= i < |draws| ==> 0.0 <= draws[i] < 1.0
    ensures picks == Selected(scored, count, epsilon, draws).picks
    ensures explored == Selected(scored, count, epsilon, draws).explored
  {
    var totalCount := RoundCount(count, |scored|);
    picks, explored := DrawRounds(Ranking(scored), epsilon, draws, Positions(|scored|), totalCount);
  }

  /** `totalCount` passes of the draw loop over `ranking`, from the positions `pool` with nothing picked. */
  method DrawRounds(ranking: seq<Slot>, epsilon: real, draws: seq<real>, pool: seq<nat>, totalCount: nat)
    returns (picks: seq<nat>, explored: set<nat>)
    requires 2 * totalCount <= |draws|
    requires forall i :: 0 <= i < |draws| ==> 0.0 <= draws[i] < 1.0
    ensures picks == Rounds(ranking, epsilon, draws, Selection(pool, [], {}, 0), totalCount).picks
    ensures explored == Rounds(ranking, epsilon, draws, Selection(pool, [], {}, 0), totalCount).explored
  {
    ghost var start := Selection(pool, [], {}, 0);
    var left := pool;
    picks, explored := [], {};
    var k: nat := 0;
    for i := 0 to totalCount
      invariant Selection(left, picks, explored, k) == Rounds(ranking, epsilon, draws, start, i)
    {
      RoundsSnoc(ranking, epsilon, draws, start, i);
      left, picks, explored, k := DrawRound(ranking, epsilon, draws, left, picks, explored, k);
    }
  }

  /** Rounds only add picks and marks, at most one pick each, and keep them positions of `scored`. */
  lemma {:induction false} RoundsGrow(ranking: seq<Slot>, epsilon: real, draws: seq<real>, s: Selection, n: nat)
    requires s.used + 2 * n <= |draws|
    requires forall i :: 0 <= i < |draws| ==> 0.0 <= draws[i] < 1.0
    requires forall j :: 0 <= j < |ranking| ==> ranking[j].index < |ranking|
    requires WithinSlots(s, |ranking|)
    decreases n
    ensures var t := Rounds(ranking, epsilon, draws, s, n);
      && |s.picks| <= |t.picks| <= |s.picks| + n && t.picks[..|s.picks|] == s.picks
      && s.explored <= t.explored
      && WithinSlots(t, |ranking|)
      && (|ranking| > 0 && n > 0 ==> |t.picks| > 0)
  {
    if n > 0 {
      var s' := Round(ranking, epsilon, draws, s);
      RoundsGrow(ranking, epsilon, draws, s', n - 1);
      var t := Rounds(ranking, epsilon, draws, s', n - 1);
      assert Rounds(ranking, epsilon, draws, s, n) == t;
      assert t.picks[..|s.picks|] == s.picks by {
        assert t.picks[..|s.picks|] == t.picks[..|s'.picks|][..|s.picks|];
      }
    }
  }

  /** The picks are positions of `scored`, at most one per round, every explored one among them, and the
      loop picks something whenever it runs over candidates. */
  lemma SelectedBounds(scored: seq<Recommendation>, count: int, epsilon: real, draws: seq<real>)
    requires |draws| >= 2 * count
    requires forall i :: 0 <= i < |draws| ==> 0.0 <= draws[i] < 1.0
    ensures var sel := Selected(scored, count, epsilon, draws);
      && |sel.picks| <= RoundCount(count, |scored|)
      && (forall j :: 0 <= j < |sel.picks| ==> sel.picks[j] < |scored|)
      && (forall p :: p in sel.explored ==> p in sel.picks)
      && (count > 0 && |scored| > 0 ==> |sel.picks| > 0)
  {
    RankingSpec(scored);
    RoundsGrow(Ranking(scored), epsilon, draws, Start(|scored|), RoundCount(count, |scored|));
  }

  /** While no draw falls below epsilon, each round picks the next-ranked candidate. */
  lemma {:induction false} GreedyRounds(ranking: seq<Slot>, epsilon: real, draws: seq<real>, pool: seq<nat>,
                                        i: nat, n: nat)
    requires GreedyRun(ranking, epsilon, draws, i, n)
    decreases n
    ensures Rounds(ranking, epsilon, draws, Selection(pool, Indices(ranking[..i]), {}, i), n)
         == Selection(pool, Indices(ranking[..i + n]), {}, i + n)
  {
    if n > 0 {
      GreedyRound(ranking, epsilon, draws, pool, i);
      GreedyRounds(ranking, epsilon, draws, pool, i + 1, n - 1);
    }
  }

  /** `n` more rounds, after the leading `i` of the ranking are picked, with draws to spare, ranked candidates
      to spare, no draw below epsilon and no candidate ranked twice. */
  ghost predicate GreedyRun(ranking: seq<Slot>, epsilon: real, draws: seq<real>, i: nat, n: nat)
  {
    && i + 2 * n <= |draws| && i + n <= |ranking|
    && (forall d :: 0 <= d < |draws| ==> 0.0 <= draws[d] < 1.0)
    && NeverExplores(draws, epsilon) && NoDuplicates(Indices(ranking))
  }

  /** A round whose first draw is not below epsilon, after the leading `i` of the ranking are picked,
      picks the next one. */
  lemma GreedyRound(ranking: seq<Slot>, epsilon: real, draws: seq<real>, pool: seq<nat>, i: nat)
    requires i + 2 <= |draws| && i < |ranking|
    requires forall d :: 0 <= d < |draws| ==> 0.0 <= draws[d] < 1.0
    requires draws[i] >= epsilon && NoDuplicates(Indices(ranking))
    ensures Round(ranking, epsilon, draws, Selection(pool, Indices(ranking[..i]), {}, i))
         == Selection(pool, Indices(ranking[..i + 1]), {}, i + 1)
  {
    GreedyStep(ranking, Indices(ranking[..i]), i);
  }

  /** Never drawing below epsilon, the loop picks the top `min(count, scored.length)` of the ranking and
      explores nothing. */
  lemma GreedySelection(scored: seq<Recommendation>, count: int, epsilon: real, draws: seq<real>)
    requires |draws| >= 2 * count
    requires forall i :: 0 <= i < |draws| ==> 0.0 <= draws[i] < 1.0
    requires NeverExplores(draws, epsilon)
    ensures var sel := Selected(scored, count, epsilon, draws);
      sel.explored == {} && sel.picks == Indices(Ranking(scored)[..RoundCount(count, |scored|)])
  {
    RankingSpec(scored);
    assert Indices(Ranking(scored)[..0]) == [];
    GreedyRounds(Ranking(scored), epsilon, draws, Positions(|scored|), 0, RoundCount(count, |scored|));
  }

  /** A first draw below epsilon explores: the first pick is the candidate the second draw chooses among
      the first thirty of `scored`, and it is shown as explored. */
  lemma FirstRoundExplores(scored: seq<Recommendation>, count: int, epsilon: real, draws: seq<real>)
    requires |draws| >= 2 * count
    requires forall i :: 0 <= i < |draws| ==> 0.0 <= draws[i] < 1.0
    requires count > 0 && |scored| > 0 && draws[0] < epsilon
    ensures var sel := Selected(scored, count, epsilon, draws);
      |sel.picks| > 0 && sel.picks[0] == ExploreIndex(draws[1], |scored|) && sel.picks[0] in sel.explored
  {
    var ranking := Ranking(scored);
    RankingSpec(scored);
    var s1 := Round(ranking, epsilon, draws, Start(|scored|));
    var p := ExploreIndex(draws[1], |scored|);
    assert s1.picks == [p] && p in s1.explored;
    RoundsGrow(ranking, epsilon, draws, s1, RoundCount(count, |scored|) - 1);
  }

  /** Where `FirstUnpicked` finds its candidate: every position ranked ahead of it is picked already. */
  lemma {:induction false} FirstUnpickedAt(ranking: seq<Slot>, picks: seq<nat>) returns (j: nat)
    requires FirstUnpicked(ranking, picks).Some?
    ensures j < |ranking| && ranking[j].index == FirstUnpicked(ranking, picks).value
    ensures forall i :: 0 <= i < j ==> ranking[i].index in picks
  {
    if ranking[0].index !in picks {
      j := 0;
    } else {
      var j' := FirstUnpickedAt(ranking[1..], picks);
      j := j' + 1;
    }
  }

  /** An exploiting round picks the best-scoring candidate not picked yet: no unpicked candidate scores
      higher. */
  lemma ExploitPicksBest(scored: seq<Recommendation>, picks: seq<nat>, p: nat)
    requires FirstUnpicked(Ranking(scored), picks).Some?
    requires p < |scored| && p !in picks
    ensures var q := FirstUnpicked(Ranking(scored), picks).value;
      q < |scored| && q !in picks && scored[q].score >= scored[p].score
  {
    var ranking := Ranking(scored);
    RankingSpec(scored);
    var j := FirstUnpickedAt(ranking, picks);
    var slot := Slot(p, scored[p].score);
    assert slot in multiset(Slots(scored));
    var i :| 0 <= i < |ranking| && ranking[i] == slot;
    assert ranking[i].index !in picks;
    assert ByScore(ranking[j], ranking[i]);
  }

  /** Exploring can pick again a candidate an earlier round exploited, since exploited candidates stay in
      `scored`; the de-duplication then drops the repeat and fewer than `min(count, scored.length)`
      recommendations come back. With two candidates, the better one first, and `count` 2: the first draw
      exploits the better one, the second explores the first of `scored`, which is the same one. */
  lemma ExploreRepeatsExploit(scored: seq<Recommendation>, epsilon: real)
    requires |scored| == 2 && scored[0].score >= scored[1].score
    requires 0.0 < epsilon <= 0.5
    ensures var draws := [0.5, 0.0, 0.0, 0.0];
      var sel := Selected(scored, 2, epsilon, draws);
      && sel.picks == [0, 0] && sel.explored == {0}
      && |SliceTo(FirstById(Shown(scored, sel.picks, sel.explored)), 2)| == 1 < RoundCount(2, |scored|)
  {
    var draws := [0.5, 0.0, 0.0, 0.0];
    var ranking := Ranking(scored);
    assert ByScore(Slots(scored)[0], Slots(scored)[1]);
    var head := SortHead(Slots(scored), ByScore);
    assert ranking[0].index == 0;
    var s0 := Start(2);
    var s1 := Round(ranking, epsilon, draws, s0);
    assert s1 == Selection(Positions(2), [0], {}, 1);
    var k := ExploreIndex(draws[2], 2);
    assert k == 0;
    var s2 := Round(ranking, epsilon, draws, s1);
    assert s2.picks == [0, 0] && s2.explored == {0};
    assert Selected(scored, 2, epsilon, draws) == Rounds(ranking, epsilon, draws, s1, 1);
    var shown := Shown(scored, [0, 0], {0});
    assert shown == [AsExplored(scored[0]), AsExplored(scored[0])];
    assert shown[..1] == [AsExplored(scored[0])];
    assert FirstById(shown[..1]) == [AsExplored(scored[0])];
  }

  /** The explore branch's edit of the candidate object. */
  function AsExplored(rec: Recommendation): Recommendation
  {
    rec.(reason := ExploreReason, source := Explore)
  }

  /** The `results` array: each round's candidate, as edited when it was ever explored, since the edit is
      made on the one object all rounds share. */
  function Shown(scored: seq<Recommendation>, picks: seq<nat>, explored: set<nat>): (r: seq<Recommendation>)
    requires forall j :: 0 <= j < |picks| ==> picks[j] < |scored|
    ensures |r| == |picks|
  {
    seq(|picks|, j requires 0 <= j < |picks| =>
      if picks[j] in explored then AsExplored(scored[picks[j]]) else scored[picks[j]])
  }

  function MovieIds(recs: seq<Recommendation>): (r: seq<int>)
    ensures |r| == |recs| && forall i :: 0 <= i < |recs| ==> r[i] == recs[i].movie.id
  {
    seq(|recs|, i requires 0 <= i < |recs| => recs[i].movie.id)
  }

  /** The first recommendation of each movie, in order: what the `seen` filter keeps. */
  function FirstById(recs: seq<Recommendation>): (r: seq<Recommendation>)
    ensures |r| <= |recs|
    ensures forall x :: x in r ==> x in recs
    ensures forall x :: x in recs ==> x.movie.id in MovieIds(r)
    ensures NoDuplicates(MovieIds(r))
  {
    if recs == [] then []
    else
      var init := recs[..|recs| - 1];
      var d := FirstById(init);
      var x := recs[|recs| - 1];
      assert forall y :: y in recs ==> y in init || y == x;
      if x.movie.id in MovieIds(d) then d
      else
        assert MovieIds(d + [x]) == MovieIds(d) + [x.movie.id];
        d + [x]
  }

  /** The first recommendation always survives de-duplication. */
  lemma {:induction false} FirstByIdHead(recs: seq<Recommendation>)
    requires |recs| > 0
    ensures |FirstById(recs)| > 0 && FirstById(recs)[0] == recs[0]
  {
    if |recs| > 1 {
      var init := recs[..|recs| - 1];
      FirstByIdHead(init);
      assert init[0] == recs[0];
    }
  }

  /** The `seen` filter of `getRecommendations`. */
  method DedupById(recs: seq<Recommendation>) returns (unique: seq<Recommendation>)
    ensures unique == FirstById(recs)
  {
    var seen: set<int> := {};
    unique := [];
    for i := 0 to |recs|
      invariant unique == FirstById(recs[..i])
      invariant forall id :: id in seen <==> id in MovieIds(unique)
    {
      assert recs[..i + 1][..i] == recs[..i];
      if recs[i].movie.id !in seen {
        assert MovieIds(unique + [recs[i]]) == MovieIds(unique) + [recs[i].movie.id];
        seen := seen + {recs[i].movie.id};
        unique := unique + [recs[i]];
      }
    }
    assert recs[..|recs|] == recs;
  }

  /** The candidates of the `count` best-ranked positions, best first: exactly `count` of them unless
      fewer were scored, each taken once from the scored candidates. */
  function TopScored(scored: seq<Recommendation>, count: nat): (r: seq<Recommendation>)
    ensures |r| == if count < |scored| then count else |scored|
    ensures multiset(r) <= multiset(scored)
  {
    RankingSpec(scored);
    var top := SliceTo(Ranking(scored), count);
    var r := seq(|top|, j requires 0 <= j < |top| => scored[top[j].index]);
    var ranked := RankedCandidates(scored);
    assert r == ranked[..|r|];
    SliceSubMultiset(ranked, count);
    r
  }

  /** `sortedByScore` as candidates: every scored candidate once, in ranking order. */
  function RankedCandidates(scored: seq<Recommendation>): (r: seq<Recommendation>)
    ensures multiset(r) == multiset(scored)
    ensures |r| == |Ranking(scored)| && forall j :: 0 <= j < |r| ==> Ranking(scored)[j].index < |scored| && r[j] == scored[Ranking(scored)[j].index]
  {
    RankingSpec(scored);
    var ranking := Ranking(scored);
    var r := seq(|ranking|, j requires 0 <= j < |ranking| => scored[ranking[j].index]);
    if scored == [] then r
    else
      var f := CandidateAt(scored, scored[0]);
      MapAt(ranking, f);
      MapAt(Slots(scored), f);
      assert Map(ranking, f) == r;
      assert Map(Slots(scored), f) == scored;
      MapPermutation(ranking, Slots(scored), f);
      r
  }

  /** The candidate a slot stands for; `fallback` for an index past the end, which no slot has. */
  function CandidateAt(scored: seq<Recommendation>, fallback: Recommendation): Slot -> Recommendation
  {
    (slot: Slot) => if slot.index < |scored| then scored[slot.index] else fallback
  }

  /** The top candidates come by descending score, and a candidate left out scores no higher than any kept,
      which then fill all `count` places. */
  lemma TopScoredIsBest(scored: seq<Recommendation>, count: nat, p: nat)
    requires p < |scored|
    ensures var top := TopScored(scored, count);
      && (forall i, j :: 0 <= i < j < |top| ==> top[i].score >= top[j].score)
      && (p !in Indices(SliceTo(Ranking(scored), count)) ==>
            |top| == count && forall i :: 0 <= i < |top| ==> top[i].score >= scored[p].score)
  {
    RankingSpec(scored);
    var ranking := Ranking(scored);
    var top := SliceTo(ranking, count);
    SortedPrefix(ranking, |top|, ByScore);
    if p !in Indices(top) {
      var slot := Slot(p, scored[p].score);
      assert slot in multiset(Slots(scored));
      assert slot in ranking;
      assert slot !in top by {
        forall i | 0 <= i < |top| ensures top[i] != slot {
          assert Indices(top)[i] == top[i].index;
        }
      }
      TopPrefix(ranking, |top|, slot, ByScore);
    }
  }

  /** Selection, de-duplication and the final `slice(0, count)`, over the scored candidates. */
  method Choose(scored: seq<Recommendation>, count: int, epsilon: real, draws: seq<real>)
    returns (r: seq<Recommendation>)
    requires |draws| >= 2 * count
    requires forall i :: 0 <= i < |draws| ==> 0.0 <= draws[i] < 1.0
    ensures var sel := Selected(scored, count, epsilon, draws);
      && (forall j :: 0 <= j < |sel.picks| ==> sel.picks[j] < |scored|)
      && r == SliceTo(FirstById(Shown(scored, sel.picks, sel.explored)), count)
    ensures count <= 0 ==> r == []
    ensures |r| <= RoundCount(count, |scored|) && NoDuplicates(MovieIds(r))
    ensures forall rec :: rec in r ==>
      exists p :: 0 <= p < |scored| && (rec == scored[p] || rec == AsExplored(scored[p]))
    ensures count > 0 && |scored| > 0 ==> |r| > 0
    ensures count >= 0 && NeverExplores(draws, epsilon) ==> r == SliceTo(FirstById(TopScored(scored, count)), count)
    ensures count > 0 && |scored| > 0 && draws[0] < epsilon ==>
      r[0] == AsExplored(scored[ExploreIndex(draws[1], |scored|)])
  {
    var picks, explored := SelectSlots(scored, count, epsilon, draws);
    SelectedBounds(scored, count, epsilon, draws);
    var results := Shown(scored, picks, explored);
    var unique := DedupById(results);
    r := SliceTo(unique, count);
    ShownAreScored(scored, picks, explored);
    assert forall rec :: rec in r ==> rec in unique;
    if |picks| > 0 {
      FirstByIdHead(results);
    }
    if count >= 0 && NeverExplores(draws, epsilon) {
      GreedyShown(scored, count, epsilon, draws);
    }
    if count > 0 && |scored| > 0 && draws[0] < epsilon {
      FirstRoundExplores(scored, count, epsilon, draws);
    }
  }

  /** Never exploring, the rounds show the top `count` candidates of the ranking. */
  lemma GreedyShown(scored: seq<Recommendation>, count: int, epsilon: real, draws: seq<real>)
    requires |draws| >= 2 * count && count >= 0
    requires forall i :: 0 <= i < |draws| ==> 0.0 <= draws[i] < 1.0
    requires NeverExplores(draws, epsilon)
    ensures var sel := Selected(scored, count, epsilon, draws);
      && (forall j :: 0 <= j < |sel.picks| ==> sel.picks[j] < |scored|)
      && Shown(scored, sel.picks, sel.explored) == TopScored(scored, count)
  {
    SelectedBounds(scored, count, epsilon, draws);
    GreedySelection(scored, count, epsilon, draws);
  }

  /** Every shown recommendation is a scored candidate, edited or not. */
  lemma ShownAreScored(scored: seq<Recommendation>, picks: seq<nat>, explored: set<nat>)
    requires forall j :: 0 <= j < |picks| ==> picks[j] < |scored|
    ensures forall rec :: rec in Shown(scored, picks, explored) ==>
      exists p :: 0 <= p < |scored| && (rec == scored[p] || rec == AsExplored(scored[p]))
  {
    var results := Shown(scored, picks, explored);
    forall rec | rec in results
      ensures exists p :: 0 <= p < |scored| && (rec == scored[p] || rec == AsExplored(scored[p]))
    {
      var j :| 0 <= j < |results| && results[j] == rec;
      var p := picks[j];
      assert rec == scored[p] || rec == AsExplored(scored[p]);
    }
  }

  // ---------------------------------------------------------------------------------------------
  // getRecommendations
  // ---------------------------------------------------------------------------------------------

  /** The profile passed in, or else the stored one. */
  function ProfileFor(db: Db, user: string, given: Option<Profile>): (r: Option<Profile>)
    reads db
    ensures r.None? <==> given.None? && user !in db.profiles
    ensures given.Some? ==> r == given
    ensures given.None? && user in db.profiles ==> r == Some(db.profiles[user])
  {
    if given.Some? then given else if user in db.profiles then Some(db.profiles[user]) else None
  }

  /** The movies the user's age admits. */
  function Candidates(allMovies: seq<Movie>, age: int): (r: seq<Movie>)
    ensures forall m :: m in r <==> m in allMovies && age >= m.ageLimit
  {
    Filter(allMovies, (m: Movie) => age >= m.ageLimit)
  }

  /** `candidates.map(...)`: the scored candidates, in candidate order. */
  function ScoreAll(sig: Signals, candidates: seq<Movie>): (r: seq<Recommendation>)
    ensures |r| == |candidates| && forall i :: 0 <= i < |r| ==> r[i] == ScoreCandidate(sig, candidates[i])
  {
    seq(|candidates|, i requires 0 <= i < |candidates| => ScoreCandidate(sig, candidates[i]))
  }

  /** The exploration rate of the user's current state. */
  function StateEpsilon(db: Db, user: string, profile: Profile, hour: int): real
    reads db
  {
    AdaptiveEpsilon(SumVisits(LearnedValues(db, user, profile, hour)))
  }

  /** Gathers what the scoring reads about the user: the state's learned rows, the ratings and the views. */
  method GatherSignals(db: Db, user: string, profile: Profile, allMovies: seq<Movie>, hour: int)
    returns (sig: Signals, epsilon: real)
    ensures sig == UserSignals(db, user, profile, allMovies, hour)
    ensures epsilon == StateEpsilon(db, user, profile, hour)
  {
    var recentInteractions := GetUserInteractions(db.log, user, RecentWindow);
    var stateKey := EncodeState(profile, recentInteractions, hour);
    var learnedValues := GetTopQValues(db.qtable, user, stateKey, 100);
    var qMap := BuildQMap(learnedValues);
    var userRatings := GetUserRatings(db.ratings, user);
    var viewedMovies := ViewedMovies(GetMovieInteractionCounts(db.log, user));
    sig := Signals(qMap, profile.preferredGenres, profile.preferredExperience, RatedIds(userRatings),
                   LovedIds(userRatings), viewedMovies, allMovies);
    epsilon := AdaptiveEpsilon(SumVisits(learnedValues));
  }

  /** Scoring and selection over the candidates: every pick is a scored candidate, as explored or not. */
  method ScoreAndChoose(sig: Signals, candidates: seq<Movie>, count: int, epsilon: real, draws: seq<real>)
    returns (r: seq<Recommendation>)
    requires |draws| >= 2 * count
    requires forall i :: 0 <= i < |draws| ==> 0.0 <= draws[i] < 1.0
    ensures var sel := Selected(ScoreAll(sig, candidates), count, epsilon, draws);
      && (forall j :: 0 <= j < |sel.picks| ==> sel.picks[j] < |candidates|)
      && r == SliceTo(FirstById(Shown(ScoreAll(sig, candidates), sel.picks, sel.explored)), count)
    ensures count <= 0 ==> r == []
    ensures |r| <= RoundCount(count, |candidates|) && NoDuplicates(MovieIds(r))
    ensures forall rec :: rec in r ==>
      && rec.movie in candidates
      && (rec == ScoreCandidate(sig, rec.movie) || rec == AsExplored(ScoreCandidate(sig, rec.movie)))
    ensures count > 0 && |candidates| > 0 ==> |r| > 0
    ensures count >= 0 && NeverExplores(draws, epsilon) ==>
      r == SliceTo(FirstById(TopScored(ScoreAll(sig, candidates), count)), count)
  {
    var scored := ScoreAll(sig, candidates);
    r := Choose(scored, count, epsilon, draws);
    ChosenAreCandidates(sig, candidates, r);
  }

  /** A recommendation taken from the scored candidates, edited or not, is a candidate with its score. */
  lemma ChosenAreCandidates(sig: Signals, candidates: seq<Movie>, r: seq<Recommendation>)
    requires forall rec :: rec in r ==>
      exists p :: 0 <= p < |candidates| &&
        (rec == ScoreAll(sig, candidates)[p] || rec == AsExplored(ScoreAll(sig, candidates)[p]))
    ensures forall rec :: rec in r ==>
      && rec.movie in candidates
      && (rec == ScoreCandidate(sig, rec.movie) || rec == AsExplored(ScoreCandidate(sig, rec.movie)))
  {
    var scored := ScoreAll(sig, candidates);
    forall rec | rec in r
      ensures rec.movie in candidates &&
        (rec == ScoreCandidate(sig, rec.movie) || rec == AsExplored(ScoreCandidate(sig, rec.movie)))
    {
      var p :| 0 <= p < |scored| && (rec == scored[p] || rec == AsExplored(scored[p]));
      assert scored[p].movie == candidates[p];
    }
  }

  /** `getRecommendations`: for a known user, score the age-appropriate movies and pick up to `count`
      of them epsilon-greedily, one movie at most once. `draws` stands for the successive values of
      `Math.random()`. */
  method GetRecommendations(db: Db, user: string, allMovies: seq<Movie>, count: int, given: Option<Profile>,
                            hour: int, draws: seq<real>) returns (r: seq<Recommendation>)
    requires |draws| >= 2 * count
    requires forall i :: 0 <= i < |draws| ==> 0.0 <= draws[i] < 1.0
    ensures ProfileFor(db, user, given).None? || count <= 0 ==> r == []
    ensures (count >= 0 ==> |r| <= count) && NoDuplicates(MovieIds(r))
    ensures ProfileFor(db, user, given).Some? ==>
      var profile := ProfileFor(db, user, given).value;
      var sig := UserSignals(db, user, profile, allMovies, hour);
      var candidates := Candidates(allMovies, UserAge(profile));
      && (forall rec :: rec in r ==>
            && rec.movie in allMovies && rec.movie.ageLimit <= UserAge(profile)
            && (rec == ScoreCandidate(sig, rec.movie) || rec == AsExplored(ScoreCandidate(sig, rec.movie))))
      && (count > 0 && |candidates| > 0 ==> |r| > 0)
      && (var sel := Selected(ScoreAll(sig, candidates), count, StateEpsilon(db, user, profile, hour), draws);
          && (forall j :: 0 <= j < |sel.picks| ==> sel.picks[j] < |candidates|)
          && r == SliceTo(FirstById(Shown(ScoreAll(sig, candidates), sel.picks, sel.explored)), count))
      && (count >= 0 && NeverExplores(draws, StateEpsilon(db, user, profile, hour)) ==>
            r == SliceTo(FirstById(TopScored(ScoreAll(sig, candidates), count)), count))
  {
    var profile := ProfileFor(db, user, given);
    if profile.None? {
      return [];
    }
    var sig, epsilon := GatherSignals(db, user, profile.value, allMovies, hour);
    var userAge := UserAge(profile.value);
    var candidates := Candidates(allMovies, userAge);
    r := ScoreAndChoose(sig, candidates, count, epsilon, draws);
  }

  // ---------------------------------------------------------------------------------------------
  // Learning statistics
  // ---------------------------------------------------------------------------------------------

  datatype Maturity = ColdStart | Learning | Improving | Mature

  /** `cold_start` below 5 interactions, `learning` below 20, `improving` below 50, `mature` from 50. */
  function MaturityOf(totalInteractions: int): (m: Maturity)
    ensures MaturityRank(m) == (if totalInteractions >= 5 then 1 else 0) + (if totalInteractions >= 20 then 1 else 0)
                                + (if totalInteractions >= 50 then 1 else 0)
  {
    if totalInteractions < 5 then ColdStart
    else if totalInteractions < 20 then Learning
    else if totalInteractions < 50 then Improving
    else Mature
  }

  function MaturityRank(m: Maturity): nat
  {
    match m
    case ColdStart => 0
    case Learning => 1
    case Improving => 2
    case Mature => 3
  }

  /** More interactions never make the model look less mature. */
  lemma MaturityMonotone(a: int, b: int)
    requires a <= b
    ensures MaturityRank(MaturityOf(a)) <= MaturityRank(MaturityOf(b))
  {
  }

  datatype LearningStats = LearningStats(
    totalInteractions: int,
    uniqueStatesLearned: nat,
    totalQEntries: nat,
    avgQValue: real,
    topGenres: seq<(string, nat)>,          // (genre, count)
    topMovies: seq<(int, nat)>,             // (movie, interactions)
    activityBreakdown: map<string, nat>,    // event type to count
    modelMaturity: Maturity)

  function QValuesOf(rows: seq<QRow>): (r: seq<real>)
    ensures |r| == |rows| && forall i :: 0 <= i < |rows| ==> r[i] == rows[i].qValue
  {
    seq(|rows|, i requires 0 <= i < |rows| => rows[i].qValue)
  }

  function StatesOf(rows: seq<QRow>): (r: seq<string>)
    ensures |r| == |rows|
  {
    seq(|rows|, i requires 0 <= i < |rows| => rows[i].state)
  }

  /** The mean of the values, 0 for none. */
  function Average(xs: seq<real>): real
  {
    if |xs| > 0 then SumReal(xs) / |xs| as real else 0.0
  }

  /** The object `activityStats.reduce((acc, s) => { acc[s.event_type] = s.cnt; return acc; }, {})`. */
  function Breakdown(stats: seq<(string, nat)>): map<string, nat>
  {
    if stats == [] then map[]
    else Breakdown(stats[..|stats| - 1])[stats[|stats| - 1].0 := stats[|stats| - 1].1]
  }

  /** `getUserLearningStats` over the interaction log and the Q-table. The average is not rounded. */
  function GetUserLearningStats(log: seq<Interaction>, qtable: seq<QRow>, user: string): (r: LearningStats)
    ensures r.totalInteractions == |UserLog(log, user)| && r.modelMaturity == MaturityOf(|UserLog(log, user)|)
    ensures r.uniqueStatesLearned <= r.totalQEntries && (r.uniqueStatesLearned == 0 <==> r.totalQEntries == 0)
  {
    var qValues := GetAllUserQValues(qtable, user);
    var activityStats := GetUserActivityStats(log, user);
    GroupCountTotal(EventTypesOf(log, user));
    var states := StatesOf(qValues);
    assert |states| > 0 ==> states[0] in Distinct(states);
    var totalInteractions := Sum(Counts(activityStats));
    LearningStats(totalInteractions, |Distinct(StatesOf(qValues))|, |qValues|, Average(QValuesOf(qValues)),
                  GetUserTopGenres(log, user), GetUserTopMovies(log, user), Breakdown(activityStats),
                  MaturityOf(totalInteractions))
  }



  lemma {:induction false} SumRealBounds(xs: seq<real>, lo: real, hi: real)
    requires forall i :: 0 <= i < |xs| ==> lo <= xs[i] <= hi
    ensures |xs| as real * lo <= SumReal(xs) <= |xs| as real * hi
  {
    if xs != [] {
      var init := xs[..|xs| - 1];
      SumRealBounds(init, lo, hi);
      assert |xs| as real * lo == |init| as real * lo + lo;
      assert |xs| as real * hi == |init| as real * hi + hi;
    }
  }

  lemma MeanBetween(sum: real, n: nat, lo: real, hi: real)
    requires n > 0 && n as real * lo <= sum <= n as real * hi
    ensures lo <= sum / n as real <= hi
  {
    var k := n as real;
    assert (sum / k) * k == sum;
  }

  /** The mean of values within bounds is within the bounds. */
  lemma AverageWithin(xs: seq<real>, lo: real, hi: real)
    requires |xs| > 0 && forall i :: 0 <= i < |xs| ==> lo <= xs[i] <= hi
    ensures lo <= Average(xs) <= hi
  {
    var sum, n := SumReal(xs), |xs|;
    SumRealBounds(xs, lo, hi);
    assert n as real * lo <= sum <= n as real * hi;
    MeanBetween(sum, n, lo, hi);
  }

  lemma MinMaxBound(xs: seq<real>)
    requires |xs| > 0
    ensures forall i :: 0 <= i < |xs| ==> Min(xs) <= xs[i] <= Max(xs)
  {
    forall i | 0 <= i < |xs| ensures Min(xs) <= xs[i] <= Max(xs) {
      assert xs[i] in xs;
    }
  }

  /** The average value lies between the smallest and the largest of the user's values. */
  lemma AverageWithinRange(log: seq<Interaction>, qtable: seq<QRow>, user: string)
    requires exists row :: row in qtable && row.user == user
    ensures var values := QValuesOf(GetAllUserQValues(qtable, user));
      |values| > 0 && Min(values) <= GetUserLearningStats(log, qtable, user).avgQValue <= Max(values)
  {
    var values := QValuesOf(GetAllUserQValues(qtable, user));
    var row :| row in qtable && row.user == user;
    assert row in GetAllUserQValues(qtable, user);
    MinMaxBound(values);
    AverageWithin(values, Min(values), Max(values));
  }

  /** With distinct keys, the folded object maps each key to its count and has no other key. */
  lemma {:induction false} BreakdownOfGroups(stats: seq<(string, nat)>)
    requires forall i, j :: 0 <= i < j < |stats| ==> stats[i].0 != stats[j].0
    ensures forall t :: t in Breakdown(stats) <==> exists i :: 0 <= i < |stats| && stats[i].0 == t
    ensures forall i :: 0 <= i < |stats| ==> Breakdown(stats)[stats[i].0] == stats[i].1
  {
    if stats != [] {
      var init := stats[..|stats| - 1];
      BreakdownOfGroups(init);
      forall i | 0 <= i < |init| ensures init[i].0 != stats[|stats| - 1].0 {
        assert init[i] == stats[i];
      }
    }
  }

  /** The activity breakdown maps each event type the user produced to how often they produced it. */
  lemma BreakdownCountsEvents(log: seq<Interaction>, qtable: seq<QRow>, user: string, t: string)
    ensures var breakdown := GetUserLearningStats(log, qtable, user).activityBreakdown;
      && (t in breakdown <==> exists e :: e in log && e.user == user && e.eventType == t)
      && (t in breakdown ==> breakdown[t] == multiset(EventTypesOf(log, user))[t])
  {
    var types := EventTypesOf(log, user);
    var groups := GroupCount(types);
    BreakdownOfGroups(groups);
    if t in types {
      var i :| 0 <= i < |groups| && groups[i].0 == t;
    }
  }
}
