/** Per-key event counters over a user's recent interactions: the dashboard's per-day timeline
    (`buildTimeline`) and its per-genre heat map. */
module Activity {
  import opened Seqs
  import opened Sorting
  import opened Text
  import opened Store

  // ---------------------------------------------------------------------------------------------
  // Event counters keyed by day (`buildTimeline`) and by genre (the genre heat map)
  // ---------------------------------------------------------------------------------------------

  /** The counters object `{ view: 0, click: 0, rating: 0, recommend_click: 0, search: 0, dwell: 0 }`
      kept per key, from event type to count. */
  type EventCounts = map<string, nat>

  /** The event types that have a counter: the six the tracking route accepts. */
  const CountedTypes: set<string> := {"view", "click", "rating", "recommend_click", "search", "dwell"}

  const NoEvents: EventCounts := map t | t in CountedTypes :: 0

  /** Counters with exactly the six keys. */
  predicate WellKeyed(c: EventCounts)
  {
    c.Keys == CountedTypes
  }

  /** `if (counts[type] !== undefined) counts[type]++`: one more on the type's counter; a type without a
      counter leaves the counts unchanged. */
  function Tallied(c: EventCounts, eventType: string): (r: EventCounts)
    ensures r.Keys == c.Keys
  {
    if eventType in c then c[eventType := c[eventType] + 1] else c
  }

  /** The counter of `eventType`, 0 for a type without one. */
  function CounterOf(c: EventCounts, eventType: string): nat
  {
    if eventType in c then c[eventType] else 0
  }

  function Total(c: EventCounts): nat
    requires WellKeyed(c)
  {
    c["view"] + c["click"] + c["rating"] + c["recommend_click"] + c["search"] + c["dwell"]
  }

  /** How interactions are grouped: by the calendar day of `created_at`, or by the context genre. */
  datatype Grouping = ByDay | ByGenre

  /** The text before the first space of a timestamp: the date part of an SQLite `YYYY-MM-DD HH:MM:SS`
      value. */
  function DayOf(createdAt: string): (r: string)
    ensures ' ' !in r
  {
    if createdAt == [] || createdAt[0] == ' ' then [] else [createdAt[0]] + DayOf(createdAt[1..])
  }

  /** `created_at.split(' ')[0]`: the first piece of a split on spaces is the day. */
  lemma {:induction false} DayOfIsFirstPiece(createdAt: string)
    ensures DayOf(createdAt) == Split(createdAt, ' ')[0]
  {
    if createdAt != [] && createdAt[0] != ' ' {
      DayOfIsFirstPiece(createdAt[1..]);
    }
  }

  /** A timestamp's day is everything before its first space. */
  lemma {:induction false} DayOfTimestamp(date: string, time: string)
    requires ' ' !in date
    ensures DayOf(date + " " + time) == date
  {
    if date != [] {
      assert (date + " " + time)[1..] == date[1..] + " " + time;
      DayOfTimestamp(date[1..], time);
    }
  }

  function KeyOf(grouping: Grouping, e: Interaction): string
  {
    match grouping
    case ByDay => DayOf(e.createdAt)
    case ByGenre => e.contextGenre
  }

  /** The counters of the interactions under `key`, as the `forEach` over `xs` leaves them. */
  function CountsFor(xs: seq<Interaction>, grouping: Grouping, key: string): (r: EventCounts)
    ensures WellKeyed(r)
  {
    if xs == [] then NoEvents
    else
      var c := CountsFor(xs[..|xs| - 1], grouping, key);
      var e := xs[|xs| - 1];
      if KeyOf(grouping, e) == key then Tallied(c, e.eventType) else c
  }

  /** The interactions under `key` of type `eventType`. */
  function Under(grouping: Grouping, key: string, eventType: string): Interaction -> bool
  {
    (e: Interaction) => KeyOf(grouping, e) == key && e.eventType == eventType
  }

  /** The interactions under `key`. */
  function Keyed(grouping: Grouping, key: string): Interaction -> bool
  {
    (e: Interaction) => KeyOf(grouping, e) == key
  }

  /** Each counter holds the number of interactions under the key with that event type. */
  lemma {:induction false} CounterCounts(xs: seq<Interaction>, grouping: Grouping, key: string, eventType: string)
    requires eventType in CountedTypes
    ensures CounterOf(CountsFor(xs, grouping, key), eventType) == |Filter(xs, Under(grouping, key, eventType))|
  {
    if xs != [] {
      var init, e := xs[..|xs| - 1], xs[|xs| - 1];
      assert init + [e] == xs;
      CounterCounts(init, grouping, key, eventType);
      FilterAppend(init, e, Under(grouping, key, eventType));
    }
  }

  /** The counters under a key add up to at most the number of interactions under it; only event types
      without a counter are missing. */
  lemma {:induction false} CountsWithinInteractions(xs: seq<Interaction>, grouping: Grouping, key: string)
    ensures Total(CountsFor(xs, grouping, key)) <= |Filter(xs, Keyed(grouping, key))|
    ensures (forall i :: 0 <= i < |xs| ==> xs[i].eventType in CountedTypes) ==>
      Total(CountsFor(xs, grouping, key)) == |Filter(xs, Keyed(grouping, key))|
  {
    if xs != [] {
      var init, e := xs[..|xs| - 1], xs[|xs| - 1];
      assert init + [e] == xs;
      CountsWithinInteractions(init, grouping, key);
      FilterAppend(init, e, Keyed(grouping, key));
      TalliedTotal(CountsFor(init, grouping, key), e.eventType);
      assert (forall i :: 0 <= i < |xs| ==> xs[i].eventType in CountedTypes) ==>
        (forall i :: 0 <= i < |init| ==> init[i].eventType in CountedTypes);
    }
  }

  /** A tally adds one to the total exactly when the type has a counter. */
  lemma TalliedTotal(c: EventCounts, eventType: string)
    requires WellKeyed(c)
    ensures Total(Tallied(c, eventType)) == Total(c) + if eventType in CountedTypes then 1 else 0
  {
  }

  /** A key no interaction has gets all-zero counters. */
  lemma {:induction false} CountsForUnseen(xs: seq<Interaction>, grouping: Grouping, key: string)
    requires forall i :: 0 <= i < |xs| ==> KeyOf(grouping, xs[i]) != key
    ensures CountsFor(xs, grouping, key) == NoEvents
  {
    if xs != [] {
      CountsForUnseen(xs[..|xs| - 1], grouping, key);
    }
  }

  lemma CountsForAppend(xs: seq<Interaction>, e: Interaction, grouping: Grouping, key: string)
    ensures CountsFor(xs + [e], grouping, key) ==
      if KeyOf(grouping, e) == key then Tallied(CountsFor(xs, grouping, key), e.eventType)
      else CountsFor(xs, grouping, key)
  {
    assert (xs + [e])[..|xs|] == xs;
  }

  /** The day of every interaction, in order. */
  function Days(xs: seq<Interaction>): (r: seq<string>)
    ensures |r| == |xs|
  {
    seq(|xs|, i requires 0 <= i < |xs| => DayOf(xs[i].createdAt))
  }

  /** `{ labels, datasets: { view, click, rating, recommend_click } }`. */
  datatype Timeline = Timeline(labels: seq<string>, view: seq<nat>, click: seq<nat>, rating: seq<nat>,
                               recommendClick: seq<nat>)

  /** `buildTimeline(interactions)`: the days that have interactions in ascending order, and for each of
      four event types the number of that day's interactions of that type. */
  method BuildTimeline(interactions: seq<Interaction>) returns (t: Timeline)
    ensures t.labels == Sort(Distinct(Days(interactions)), LexFirst)
    ensures |t.view| == |t.click| == |t.rating| == |t.recommendClick| == |t.labels|
    ensures forall k :: 0 <= k < |t.labels| ==>
      var c := CountsFor(interactions, ByDay, t.labels[k]);
      t.view[k] == c["view"] && t.click[k] == c["click"] && t.rating[k] == c["rating"]
      && t.recommendClick[k] == c["recommend_click"]
  {
    var days, dayMap := TallyDays(interactions);
    var sortedDays := Sort(days, LexFirst);
    TallyKeys(interactions, ByDay);
    forall k | 0 <= k < |sortedDays|
      ensures sortedDays[k] in dayMap && dayMap[sortedDays[k]] == CountsFor(interactions, ByDay, sortedDays[k])
      ensures var c := dayMap[sortedDays[k]]; "view" in c && "click" in c && "rating" in c && "recommend_click" in c
    {
      assert sortedDays[k] in multiset(days);
      TallySpec(interactions, ByDay, sortedDays[k]);
    }
    t := Timeline(sortedDays, Series(dayMap, sortedDays, "view"), Series(dayMap, sortedDays, "click"),
                  Series(dayMap, sortedDays, "rating"), Series(dayMap, sortedDays, "recommend_click"));
  }

  /** `labels.map(d => dayMap[d][eventType])`. */
  function Series(dayMap: map<string, EventCounts>, days: seq<string>, eventType: string): (r: seq<nat>)
    requires forall k :: 0 <= k < |days| ==> days[k] in dayMap && eventType in dayMap[days[k]]
    ensures |r| == |days| && forall k :: 0 <= k < |days| ==> r[k] == dayMap[days[k]][eventType]
  {
    seq(|days|, k requires 0 <= k < |days| => dayMap[days[k]][eventType])
  }

  /** The `forEach` that fills `dayMap`: the days in order of first appearance, and each day's counters. */
  method TallyDays(interactions: seq<Interaction>) returns (days: seq<string>, dayMap: map<string, EventCounts>)
    ensures days == Distinct(Days(interactions))
    ensures dayMap == Tally(interactions, ByDay)
  {
    dayMap := map[];
    days := [];
    for i := 0 to |interactions|
      invariant days == Distinct(Days(interactions[..i]))
      invariant dayMap == Tally(interactions[..i], ByDay)
      invariant forall d :: d in dayMap <==> d in days
    {
      var e := interactions[i];
      var day := DayOf(e.createdAt);
      TakeOneMore(interactions, i);
      TallyAppend(interactions[..i], e, ByDay);
      DaysAppend(interactions[..i], e);
      DistinctAppend(Days(interactions[..i]), day);
      var counts := if day in dayMap then dayMap[day] else NoEvents;
      if day !in dayMap {
        days := days + [day];
      }
      dayMap := dayMap[day := Tallied(counts, e.eventType)];
    }
    assert interactions[..|interactions|] == interactions;
  }

  lemma DaysAppend(xs: seq<Interaction>, e: Interaction)
    ensures Days(xs + [e]) == Days(xs) + [DayOf(e.createdAt)]
  {
  }

  /** The object a `forEach` over `xs` builds: for each key met, its counters; when grouping by genre an
      interaction without one is skipped, so no genre key is empty. Every key's counters have exactly the
      six event types. */
  function Tally(xs: seq<Interaction>, grouping: Grouping): (r: map<string, EventCounts>)
    ensures forall key :: key in r ==> WellKeyed(r[key])
    ensures grouping == ByGenre ==> "" !in r
  {
    if xs == [] then map[]
    else
      var m := Tally(xs[..|xs| - 1], grouping);
      var e := xs[|xs| - 1];
      var key := KeyOf(grouping, e);
      if grouping == ByGenre && key == "" then m
      else m[key := Tallied(if key in m then m[key] else NoEvents, e.eventType)]
  }

  lemma TallyAppend(xs: seq<Interaction>, e: Interaction, grouping: Grouping)
    ensures var m, key := Tally(xs, grouping), KeyOf(grouping, e);
      Tally(xs + [e], grouping) ==
        if grouping == ByGenre && key == "" then m
        else m[key := Tallied(if key in m then m[key] else NoEvents, e.eventType)]
  {
    assert (xs + [e])[..|xs|] == xs;
  }

  /** A key is in the object exactly when some interaction has it (a genre also has to be non-empty), and
      then it holds that key's counters. */
  lemma TallySpec(xs: seq<Interaction>, grouping: Grouping, key: string)
    ensures key in Tally(xs, grouping) <==>
      (exists i :: 0 <= i < |xs| && KeyOf(grouping, xs[i]) == key) && !(grouping == ByGenre && key == "")
    ensures key in Tally(xs, grouping) ==> Tally(xs, grouping)[key] == CountsFor(xs, grouping, key)
  {
    TallyKeyMet(xs, grouping, key);
    TallyCounts(xs, grouping, key);
  }

  lemma {:induction false} TallyKeyMet(xs: seq<Interaction>, grouping: Grouping, key: string)
    ensures key in Tally(xs, grouping) <==>
      (exists i :: 0 <= i < |xs| && KeyOf(grouping, xs[i]) == key) && !(grouping == ByGenre && key == "")
  {
    if xs != [] {
      var init, e := xs[..|xs| - 1], xs[|xs| - 1];
      TallyKeyMet(init, grouping, key);
      TallyKeyStep(xs, grouping, key);
      KeyOccursStep(xs, grouping, key);
    }
  }

  /** The last interaction adds its own key, unless it is an empty genre. */
  lemma TallyKeyStep(xs: seq<Interaction>, grouping: Grouping, key: string)
    requires xs != []
    ensures var e := xs[|xs| - 1];
      key in Tally(xs, grouping) <==>
        key in Tally(xs[..|xs| - 1], grouping) || (KeyOf(grouping, e) == key && !(grouping == ByGenre && key == ""))
  {
  }

  lemma KeyOccursStep(xs: seq<Interaction>, grouping: Grouping, key: string)
    requires xs != []
    ensures var init := xs[..|xs| - 1];
      (exists i :: 0 <= i < |xs| && KeyOf(grouping, xs[i]) == key) <==>
        (exists i :: 0 <= i < |init| && KeyOf(grouping, init[i]) == key) || KeyOf(grouping, xs[|xs| - 1]) == key
  {
    var init := xs[..|xs| - 1];
    if exists i :: 0 <= i < |xs| && KeyOf(grouping, xs[i]) == key {
      var i :| 0 <= i < |xs| && KeyOf(grouping, xs[i]) == key;
      if i < |init| {
        assert init[i] == xs[i];
      }
    }
    if exists i :: 0 <= i < |init| && KeyOf(grouping, init[i]) == key {
      var i :| 0 <= i < |init| && KeyOf(grouping, init[i]) == key;
      assert xs[i] == init[i];
    }
  }

  lemma {:induction false} TallyCounts(xs: seq<Interaction>, grouping: Grouping, key: string)
    ensures key in Tally(xs, grouping) ==> Tally(xs, grouping)[key] == CountsFor(xs, grouping, key)
  {
    if xs != [] {
      var init, e := xs[..|xs| - 1], xs[|xs| - 1];
      TallyCounts(init, grouping, key);
      TallyKeyMet(init, grouping, key);
      if key !in Tally(init, grouping) && KeyOf(grouping, e) == key && !(grouping == ByGenre && key == "") {
        CountsForUnseen(init, grouping, key);
      }
    }
  }

  /** The keys of the day object are the distinct days; those of the genre object the distinct non-empty
      genres. */
  lemma TallyKeys(xs: seq<Interaction>, grouping: Grouping)
    ensures grouping == ByDay ==> forall d :: d in Tally(xs, grouping) <==> d in Distinct(Days(xs))
    ensures grouping == ByGenre ==> forall g :: g in Tally(xs, grouping) <==> g in Distinct(TaggedGenres(xs))
  {
    forall d ensures d in Tally(xs, grouping) <==>
      (exists i :: 0 <= i < |xs| && KeyOf(grouping, xs[i]) == d) && !(grouping == ByGenre && d == "")
    {
      TallySpec(xs, grouping, d);
    }
    if grouping == ByDay {
      forall d ensures d in Days(xs) <==> exists i :: 0 <= i < |xs| && KeyOf(grouping, xs[i]) == d {
        if exists i :: 0 <= i < |xs| && KeyOf(grouping, xs[i]) == d {
          var i :| 0 <= i < |xs| && KeyOf(grouping, xs[i]) == d;
          assert Days(xs)[i] == d;
        }
      }
    }
  }

  /** The labels are the days that have interactions, each once, in strictly ascending order. */
  lemma TimelineDays(interactions: seq<Interaction>)
    ensures var labels := Sort(Distinct(Days(interactions)), LexFirst);
      && (forall d :: d in labels <==> exists i :: 0 <= i < |interactions| && DayOf(interactions[i].createdAt) == d)
      && (forall i, j :: 0 <= i < j < |labels| ==> LexFirst(labels[i], labels[j]) && labels[i] != labels[j])
  {
    var days := Distinct(Days(interactions));
    var labels := Sort(days, LexFirst);
    forall d ensures d in labels <==> d in days {
      assert d in labels <==> d in multiset(labels);
    }
    forall d ensures d in days <==> exists i :: 0 <= i < |interactions| && DayOf(interactions[i].createdAt) == d {
      if d in Days(interactions) {
        var i :| 0 <= i < |interactions| && Days(interactions)[i] == d;
      }
      if exists i :: 0 <= i < |interactions| && DayOf(interactions[i].createdAt) == d {
        var i :| 0 <= i < |interactions| && DayOf(interactions[i].createdAt) == d;
        assert Days(interactions)[i] == d;
      }
    }
    LexTotalPreorder();
    SortSorted(days, LexFirst);
    PermutationKeepsNoDuplicates(days, labels);
  }

  /** `genreBreakdown`: per non-empty context genre, in order of first appearance, the counters of the
      interactions tagged with it. */
  method GenreBreakdown(interactions: seq<Interaction>) returns (genres: seq<string>, breakdown: map<string, EventCounts>)
    ensures genres == Distinct(TaggedGenres(interactions))
    ensures breakdown == Tally(interactions, ByGenre)
  {
    breakdown := map[];
    genres := [];
    for i := 0 to |interactions|
      invariant genres == Distinct(TaggedGenres(interactions[..i]))
      invariant breakdown == Tally(interactions[..i], ByGenre)
      invariant forall g :: g in breakdown <==> g in genres
    {
      var e := interactions[i];
      var genre := e.contextGenre;
      TakeOneMore(interactions, i);
      TallyAppend(interactions[..i], e, ByGenre);
      TaggedGenresAppend(interactions[..i], e);
      DistinctAppend(TaggedGenres(interactions[..i]), genre);
      if genre == "" {
        continue;
      }
      var counts := if genre in breakdown then breakdown[genre] else NoEvents;
      if genre !in breakdown {
        genres := genres + [genre];
      }
      breakdown := breakdown[genre := Tallied(counts, e.eventType)];
    }
    assert interactions[..|interactions|] == interactions;
  }

  /** The non-empty context genres of the interactions, in order. */
  function TaggedGenres(xs: seq<Interaction>): (r: seq<string>)
    ensures forall g :: g in r <==> g != "" && exists i :: 0 <= i < |xs| && xs[i].contextGenre == g
  {
    if xs == [] then []
    else
      var init, g := TaggedGenres(xs[..|xs| - 1]), xs[|xs| - 1].contextGenre;
      assert forall i :: 0 <= i < |xs| - 1 ==> xs[..|xs| - 1][i] == xs[i];
      if g == "" then init else init + [g]
  }

  lemma TaggedGenresAppend(xs: seq<Interaction>, e: Interaction)
    ensures TaggedGenres(xs + [e]) == if e.contextGenre == "" then TaggedGenres(xs) else TaggedGenres(xs) + [e.contextGenre]
  {
    assert (xs + [e])[..|xs|] == xs;
  }
}
