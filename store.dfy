/** The persistence layer as the engine sees it: user profiles, the append-only interaction log, the
    Q-table with at most one row per (user, state, movie), and the ratings. Only the statements the
    engine runs are modelled, with the ordering and uniqueness the schema guarantees. */
module Store {
  import opened Wrappers
  import opened Seqs
  import opened Sorting

  /** A user row as the engine reads it. `preferredGenres` is the parsed JSON list, `None` when the column
      is empty or does not parse; an empty `preferredExperience` means none. */
  datatype Profile = Profile(
    uid: string, age: Option<int>, preferredGenres: Option<seq<string>>, preferredExperience: string)

  /** One logged interaction; absent context tags are empty strings. */
  datatype Interaction = Interaction(
    user: string, movieId: int, eventType: string, eventValue: string,
    contextGenre: string, contextExperience: string, contextSource: string,
    durationMs: int, createdAt: string)

  /** One Q-table row. */
  datatype QRow = QRow(user: string, state: string, movieId: int, qValue: real, visits: nat, lastReward: real)

  datatype RatingRow = RatingRow(user: string, movieId: int, rating: int)

  predicate HasKey(row: QRow, user: string, state: string, movieId: int)
  {
    row.user == user && row.state == state && row.movieId == movieId
  }

  /** The `UNIQUE(user_uid, state_key, movie_id)` constraint. */
  predicate UniqueKeys(rows: seq<QRow>)
  {
    forall i, j :: 0 <= i < j < |rows| ==> !HasKey(rows[j], rows[i].user, rows[i].state, rows[i].movieId)
  }

  /** `getQValue`: the row for (user, state, movie), if any. */
  function GetQValue(rows: seq<QRow>, user: string, state: string, movieId: int): (r: Option<QRow>)
    ensures r.Some? ==> r.value in rows && HasKey(r.value, user, state, movieId)
    ensures r.None? <==> forall row :: row in rows ==> !HasKey(row, user, state, movieId)
  {
    if rows == [] then None
    else if HasKey(rows[0], user, state, movieId) then Some(rows[0])
    else GetQValue(rows[1..], user, state, movieId)
  }

  /** `upsertQValue`: insert the row, or on a key conflict replace its value, visit count and last reward
      where it stands. Every other row stays. */
  function Upsert(rows: seq<QRow>, user: string, state: string, movieId: int, q: real, visits: nat,
                  reward: real): seq<QRow>
  {
    if rows == [] then [QRow(user, state, movieId, q, visits, reward)]
    else if HasKey(rows[0], user, state, movieId) then [QRow(user, state, movieId, q, visits, reward)] + rows[1..]
    else [rows[0]] + Upsert(rows[1..], user, state, movieId, q, visits, reward)
  }

  /** An upsert keeps every row of another key and adds no row but the new one. */
  lemma {:induction false} UpsertRows(rows: seq<QRow>, user: string, state: string, movieId: int, q: real,
                                      visits: nat, reward: real)
    ensures var r := Upsert(rows, user, state, movieId, q, visits, reward);
      && (forall row :: row in rows && !HasKey(row, user, state, movieId) ==> row in r)
      && (forall row :: row in r ==> row in rows || row == QRow(user, state, movieId, q, visits, reward))
  {
    if rows != [] {
      assert forall row :: row in rows ==> row == rows[0] || row in rows[1..];
      if !HasKey(rows[0], user, state, movieId) {
        UpsertRows(rows[1..], user, state, movieId, q, visits, reward);
      }
    }
  }

  lemma UniqueTail(rows: seq<QRow>)
    requires UniqueKeys(rows) && rows != []
    ensures UniqueKeys(rows[1..])
    ensures forall row :: row in rows[1..] ==> !HasKey(row, rows[0].user, rows[0].state, rows[0].movieId)
  {
    forall row | row in rows[1..] ensures !HasKey(row, rows[0].user, rows[0].state, rows[0].movieId) {
      var j :| 0 <= j < |rows[1..]| && rows[1..][j] == row;
      assert rows[j + 1] == row;
    }
  }

  lemma UniqueCons(x: QRow, rows: seq<QRow>)
    requires UniqueKeys(rows)
    requires forall row :: row in rows ==> !HasKey(row, x.user, x.state, x.movieId)
    ensures UniqueKeys([x] + rows)
  {
    var r := [x] + rows;
    forall i, j | 0 <= i < j < |r| ensures !HasKey(r[j], r[i].user, r[i].state, r[i].movieId) {
      if i == 0 {
        assert r[j] in rows;
      } else {
        assert r[i] == rows[i - 1] && r[j] == rows[j - 1];
      }
    }
  }

  /** An upsert keeps the key constraint, makes the lookup of its key return the new row, and adds a row
      exactly when the key was absent. */
  lemma {:induction false} UpsertSpec(rows: seq<QRow>, user: string, state: string, movieId: int, q: real,
                                      visits: nat, reward: real)
    requires UniqueKeys(rows)
    ensures var r := Upsert(rows, user, state, movieId, q, visits, reward);
      && UniqueKeys(r)
      && GetQValue(r, user, state, movieId) == Some(QRow(user, state, movieId, q, visits, reward))
      && |r| == |rows| + (if GetQValue(rows, user, state, movieId).None? then 1 else 0)
  {
    var newRow := QRow(user, state, movieId, q, visits, reward);
    if rows == [] {
    } else if HasKey(rows[0], user, state, movieId) {
      UniqueTail(rows);
      UniqueCons(newRow, rows[1..]);
    } else {
      UniqueTail(rows);
      UpsertSpec(rows[1..], user, state, movieId, q, visits, reward);
      UpsertRows(rows[1..], user, state, movieId, q, visits, reward);
      var rest := Upsert(rows[1..], user, state, movieId, q, visits, reward);
      assert forall row :: row in rest ==> !HasKey(row, rows[0].user, rows[0].state, rows[0].movieId);
      UniqueCons(rows[0], rest);
    }
  }

  /** An upsert leaves the row of every other key as it was. */
  lemma UpsertKeepsOtherKeys(rows: seq<QRow>, user: string, state: string, movieId: int, q: real,
                             visits: nat, reward: real, u: string, s: string, m: int)
    requires UniqueKeys(rows)
    requires !(u == user && s == state && m == movieId)
    ensures GetQValue(Upsert(rows, user, state, movieId, q, visits, reward), u, s, m) == GetQValue(rows, u, s, m)
  {
    var r := Upsert(rows, user, state, movieId, q, visits, reward);
    var before := GetQValue(rows, u, s, m);
    var after := GetQValue(r, u, s, m);
    UpsertSpec(rows, user, state, movieId, q, visits, reward);
    UpsertRows(rows, user, state, movieId, q, visits, reward);
    if before.Some? {
      assert before.value in r;
      UniqueLookup(r, before.value, u, s, m);
    }
  }

  /** Under the key constraint a row with the key is the row the lookup returns. */
  lemma UniqueLookup(rows: seq<QRow>, row: QRow, u: string, s: string, m: int)
    requires UniqueKeys(rows) && row in rows && HasKey(row, u, s, m)
    ensures GetQValue(rows, u, s, m) == Some(row)
  {
    if rows[0] != row {
      assert !HasKey(rows[0], u, s, m) by {
        var j :| 0 <= j < |rows| && rows[j] == row;
      }
      assert row in rows[1..];
      UniqueLookup(rows[1..], row, u, s, m);
    }
  }

  /** `ORDER BY q_value DESC`; rows of equal value keep table order. */
  predicate QFirst(a: QRow, b: QRow)
  {
    a.qValue >= b.qValue
  }

  predicate InState(row: QRow, user: string, state: string)
  {
    row.user == user && row.state == state
  }

  /** The user's rows in the state, in table order. */
  function StateRows(rows: seq<QRow>, user: string, state: string): seq<QRow>
  {
    Filter(rows, (row: QRow) => InState(row, user, state))
  }

  /** `getTopQValues`: the user's rows in the state, highest value first, `LIMIT limit` of them: exactly
      `limit` unless the state has fewer rows, and then all of them. */
  function GetTopQValues(rows: seq<QRow>, user: string, state: string, limit: nat): (r: seq<QRow>)
    ensures forall row :: row in r ==> row in rows && InState(row, user, state)
    ensures SortedBy(r, QFirst)
    ensures |r| == (var n := |StateRows(rows, user, state)|; if limit < n then limit else n)
    ensures multiset(r) <= multiset(StateRows(rows, user, state))
  {
    var inState := StateRows(rows, user, state);
    var sorted := Sort(inState, QFirst);
    var r := SliceTo(sorted, limit);
    assert SortedBy(r, QFirst) by {
      SortSorted(inState, QFirst);
      SortedPrefix(sorted, |r|, QFirst);
    }
    assert multiset(r) <= multiset(inState) by {
      SliceSubMultiset(sorted, limit);
    }
    assert forall row :: row in r ==> row in inState by {
      forall row | row in r ensures row in inState {
        assert row in multiset(r);
      }
    }
    r
  }

  /** A row of the state left out of `getTopQValues` is valued no higher than any row returned, and the
      result is empty only when the state has no row or the limit is zero. */
  lemma TopQValuesAreTop(rows: seq<QRow>, user: string, state: string, limit: nat, row: QRow)
    requires row in rows && InState(row, user, state)
    ensures var r := GetTopQValues(rows, user, state, limit);
      && (limit > 0 ==> |r| > 0)
      && (row !in r ==> forall x :: x in r ==> x.qValue >= row.qValue)
  {
    var inState := StateRows(rows, user, state);
    SortSorted(inState, QFirst);
    var sorted := Sort(inState, QFirst);
    var r := SliceTo(sorted, limit);
    assert row in multiset(sorted);
    if row !in r {
      TopPrefix(sorted, |r|, row, QFirst);
    }
  }

  /** The first row of `getTopQValues(user, state, 1)` carries the largest value of the state. */
  lemma TopIsMaximum(rows: seq<QRow>, user: string, state: string, row: QRow)
    requires row in rows && InState(row, user, state)
    ensures var top := GetTopQValues(rows, user, state, 1);
      |top| == 1 && row.qValue <= top[0].qValue
  {
    TopQValuesAreTop(rows, user, state, 1, row);
    var top := GetTopQValues(rows, user, state, 1);
    if row != top[0] {
      assert top == [top[0]];
    }
  }

  /** `getAllUserQValues`. */
  function GetAllUserQValues(rows: seq<QRow>, user: string): (r: seq<QRow>)
    ensures forall row :: row in r <==> row in rows && row.user == user
  {
    Filter(rows, (row: QRow) => row.user == user)
  }

  function Reverse<T>(s: seq<T>): (r: seq<T>)
    ensures |r| == |s|
    ensures forall i :: 0 <= i < |s| ==> r[i] == s[|s| - 1 - i]
  {
    if s == [] then [] else Reverse(s[1..]) + [s[0]]
  }

  /** The user's interactions, in log order. */
  function UserLog(log: seq<Interaction>, user: string): (r: seq<Interaction>)
    ensures forall e :: e in r <==> e in log && e.user == user
  {
    Filter(log, (e: Interaction) => e.user == user)
  }

  /** `getUserInteractions(user, limit)`: the user's latest `limit` interactions, newest first. Rows of the
      same timestamp are taken newest-inserted first. */
  function GetUserInteractions(log: seq<Interaction>, user: string, limit: nat): (r: seq<Interaction>)
    ensures |r| <= limit
    ensures forall e :: e in r ==> e in log && e.user == user
    ensures var mine := UserLog(log, user);
      && |r| == (if limit < |mine| then limit else |mine|)
      && forall i :: 0 <= i < |r| ==> r[i] == mine[|mine| - 1 - i]
  {
    var mine := Reverse(UserLog(log, user));
    assert forall e :: e in mine ==> e in UserLog(log, user) by {
      forall e | e in mine ensures e in UserLog(log, user) {
        var i :| 0 <= i < |mine| && mine[i] == e;
      }
    }
    SliceTo(mine, limit)
  }

  lemma UserLogAppend(log: seq<Interaction>, e: Interaction)
    ensures UserLog(log + [e], e.user) == UserLog(log, e.user) + [e]
  {
    var p := (x: Interaction) => x.user == e.user;
    FilterAppend(log, e, p);
  }

  lemma {:induction false} FilterAppend<T(!new)>(s: seq<T>, x: T, p: T -> bool)
    ensures Filter(s + [x], p) == Filter(s, p) + (if p(x) then [x] else [])
  {
    if s != [] {
      assert (s + [x])[1..] == s[1..] + [x];
      FilterAppend(s[1..], x, p);
    } else {
      assert s + [x] == [x];
    }
  }

  /** A just-logged interaction heads its user's recent-interaction window. */
  lemma NewestFirst(log: seq<Interaction>, e: Interaction, limit: nat)
    requires limit > 0
    ensures var w := GetUserInteractions(log + [e], e.user, limit); |w| > 0 && w[0] == e
  {
    UserLogAppend(log, e);
  }

  /** `getUserRatings`. */
  function GetUserRatings(ratings: seq<RatingRow>, user: string): (r: seq<RatingRow>)
    ensures forall x :: x in r <==> x in ratings && x.user == user
  {
    Filter(ratings, (x: RatingRow) => x.user == user)
  }

  /** The event types of the user's interactions, in log order. */
  function EventTypesOf(log: seq<Interaction>, user: string): (r: seq<string>)
    ensures forall t :: t in r <==> exists e :: e in log && e.user == user && e.eventType == t
  {
    var mine := UserLog(log, user);
    var r := seq(|mine|, i requires 0 <= i < |mine| => mine[i].eventType);
    assert forall e :: e in mine ==> e.eventType in r by {
      forall e | e in mine ensures e.eventType in r {
        var i :| 0 <= i < |mine| && mine[i] == e;
        assert r[i] == e.eventType;
      }
    }
    r
  }

  /** `getUserActivityStats`: one row per event type of the user, each type once, with the number of the
      user's interactions of that type; the counts add up to all of the user's interactions. */
  function GetUserActivityStats(log: seq<Interaction>, user: string): (r: seq<(string, nat)>)
    ensures forall i :: 0 <= i < |r| ==>
      r[i].0 in EventTypesOf(log, user) && r[i].1 == multiset(EventTypesOf(log, user))[r[i].0] > 0
    ensures forall e :: e in log && e.user == user ==> exists i :: 0 <= i < |r| && r[i].0 == e.eventType
    ensures forall i, j :: 0 <= i < j < |r| ==> r[i].0 != r[j].0
    ensures Sum(Counts(r)) == |UserLog(log, user)|
  {
    var types := EventTypesOf(log, user);
    GroupCountTotal(types);
    assert forall e :: e in log && e.user == user ==> e.eventType in types;
    GroupCount(types)
  }

  predicate CountsTowardGenre(e: Interaction)
  {
    e.contextGenre != "" && (e.eventType == "view" || e.eventType == "click" || e.eventType == "rating")
  }

  /** The genre tags of the user's views, clicks and ratings that carry one. */
  function GenreEvents(log: seq<Interaction>, user: string): (r: seq<string>)
    ensures forall g :: g in r ==> g != ""
  {
    var mine := Filter(UserLog(log, user), CountsTowardGenre);
    seq(|mine|, i requires 0 <= i < |mine| => mine[i].contextGenre)
  }

  /** `getUserTopGenres`: the five genres the user engaged with most, most frequent first, each with the
      number of the user's views, clicks and ratings tagged with it. A genre left out was engaged with no
      more often than every genre listed, which then fill all five places. */
  function GetUserTopGenres(log: seq<Interaction>, user: string): (r: seq<(string, nat)>)
    ensures |r| <= 5 && SortedBy(r, CountFirst)
    ensures forall g :: g in r ==>
      g.0 != "" && g.0 in GenreEvents(log, user) && g.1 == multiset(GenreEvents(log, user))[g.0]
    ensures forall i, j :: 0 <= i < j < |r| ==> r[i].0 != r[j].0
    ensures GenreEvents(log, user) != [] ==> |r| > 0
    ensures forall x :: x in GenreEvents(log, user) && (forall g :: g in r ==> g.0 != x) ==>
      |r| == 5 && forall g :: g in r ==> g.1 >= multiset(GenreEvents(log, user))[x]
  {
    TopGroupsLeaveOutLess(GenreEvents(log, user), 5);
    TopGroups(GenreEvents(log, user), 5)
  }

  /** `TopGroupsAreTop` for every key at once. */
  lemma TopGroupsLeaveOutLess<T(!new)>(keys: seq<T>, limit: nat)
    ensures keys != [] && limit > 0 ==> |TopGroups(keys, limit)| > 0
    ensures forall x :: x in keys && (forall g :: g in TopGroups(keys, limit) ==> g.0 != x) ==>
      |TopGroups(keys, limit)| == limit && forall g :: g in TopGroups(keys, limit) ==> g.1 >= multiset(keys)[x]
  {
    if keys != [] {
      TopGroupsAreTop(keys, limit, keys[0]);
    }
    forall x | x in keys
      ensures (forall g :: g in TopGroups(keys, limit) ==> g.0 != x) ==>
        |TopGroups(keys, limit)| == limit && forall g :: g in TopGroups(keys, limit) ==> g.1 >= multiset(keys)[x]
    {
      TopGroupsAreTop(keys, limit, x);
    }
  }

  predicate IsViewOrClick(e: Interaction)
  {
    e.eventType == "view" || e.eventType == "click"
  }

  /** The movies of the user's views and clicks, one entry per event. */
  function ViewedIds(log: seq<Interaction>, user: string): (r: seq<int>)
    ensures forall id :: id in r <==> exists e :: e in log && e.user == user && IsViewOrClick(e) && e.movieId == id
  {
    var mine := Filter(UserLog(log, user), IsViewOrClick);
    var r := seq(|mine|, i requires 0 <= i < |mine| => mine[i].movieId);
    assert forall e :: e in mine ==> e.movieId in r by {
      forall e | e in mine ensures e.movieId in r {
        var i :| 0 <= i < |mine| && mine[i] == e;
        assert r[i] == e.movieId;
      }
    }
    r
  }

  /** `getUserTopMovies`: the ten movies the user viewed or clicked most, most often first, each with the
      number of those views and clicks. A movie left out was viewed or clicked no more often than every
      movie listed, which then fill all ten places. */
  function GetUserTopMovies(log: seq<Interaction>, user: string): (r: seq<(int, nat)>)
    ensures |r| <= 10 && SortedBy(r, CountFirst)
    ensures forall g :: g in r ==> g.0 in ViewedIds(log, user) && g.1 == multiset(ViewedIds(log, user))[g.0]
    ensures forall i, j :: 0 <= i < j < |r| ==> r[i].0 != r[j].0
    ensures ViewedIds(log, user) != [] ==> |r| > 0
    ensures forall x :: x in ViewedIds(log, user) && (forall g :: g in r ==> g.0 != x) ==>
      |r| == 10 && forall g :: g in r ==> g.1 >= multiset(ViewedIds(log, user))[x]
  {
    TopGroupsLeaveOutLess(ViewedIds(log, user), 10);
    TopGroups(ViewedIds(log, user), 10)
  }

  /** The (movie, event type) pair of each of the user's interactions. */
  function MovieEventPairs(log: seq<Interaction>, user: string): (r: seq<(int, string)>)
    ensures forall p :: p in r <==> exists e :: e in log && e.user == user && p == (e.movieId, e.eventType)
  {
    var mine := UserLog(log, user);
    var r := seq(|mine|, i requires 0 <= i < |mine| => (mine[i].movieId, mine[i].eventType));
    assert forall e :: e in mine ==> (e.movieId, e.eventType) in r by {
      forall e | e in mine ensures (e.movieId, e.eventType) in r {
        var i :| 0 <= i < |mine| && mine[i] == e;
        assert r[i] == (e.movieId, e.eventType);
      }
    }
    r
  }

  /** `getMovieInteractionCounts`: one row per (movie, event type) the user produced, each pair once, with
      the number of the user's interactions of that pair; the counts add up to all of the user's
      interactions. */
  function GetMovieInteractionCounts(log: seq<Interaction>, user: string): (r: seq<((int, string), nat)>)
    ensures forall i :: 0 <= i < |r| ==>
      r[i].0 in MovieEventPairs(log, user) && r[i].1 == multiset(MovieEventPairs(log, user))[r[i].0] > 0
    ensures forall e :: e in log && e.user == user ==> exists i :: 0 <= i < |r| && r[i].0 == (e.movieId, e.eventType)
    ensures forall i, j :: 0 <= i < j < |r| ==> r[i].0 != r[j].0
    ensures Sum(Counts(r)) == |UserLog(log, user)|
  {
    var pairs := MovieEventPairs(log, user);
    GroupCountTotal(pairs);
    assert forall e :: e in log && e.user == user ==> (e.movieId, e.eventType) in pairs;
    GroupCount(pairs)
  }

  /** The `CHECK(event_type IN (...))` constraint of the interactions table. */
  const EventTypes: set<string> := {"view", "click", "search", "rating", "recommend_click", "dwell"}

  /** The database: the four tables the engine reads, in insertion order. */
  class Db {
    var profiles: map<string, Profile>
    var log: seq<Interaction>
    var qtable: seq<QRow>
    var ratings: seq<RatingRow>

    predicate Valid()
      reads this
    {
      && UniqueKeys(qtable)
      && forall i :: 0 <= i < |log| ==> log[i].eventType in EventTypes
    }

    constructor (profiles: map<string, Profile>)
      ensures Valid()
      ensures this.profiles == profiles && log == [] && qtable == [] && ratings == []
    {
      this.profiles := profiles;
      log := [];
      qtable := [];
      ratings := [];
    }

    /** `logInteraction`: the log only grows, by the one event. An event type outside the schema's list
        fails the CHECK constraint: the statement throws (`ok` is false) and nothing is written. */
    method LogInteraction(e: Interaction) returns (ok: bool)
      requires Valid()
      modifies this`log
      ensures Valid()
      ensures ok <==> e.eventType in EventTypes
      ensures log == if ok then old(log) + [e] else old(log)
    {
      ok := e.eventType in EventTypes;
      if ok {
        log := log + [e];
      }
    }

    /** `upsertQValue`. */
    method UpsertQValue(user: string, state: string, movieId: int, q: real, visits: nat, reward: real)
      requires Valid()
      modifies this`qtable
      ensures Valid()
      ensures qtable == Upsert(old(qtable), user, state, movieId, q, visits, reward)
    {
      UpsertSpec(qtable, user, state, movieId, q, visits, reward);
      qtable := Upsert(qtable, user, state, movieId, q, visits, reward);
    }
  }
}
