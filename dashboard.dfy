/** The remaining analytics of the dashboard route: the per-state coverage
    table and the summary figures. The reads are the store's queries (`GetAllUserQValues`,
    `GetUserInteractions` with a limit of 500, `GetUserRatings`); rounding to two decimals is not
    modelled. */
module Dashboard {
  import opened Seqs
  import opened Sorting
  import opened Store
  import opened Distribution
  import RlEngine

  // ---------------------------------------------------------------------------------------------
  // State-space coverage (`stateDetails`)
  // ---------------------------------------------------------------------------------------------

  /** One row of the coverage table: a state, how many movies have a Q-value in it, their mean and largest
      Q-value, and the visits they add up to. */
  datatype StateDetail = StateDetail(state: string, movieCount: nat, avgQ: real, maxQ: real, totalVisits: nat)

  function InStateKey(state: string): QRow -> bool
  {
    (q: QRow) => q.state == state
  }

  /** `allQ.filter(q => q.state_key === sk)`. */
  function Entries(allQ: seq<QRow>, state: string): (r: seq<QRow>)
    ensures forall q :: q in r <==> q in allQ && q.state == state
  {
    Filter(allQ, InStateKey(state))
  }

  /** A state some row is in has at least one entry. */
  lemma EntriesNonEmpty(allQ: seq<QRow>, state: string)
    requires state in RlEngine.StatesOf(allQ)
    ensures |Entries(allQ, state)| > 0
  {
    var i :| 0 <= i < |allQ| && RlEngine.StatesOf(allQ)[i] == state;
    assert allQ[i] in Entries(allQ, state);
  }

  /** The coverage row of one state. */
  function DetailOf(allQ: seq<QRow>, state: string): (d: StateDetail)
    requires state in RlEngine.StatesOf(allQ)
    ensures d.state == state
  {
    var entries := Entries(allQ, state);
    EntriesNonEmpty(allQ, state);
    var values := RlEngine.QValuesOf(entries);
    StateDetail(state, |entries|, RlEngine.Average(values), Max(values), RlEngine.SumVisits(entries))
  }

  /** `b.totalVisits - a.totalVisits` as a stable sort's comparator: more visits first. */
  predicate MoreVisits(a: StateDetail, b: StateDetail)
  {
    a.totalVisits >= b.totalVisits
  }

  /** `stateDetails`: the coverage row of each distinct state, most visited first; states with equal
      visits keep the order in which they first appear. The table has one row per distinct state, each
      state once, and each row is that state's own coverage. */
  function StateDetails(allQ: seq<QRow>): (rows: seq<StateDetail>)
    ensures |rows| == |Distinct(RlEngine.StatesOf(allQ))|
    ensures SortedBy(rows, MoreVisits)
    ensures forall i :: 0 <= i < |rows| ==>
      rows[i].state in RlEngine.StatesOf(allQ) && rows[i] == DetailOf(allQ, rows[i].state)
    ensures forall i, j :: 0 <= i < j < |rows| ==> rows[i].state != rows[j].state
    ensures forall state :: state in RlEngine.StatesOf(allQ) ==> exists i :: 0 <= i < |rows| && rows[i].state == state
  {
    var states := Distinct(RlEngine.StatesOf(allQ));
    assert forall k :: 0 <= k < |states| ==> states[k] in RlEngine.StatesOf(allQ) by {
      forall k | 0 <= k < |states| ensures states[k] in RlEngine.StatesOf(allQ) {
        assert states[k] in states;
      }
    }
    var details := seq(|states|, i requires 0 <= i < |states| => DetailOf(allQ, states[i]));
    var rows := Sort(details, MoreVisits);
    assert TotalPreorder(MoreVisits);
    SortSorted(details, MoreVisits);
    assert DetailRows(allQ, states, details);
    RowsAreDetails(allQ, states, details, rows);
    RowStatesDistinct(allQ, states, details, rows);
    RowsCoverStates(allQ, states, details, rows);
    rows
  }

  /** `details` holds the coverage row of each of `states`, in order. */
  ghost predicate DetailRows(allQ: seq<QRow>, states: seq<string>, details: seq<StateDetail>)
  {
    && |details| == |states|
    && forall k :: 0 <= k < |details| ==>
         states[k] in RlEngine.StatesOf(allQ) && details[k] == DetailOf(allQ, states[k])
  }

  lemma RowsAreDetails(allQ: seq<QRow>, states: seq<string>, details: seq<StateDetail>, rows: seq<StateDetail>)
    requires DetailRows(allQ, states, details)
    requires multiset(rows) == multiset(details)
    ensures forall i :: 0 <= i < |rows| ==>
      rows[i].state in RlEngine.StatesOf(allQ) && rows[i] == DetailOf(allQ, rows[i].state)
  {
    forall i | 0 <= i < |rows|
      ensures rows[i].state in RlEngine.StatesOf(allQ) && rows[i] == DetailOf(allQ, rows[i].state)
    {
      assert rows[i] in multiset(details);
      var k :| 0 <= k < |details| && details[k] == rows[i];
    }
  }

  lemma RowStatesDistinct(allQ: seq<QRow>, states: seq<string>, details: seq<StateDetail>, rows: seq<StateDetail>)
    requires DetailRows(allQ, states, details) && NoDuplicates(states)
    requires multiset(rows) == multiset(details)
    requires forall i :: 0 <= i < |rows| ==>
      rows[i].state in RlEngine.StatesOf(allQ) && rows[i] == DetailOf(allQ, rows[i].state)
    ensures forall i, j :: 0 <= i < j < |rows| ==> rows[i].state != rows[j].state
  {
    assert NoDuplicates(details) by {
      forall i, j | 0 <= i < j < |details| ensures details[i] != details[j] {
        assert details[i].state == states[i] && details[j].state == states[j];
      }
    }
    PermutationKeepsNoDuplicates(details, rows);
    forall i, j | 0 <= i < j < |rows| ensures rows[i].state != rows[j].state {
      assert rows[i] != rows[j];
    }
  }

  lemma RowsCoverStates(allQ: seq<QRow>, states: seq<string>, details: seq<StateDetail>, rows: seq<StateDetail>)
    requires DetailRows(allQ, states, details) && states == Distinct(RlEngine.StatesOf(allQ))
    requires multiset(rows) == multiset(details)
    ensures forall state :: state in RlEngine.StatesOf(allQ) ==> exists i :: 0 <= i < |rows| && rows[i].state == state
  {
    forall state | state in RlEngine.StatesOf(allQ) ensures exists i :: 0 <= i < |rows| && rows[i].state == state {
      var k :| 0 <= k < |states| && states[k] == state;
      assert details[k].state == state;
      assert details[k] in multiset(rows);
      var i :| 0 <= i < |rows| && rows[i] == details[k];
    }
  }

  /** Each row counts the state's entries, and its mean lies between the smallest entry and its maximum,
      which is the largest entry. */
  lemma DetailBounds(allQ: seq<QRow>, state: string)
    requires state in RlEngine.StatesOf(allQ)
    ensures var d, entries := DetailOf(allQ, state), Entries(allQ, state);
      && d.state == state
      && d.movieCount == |entries| > 0
      && (forall q :: q in allQ && q.state == state ==> q.qValue <= d.maxQ)
      && (exists q :: q in allQ && q.state == state && q.qValue == d.maxQ)
      && Min(RlEngine.QValuesOf(entries)) <= d.avgQ <= d.maxQ
  {
    var entries := Entries(allQ, state);
    EntriesNonEmpty(allQ, state);
    var values := RlEngine.QValuesOf(entries);
    forall q | q in allQ && q.state == state ensures q.qValue <= Max(values) {
      var k :| 0 <= k < |entries| && entries[k] == q;
      assert values[k] == q.qValue && values[k] in values;
    }
    var k :| 0 <= k < |values| && values[k] == Max(values);
    assert entries[k] in entries;
    RlEngine.MinMaxBound(values);
    RlEngine.AverageWithin(values, Min(values), Max(values));
  }

  // ---------------------------------------------------------------------------------------------
  // Summary figures
  // ---------------------------------------------------------------------------------------------

  datatype Summary = Summary(totalInteractions: nat, totalQEntries: nat, uniqueStates: nat, totalRatings: nat,
                             avgQValue: real, maxQValue: real, modelMaturity: RlEngine.Maturity)

  /** The `summary` block: sizes of the three reads, the mean and the largest Q-value (0 with no
      entries), and the maturity stage of the interaction count. There are no more states than entries,
      the mean lies between the smallest Q-value and the largest, and the reported largest bounds them
      all. */
  function DashboardSummary(interactions: seq<Interaction>, allQ: seq<QRow>, ratings: seq<RatingRow>)
    : (summary: Summary)
    ensures summary.uniqueStates <= summary.totalQEntries
    ensures |allQ| > 0 ==> Min(RlEngine.QValuesOf(allQ)) <= summary.avgQValue <= summary.maxQValue
    ensures forall q :: q in allQ ==> q.qValue <= summary.maxQValue
  {
    var values := RlEngine.QValuesOf(allQ);
    SummaryBounds(allQ);
    Summary(|interactions|, |allQ|, |Distinct(RlEngine.StatesOf(allQ))|, |ratings|,
            if |allQ| > 0 then RlEngine.Average(values) else 0.0,
            if |allQ| > 0 then Max(values) else 0.0,
            RlEngine.MaturityOf(|interactions|))
  }

  /** The dashboard counts at most 500 interactions while the learning statistics count them all, yet both
      report the same maturity stage: past 500 both are mature. Its mean Q-value and state count agree
      with the statistics too. */
  lemma SummaryAgreesWithStats(log: seq<Interaction>, qtable: seq<QRow>, ratings: seq<RatingRow>, user: string)
    ensures var summary := DashboardSummary(GetUserInteractions(log, user, 500), GetAllUserQValues(qtable, user),
                                            GetUserRatings(ratings, user));
      var stats := RlEngine.GetUserLearningStats(log, qtable, user);
      && summary.modelMaturity == stats.modelMaturity
      && summary.avgQValue == stats.avgQValue
      && summary.uniqueStates == stats.uniqueStatesLearned
      && summary.totalQEntries == stats.totalQEntries
  {
    var n := |UserLog(log, user)|;
    assert |GetUserInteractions(log, user, 500)| == if n < 500 then n else 500;
  }

  /** The bounds the summary reports: the mean lies between the smallest and the largest Q-value, the
      largest bounds every value, and there are no more states than entries. */
  lemma SummaryBounds(allQ: seq<QRow>)
    ensures |Distinct(RlEngine.StatesOf(allQ))| <= |allQ|
    ensures |allQ| > 0 ==> var values := RlEngine.QValuesOf(allQ);
      && Min(values) <= RlEngine.Average(values) <= Max(values)
      && forall q :: q in allQ ==> q.qValue <= Max(values)
  {
    var values := RlEngine.QValuesOf(allQ);
    if |allQ| > 0 {
      RlEngine.MinMaxBound(values);
      RlEngine.AverageWithin(values, Min(values), Max(values));
      forall q | q in allQ ensures q.qValue <= Max(values) {
        var k :| 0 <= k < |allQ| && allQ[k] == q;
        assert values[k] == q.qValue && values[k] in values;
      }
    }
  }
}
