/** Sorting as the source relies on it: JavaScript's `Array.prototype.sort` is stable, so it is modelled by
    a stable insertion sort under a "may come first" relation, plus the code-unit order JavaScript uses when
    `sort()` is given no comparator. */
module Sorting {
  import opened Seqs

  /** `first(a, b)` holds when `a` may be placed before `b`: total and transitive. */
  ghost predicate TotalPreorder<T(!new)>(first: (T, T) -> bool)
  {
    && (forall x, y :: first(x, y) || first(y, x))
    && (forall x, y, z :: first(x, y) && first(y, z) ==> first(x, z))
  }

  predicate SortedBy<T>(s: seq<T>, first: (T, T) -> bool)
  {
    forall i, j :: 0 <= i < j < |s| ==> first(s[i], s[j])
  }

  lemma SortedPrefix<T>(s: seq<T>, n: nat, first: (T, T) -> bool)
    requires SortedBy(s, first) && n <= |s|
    ensures SortedBy(s[..n], first)
  {
  }

  /** Places `x` before the first element it may precede. Since `x` came earlier in the input than every
      element of `s`, equal elements keep their input order. */
  function Insert<T>(x: T, s: seq<T>, first: (T, T) -> bool): (r: seq<T>)
    ensures multiset(r) == multiset(s) + multiset{x}
    ensures |r| == |s| + 1
  {
    if s == [] || first(x, s[0]) then [x] + s
    else
      assert s == [s[0]] + s[1..];
      [s[0]] + Insert(x, s[1..], first)
  }

  function Sort<T>(s: seq<T>, first: (T, T) -> bool): (r: seq<T>)
    ensures multiset(r) == multiset(s)
    ensures |r| == |s|
  {
    if s == [] then []
    else
      assert s == [s[0]] + s[1..];
      Insert(s[0], Sort(s[1..], first), first)
  }

  lemma {:induction false} InsertSorted<T(!new)>(x: T, s: seq<T>, first: (T, T) -> bool)
    requires TotalPreorder(first) && SortedBy(s, first)
    ensures SortedBy(Insert(x, s, first), first)
  {
    if s == [] || first(x, s[0]) {
      var r := [x] + s;
      forall i, j | 0 <= i < j < |r| ensures first(r[i], r[j]) {
        if i == 0 && j > 1 {
          assert first(s[0], s[j - 1]);
        }
      }
    } else {
      InsertSorted(x, s[1..], first);
      var t := Insert(x, s[1..], first);
      forall y | y in t ensures first(s[0], y) {
        assert y in multiset(t);
        if y != x {
          var k :| 0 <= k < |s[1..]| && s[1..][k] == y;
          assert first(s[0], s[k + 1]);
        }
      }
      var r := [s[0]] + t;
      forall i, j | 0 <= i < j < |r| ensures first(r[i], r[j]) {
        if i == 0 {
          assert r[j] == t[j - 1] && t[j - 1] in t;
        } else {
          assert r[i] == t[i - 1] && r[j] == t[j - 1];
        }
      }
    }
  }

  /** The sort orders its output and keeps every element with its multiplicity. */
  lemma {:induction false} SortSorted<T(!new)>(s: seq<T>, first: (T, T) -> bool)
    requires TotalPreorder(first)
    ensures SortedBy(Sort(s, first), first)
  {
    if s != [] {
      SortSorted(s[1..], first);
      InsertSorted(s[0], Sort(s[1..], first), first);
    }
  }

  /** Any order-preserving selection from a sorted sequence is sorted. */
  lemma {:induction false} SubseqSorted<T>(b: seq<T>, a: seq<T>, first: (T, T) -> bool)
    requires SortedBy(a, first) && IsSubseq(b, a)
    ensures SortedBy(b, first)
    decreases |a|
  {
    if b != [] {
      if a[0] == b[0] {
        SubseqSorted(b[1..], a[1..], first);
        SubseqElements(b[1..], a[1..]);
        forall i, j | 0 <= i < j < |b| ensures first(b[i], b[j]) {
          if i == 0 {
            assert b[j] in b[1..];
            var k :| 0 <= k < |a[1..]| && a[1..][k] == b[j];
            assert first(a[0], a[k + 1]);
          } else {
            assert b[i] == b[1..][i - 1] && b[j] == b[1..][j - 1];
          }
        }
      } else {
        SubseqSorted(b, a[1..], first);
      }
    }
  }

  /** A prefix of a sorted sequence holds the leading elements: whatever is left out may not precede any
      element kept. */
  lemma TopPrefix<T>(s: seq<T>, k: nat, c: T, first: (T, T) -> bool)
    requires SortedBy(s, first) && k <= |s| && c in s && c !in s[..k]
    ensures forall i :: 0 <= i < k ==> first(s[i], c)
  {
    var j :| 0 <= j < |s| && s[j] == c;
    assert j >= k;
  }

  /** Larger count first, as `(a, b) => b[1] - a[1]` orders `[key, count]` entries. */
  predicate CountFirst<T>(a: (T, nat), b: (T, nat))
  {
    a.1 >= b.1
  }

  lemma CountFirstTotal<T(!new)>()
    ensures TotalPreorder(CountFirst<T>)
  {
  }

  /** Group, count, order by count descending and keep the first `limit` groups (`GROUP BY key ORDER BY
      cnt DESC LIMIT limit`). Every group carries its true count. */
  function TopGroups<T(==,!new)>(keys: seq<T>, limit: nat): (r: seq<(T, nat)>)
    ensures |r| == if limit < |Distinct(keys)| then limit else |Distinct(keys)|
    ensures SortedBy(r, CountFirst)
    ensures forall g :: g in r ==> g.0 in keys && g.1 == multiset(keys)[g.0]
    ensures forall i, j :: 0 <= i < j < |r| ==> r[i].0 != r[j].0
  {
    var sorted := SortedGroups(keys);
    var r := SliceTo(sorted, limit);
    SortedPrefix(sorted, |r|, CountFirst);
    assert forall i :: 0 <= i < |r| ==> r[i] == sorted[i];
    r
  }

  /** The groups of `keys`, largest count first: one per distinct key, with its true count. */
  function SortedGroups<T(==,!new)>(keys: seq<T>): (r: seq<(T, nat)>)
    ensures |r| == |Distinct(keys)|
    ensures SortedBy(r, CountFirst)
    ensures forall i :: 0 <= i < |r| ==> r[i].0 in keys && r[i].1 == multiset(keys)[r[i].0]
    ensures forall i, j :: 0 <= i < j < |r| ==> r[i].0 != r[j].0
    ensures forall x :: x in keys ==> exists i :: 0 <= i < |r| && r[i].0 == x
  {
    var groups := GroupCount(keys);
    CountFirstTotal<T>();
    SortSorted(groups, CountFirst);
    var sorted := Sort(groups, CountFirst);
    ReorderedGroups(keys, sorted);
    sorted
  }

  /** Any reordering of the groups keeps one group per key, each with its true count. */
  lemma ReorderedGroups<T(!new)>(keys: seq<T>, sorted: seq<(T, nat)>)
    requires multiset(sorted) == multiset(GroupCount(keys))
    ensures forall i :: 0 <= i < |sorted| ==> sorted[i].0 in keys && sorted[i].1 == multiset(keys)[sorted[i].0]
    ensures forall i, j :: 0 <= i < j < |sorted| ==> sorted[i].0 != sorted[j].0
    ensures forall x :: x in keys ==> exists i :: 0 <= i < |sorted| && sorted[i].0 == x
  {
    var groups := GroupCount(keys);
    assert forall i :: 0 <= i < |sorted| ==> sorted[i] in multiset(groups);
    assert NoDuplicates(sorted) by {
      assert NoDuplicates(groups);
      PermutationKeepsNoDuplicates(groups, sorted);
    }
    forall x | x in keys ensures exists i :: 0 <= i < |sorted| && sorted[i].0 == x {
      var k :| 0 <= k < |groups| && groups[k].0 == x;
      assert groups[k] in multiset(sorted);
    }
  }

  /** A key left out of `TopGroups` occurs no more often than any key kept, and nothing is left out when
      room remains. */
  lemma TopGroupsAreTop<T(!new)>(keys: seq<T>, limit: nat, x: T)
    requires x in keys
    ensures var r := TopGroups(keys, limit);
      && (limit > 0 ==> |r| > 0)
      && ((forall g :: g in r ==> g.0 != x) ==> |r| == limit && forall g :: g in r ==> g.1 >= multiset(keys)[x])
  {
    var sorted := SortedGroups(keys);
    var r := TopGroups(keys, limit);
    assert r == SliceTo(sorted, limit);
    var i :| 0 <= i < |sorted| && sorted[i].0 == x;
    if forall g :: g in r ==> g.0 != x {
      assert sorted[i] !in r;
      TopPrefix(sorted, |r|, sorted[i], CountFirst);
    }
  }

  /** The head of the stable sort is the first element of the input that no earlier element may precede. */
  lemma {:induction false} SortHead<T>(s: seq<T>, first: (T, T) -> bool) returns (k: nat)
    requires s != []
    ensures k < |s| && s[k] == Sort(s, first)[0] && forall j :: 0 <= j < k ==> !first(s[j], s[k])
  {
    var t := Sort(s[1..], first);
    assert Sort(s, first) == Insert(s[0], t, first);
    InsertHead(s[0], t, first);
    if t == [] || first(s[0], t[0]) {
      k := 0;
    } else {
      var i := SortHead(s[1..], first);
      NoneBeforeInTail(s, i, first);
      k := i + 1;
    }
  }

  lemma InsertHead<T>(x: T, t: seq<T>, first: (T, T) -> bool)
    ensures Insert(x, t, first)[0] == if t == [] || first(x, t[0]) then x else t[0]
  {
  }

  lemma NoneBeforeInTail<T>(s: seq<T>, k: nat, first: (T, T) -> bool)
    requires k + 1 < |s| && !first(s[0], s[k + 1])
    requires forall j :: 0 <= j < k ==> !first(s[1..][j], s[1..][k])
    ensures forall j :: 0 <= j < k + 1 ==> !first(s[j], s[k + 1])
  {
    forall j | 0 <= j < k + 1 ensures !first(s[j], s[k + 1]) {
      if j > 0 {
        assert s[j] == s[1..][j - 1];
      }
    }
  }

  /** String order by character code (JavaScript's default `sort()` order on code units). */
  predicate LexFirst(a: string, b: string)
  {
    |a| == 0 || (|b| > 0 && (a[0] < b[0] || (a[0] == b[0] && LexFirst(a[1..], b[1..]))))
  }

  lemma {:induction false} LexTotal(a: string, b: string)
    ensures LexFirst(a, b) || LexFirst(b, a)
  {
    if |a| > 0 && |b| > 0 && a[0] == b[0] {
      LexTotal(a[1..], b[1..]);
    }
  }

  lemma {:induction false} LexTransitive(a: string, b: string, c: string)
    requires LexFirst(a, b) && LexFirst(b, c)
    ensures LexFirst(a, c)
  {
    if |a| > 0 && a[0] == b[0] && b[0] == c[0] {
      LexTransitive(a[1..], b[1..], c[1..]);
    }
  }

  lemma {:induction false} LexAntisymmetric(a: string, b: string)
    requires LexFirst(a, b) && LexFirst(b, a)
    ensures a == b
  {
    if |a| > 0 {
      LexAntisymmetric(a[1..], b[1..]);
      assert a == [a[0]] + a[1..] && b == [b[0]] + b[1..];
    }
  }

  lemma LexTotalPreorder()
    ensures TotalPreorder(LexFirst)
  {
    forall x, y ensures LexFirst(x, y) || LexFirst(y, x) {
      LexTotal(x, y);
    }
    forall x, y, z | LexFirst(x, y) && LexFirst(y, z) ensures LexFirst(x, z) {
      LexTransitive(x, y, z);
    }
  }

  /** Sorting distinct strings yields a strictly increasing sequence. */
  lemma SortedDistinctStrictly(s: seq<string>)
    requires SortedBy(s, LexFirst) && NoDuplicates(s)
    ensures forall i, j :: 0 <= i < j < |s| ==> LexFirst(s[i], s[j]) && !LexFirst(s[j], s[i])
  {
    forall i, j | 0 <= i < j < |s| ensures !LexFirst(s[j], s[i]) {
      if LexFirst(s[j], s[i]) {
        LexAntisymmetric(s[i], s[j]);
      }
    }
  }
}
