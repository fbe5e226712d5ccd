/** Sequence helpers shared by the model: filtering, first-seen de-duplication, sums and JavaScript's
    `slice(0, end)`. */
module Seqs {

  /** `Array.prototype.filter`: the elements of `s` that satisfy `p`, in order. */
  function Filter<T(!new)>(s: seq<T>, p: T -> bool): (r: seq<T>)
    ensures |r| <= |s|
    ensures forall x :: x in r <==> x in s && p(x)
    ensures forall i :: 0 <= i < |r| ==> p(r[i])
  {
    if s == [] then []
    else if p(s[0]) then [s[0]] + Filter(s[1..], p)
    else Filter(s[1..], p)
  }

  /** Filtering distributes over concatenation. */
  lemma {:induction false} FilterConcat<T(!new)>(a: seq<T>, b: seq<T>, p: T -> bool)
    ensures Filter(a + b, p) == Filter(a, p) + Filter(b, p)
  {
    if a == [] {
      assert a + b == b;
    } else {
      assert (a + b)[0] == a[0] && (a + b)[1..] == a[1..] + b;
      FilterConcat(a[1..], b, p);
    }
  }

  /** Filtering keeps every occurrence of an element that satisfies the predicate and none of another. */
  lemma {:induction false} FilterMultiplicity<T(!new)>(s: seq<T>, p: T -> bool, x: T)
    ensures multiset(Filter(s, p))[x] == if p(x) then multiset(s)[x] else 0
  {
    if s != [] {
      FilterMultiplicity(s[1..], p, x);
      assert s == [s[0]] + s[1..];
    }
  }

  /** Filtering two orderings of the same elements keeps the same elements. */
  lemma FilterPermutation<T(!new)>(a: seq<T>, b: seq<T>, p: T -> bool)
    requires multiset(a) == multiset(b)
    ensures multiset(Filter(a, p)) == multiset(Filter(b, p))
    ensures |Filter(a, p)| == |Filter(b, p)|
  {
    forall x ensures multiset(Filter(a, p))[x] == multiset(Filter(b, p))[x] {
      FilterMultiplicity(a, p, x);
      FilterMultiplicity(b, p, x);
    }
    assert multiset(Filter(a, p)) == multiset(Filter(b, p));
    assert |multiset(Filter(a, p))| == |Filter(a, p)|;
    assert |multiset(Filter(b, p))| == |Filter(b, p)|;
  }

  /** `a` is an order-preserving subsequence of `b`. */
  predicate IsSubseq<T(==)>(a: seq<T>, b: seq<T>)
  {
    if a == [] then true
    else if b == [] then false
    else if a[0] == b[0] then IsSubseq(a[1..], b[1..])
    else IsSubseq(a, b[1..])
  }

  /** Filtering by a predicate every element meets keeps everything. */
  lemma {:induction false} FilterAll<T(!new)>(s: seq<T>, p: T -> bool)
    requires forall i :: 0 <= i < |s| ==> p(s[i])
    ensures Filter(s, p) == s
  {
    if s != [] {
      FilterAll(s[1..], p);
      assert s == [s[0]] + s[1..];
    }
  }

  lemma {:induction false} FilterIsSubseq<T(!new)>(s: seq<T>, p: T -> bool)
    ensures IsSubseq(Filter(s, p), s)
  {
    if s != [] {
      FilterIsSubseq(s[1..], p);
      if !p(s[0]) {
        SubseqDropHead(Filter(s[1..], p), s);
      }
    }
  }

  /** A subsequence of the tail is a subsequence of the whole. */
  lemma {:induction false} SubseqDropHead<T>(a: seq<T>, b: seq<T>)
    requires b != [] && IsSubseq(a, b[1..])
    ensures IsSubseq(a, b)
    decreases |b|, 0
  {
    if a != [] && a[0] != b[0] {
    } else if a != [] {
      // a[0] == b[0]: a[1..] is a subsequence of b[1..] because a is
      SubseqTail(a, b[1..]);
    }
  }

  /** Dropping the head of a subsequence keeps it a subsequence. */
  lemma {:induction false} SubseqTail<T>(a: seq<T>, b: seq<T>)
    requires a != [] && IsSubseq(a, b)
    ensures IsSubseq(a[1..], b)
    decreases |b|, 1
  {
    assert b != [];
    if a[0] == b[0] {
      SubseqDropHead(a[1..], b);
    } else {
      SubseqTail(a, b[1..]);
      SubseqDropHead(a[1..], b);
    }
  }

  lemma {:induction false} SubseqTransitive<T>(a: seq<T>, b: seq<T>, c: seq<T>)
    requires IsSubseq(a, b) && IsSubseq(b, c)
    ensures IsSubseq(a, c)
    decreases |c|
  {
    if a != [] {
      assert b != [] && c != [];
      if b[0] == c[0] {
        if a[0] == b[0] {
          SubseqTransitive(a[1..], b[1..], c[1..]);
        } else {
          SubseqTransitive(a, b[1..], c[1..]);
          SubseqDropHead(a, c);
        }
      } else {
        SubseqTransitive(a, b, c[1..]);
        SubseqDropHead(a, c);
      }
    }
  }

  lemma {:induction false} SubseqElements<T>(a: seq<T>, b: seq<T>)
    requires IsSubseq(a, b)
    ensures forall x :: x in a ==> x in b
    decreases |b|
  {
    if a != [] {
      assert forall x :: x in a ==> x == a[0] || x in a[1..];
      if a[0] == b[0] {
        SubseqElements(a[1..], b[1..]);
      } else {
        SubseqElements(a, b[1..]);
      }
    }
  }

  lemma {:induction false} SubseqReflexive<T>(a: seq<T>)
    ensures IsSubseq(a, a)
  {
    if a != [] {
      SubseqReflexive(a[1..]);
    }
  }

  predicate NoDuplicates<T(==)>(s: seq<T>)
  {
    forall i, j :: 0 <= i < j < |s| ==> s[i] != s[j]
  }

  /** The distinct elements of `s` in order of first appearance (what a JavaScript `Set` or the keys of a
      freshly built object iterate in). */
  function Distinct<T(==,!new)>(s: seq<T>): (r: seq<T>)
    ensures forall x :: x in r <==> x in s
    ensures NoDuplicates(r)
    ensures |r| <= |s|
    ensures forall i, j :: 0 <= i < j < |r| ==> IndexOf(s, r[i]) < IndexOf(s, r[j])
  {
    if s == [] then []
    else
      var init, x := s[..|s| - 1], s[|s| - 1];
      assert s == init + [x];
      var d := Distinct(init);
      forall y | y in init ensures IndexOf(s, y) == IndexOf(init, y) {
        IndexOfAppend(init, x, y);
      }
      if x in d then d
      else
        IndexOfLast(init, x);
        d + [x]
  }

  /** Appending an element does not move the first occurrence of one already present. */
  lemma {:induction false} IndexOfAppend<T>(s: seq<T>, x: T, y: T)
    requires y in s
    ensures IndexOf(s + [x], y) == IndexOf(s, y)
  {
    if s[0] != y {
      assert (s + [x])[1..] == s[1..] + [x];
      IndexOfAppend(s[1..], x, y);
    }
  }

  /** An element new to `s` first occurs after all of `s` once appended. */
  lemma {:induction false} IndexOfLast<T>(s: seq<T>, x: T)
    requires x !in s
    ensures IndexOf(s + [x], x) == |s|
  {
    if s != [] {
      assert (s + [x])[1..] == s[1..] + [x];
      IndexOfLast(s[1..], x);
    }
  }

  /** One more element extends the distinct elements when it is new. */
  lemma DistinctAppend<T(!new)>(s: seq<T>, x: T)
    ensures Distinct(s + [x]) == if x in Distinct(s) then Distinct(s) else Distinct(s) + [x]
  {
    assert (s + [x])[..|s|] == s;
  }

  /** No duplicates means every element occurs at most once. */
  lemma NoDuplicatesMultiset<T>(s: seq<T>)
    ensures NoDuplicates(s) <==> forall x :: multiset(s)[x] <= 1
  {
    if NoDuplicates(s) {
      NoDuplicatesAtMostOnce(s);
    }
    if forall x :: multiset(s)[x] <= 1 {
      forall i, j | 0 <= i < j < |s| ensures s[i] != s[j] {
        if s[i] == s[j] {
          TwoPositions(s, i, j);
        }
      }
    }
  }

  lemma {:induction false} NoDuplicatesAtMostOnce<T>(s: seq<T>)
    requires NoDuplicates(s)
    ensures forall x :: multiset(s)[x] <= 1
  {
    if s != [] {
      var t := s[1..];
      assert s == [s[0]] + t;
      assert NoDuplicates(t) by {
        forall i, j | 0 <= i < j < |t| ensures t[i] != t[j] {
          assert t[i] == s[i + 1] && t[j] == s[j + 1];
        }
      }
      NoDuplicatesAtMostOnce(t);
      assert s[0] !in t by {
        forall j | 0 <= j < |t| ensures t[j] != s[0] {
          assert t[j] == s[j + 1];
        }
      }
      forall x ensures multiset(s)[x] <= 1 {
        assert multiset(s)[x] == multiset([s[0]])[x] + multiset(t)[x];
      }
    }
  }

  /** An element at two positions occurs at least twice. */
  lemma TwoPositions<T>(s: seq<T>, i: nat, j: nat)
    requires i < j < |s| && s[i] == s[j]
    ensures multiset(s)[s[i]] >= 2
  {
    assert s == s[..j] + s[j..];
    assert s[i] in s[..j];
    assert s[j] in s[j..];
  }

  /** Two sequences with the same elements counted with multiplicity agree on having duplicates. */
  lemma PermutationKeepsNoDuplicates<T>(a: seq<T>, b: seq<T>)
    requires multiset(a) == multiset(b) && NoDuplicates(a)
    ensures NoDuplicates(b)
  {
    NoDuplicatesMultiset(a);
    NoDuplicatesMultiset(b);
  }

  function Sum(s: seq<int>): int
  {
    if s == [] then 0 else Sum(s[..|s| - 1]) + s[|s| - 1]
  }

  function SumReal(s: seq<real>): real
  {
    if s == [] then 0.0 else SumReal(s[..|s| - 1]) + s[|s| - 1]
  }

  /** `GROUP BY` with `COUNT(*)`: each distinct element once, in order of first appearance, paired with
      the number of times it occurs. */
  function GroupCount<T(==,!new)>(s: seq<T>): (r: seq<(T, nat)>)
    ensures |r| == |Distinct(s)|
    ensures forall i :: 0 <= i < |r| ==> r[i].0 in s && r[i].1 == multiset(s)[r[i].0] && r[i].1 > 0
    ensures forall x :: x in s ==> exists i :: 0 <= i < |r| && r[i].0 == x
    ensures forall i, j :: 0 <= i < j < |r| ==> r[i].0 != r[j].0
  {
    var d := Distinct(s);
    var r := seq(|d|, i requires 0 <= i < |d| => (d[i], multiset(s)[d[i]]));
    assert forall i :: 0 <= i < |r| ==> r[i].0 == d[i] && d[i] in d && r[i].1 == multiset(s)[d[i]];
    assert forall x :: x in s ==> r[IndexOf(d, x)].0 == x;
    r
  }

  function IndexOf<T(==)>(s: seq<T>, x: T): (i: nat)
    requires x in s
    ensures i < |s| && s[i] == x
  {
    if s[0] == x then 0 else 1 + IndexOf(s[1..], x)
  }

  /** The counts of the groups, in group order. */
  function Counts<T>(groups: seq<(T, nat)>): (r: seq<int>)
    ensures |r| == |groups|
  {
    seq(|groups|, i requires 0 <= i < |groups| => groups[i].1 as int)
  }

  /** The counts of the groups add up to the number of elements grouped. */
  lemma GroupCountTotal<T(!new)>(s: seq<T>)
    ensures Sum(Counts(GroupCount(s))) == |s|
  {
    assert Counts(GroupCount(s)) == OccurrenceCounts(Distinct(s), s);
    DistinctCountsTotal(s);
  }

  lemma {:induction false} DistinctCountsTotal<T(!new)>(s: seq<T>)
    ensures Sum(OccurrenceCounts(Distinct(s), s)) == |s|
  {
    if s != [] {
      var init := s[..|s| - 1];
      var x := s[|s| - 1];
      assert init + [x] == s;
      DistinctCountsTotal(init);
      var d := Distinct(init);
      CountsAppend(d, init, x);
      if x !in d {
        var full := OccurrenceCounts(d + [x], s);
        assert full[..|full| - 1] == OccurrenceCounts(d, s);
        assert multiset(init)[x] == 0;
      }
    }
  }

  /** How often each of `keys` occurs in `s`. */
  function OccurrenceCounts<T(==)>(keys: seq<T>, s: seq<T>): (r: seq<int>)
    ensures |r| == |keys|
  {
    seq(|keys|, i requires 0 <= i < |keys| => multiset(s)[keys[i]])
  }

  /** Appending `x` to the counted sequence raises the total by one if `x` is among the keys. */
  lemma {:induction false} CountsAppend<T>(keys: seq<T>, s: seq<T>, x: T)
    requires NoDuplicates(keys)
    ensures Sum(OccurrenceCounts(keys, s + [x])) == Sum(OccurrenceCounts(keys, s)) + if x in keys then 1 else 0
  {
    if keys != [] {
      var init := keys[..|keys| - 1];
      var k := keys[|keys| - 1];
      CountsAppend(init, s, x);
      assert OccurrenceCounts(keys, s + [x])[..|init|] == OccurrenceCounts(init, s + [x]);
      assert OccurrenceCounts(keys, s)[..|init|] == OccurrenceCounts(init, s);
      assert multiset(s + [x]) == multiset(s) + multiset{x};
      assert x in keys <==> x in init || x == k;
      assert k !in init;
    }
  }

  /** A sequence of zeros sums to zero. */
  lemma {:induction false} SumZeros(s: seq<int>)
    requires forall i :: 0 <= i < |s| ==> s[i] == 0
    ensures Sum(s) == 0
  {
    if s != [] {
      SumZeros(s[..|s| - 1]);
    }
  }

  /** Incrementing one entry raises the sum by one. */
  lemma {:induction false} SumIncrement(s: seq<int>, k: nat)
    requires k < |s|
    ensures Sum(s[k := s[k] + 1]) == Sum(s) + 1
  {
    var t := s[k := s[k] + 1];
    if k < |s| - 1 {
      assert t[..|t| - 1] == s[..|s| - 1][k := s[k] + 1];
      SumIncrement(s[..|s| - 1], k);
    } else {
      assert t[..|t| - 1] == s[..|s| - 1];
    }
  }

  /** A prefix one longer is the prefix plus the next element. */
  lemma TakeOneMore<T>(s: seq<T>, i: nat)
    requires i < |s|
    ensures s[..i + 1] == s[..i] + [s[i]]
  {
  }

  /** `array.slice(0, end)`: a negative end counts from the back. */
  function SliceTo<T>(s: seq<T>, end: int): (r: seq<T>)
    ensures end >= 0 ==> |r| == if end < |s| then end else |s|
    ensures end < 0 ==> |r| == if |s| + end > 0 then |s| + end else 0
    ensures r == s[..|r|]
  {
    var e := if end < 0 then |s| + end else end;
    if e <= 0 then [] else if e < |s| then s[..e] else s
  }

  /** A slice keeps no element more often than the whole sequence. */
  lemma SliceSubMultiset<T>(s: seq<T>, end: int)
    ensures multiset(SliceTo(s, end)) <= multiset(s)
  {
    var r := SliceTo(s, end);
    assert s == r + s[|r|..];
  }

  /** Filtering keeps no element more often than the input holds it. */
  lemma FilterSubMultiset<T(!new)>(s: seq<T>, p: T -> bool)
    ensures multiset(Filter(s, p)) <= multiset(s)
  {
    forall x ensures multiset(Filter(s, p))[x] <= multiset(s)[x] {
      FilterMultiplicity(s, p, x);
    }
  }

  /** `array.map(f)`. */
  function Map<A, B>(s: seq<A>, f: A -> B): (r: seq<B>)
    ensures |r| == |s|
  {
    if s == [] then [] else [f(s[0])] + Map(s[1..], f)
  }

  /** The mapped sequence holds the image of each element at its position. */
  lemma {:induction false} MapAt<A, B>(s: seq<A>, f: A -> B)
    ensures forall i :: 0 <= i < |s| ==> Map(s, f)[i] == f(s[i])
  {
    if s != [] {
      assert forall x :: x in s[1..] ==> x in s;
      MapAt(s[1..], f);
    }
  }

  /** Mapping two orderings of the same elements gives two orderings of the same images. */
  lemma {:induction false} MapPermutation<A, B>(a: seq<A>, b: seq<A>, f: A -> B)
    requires multiset(a) == multiset(b)
    ensures multiset(Map(a, f)) == multiset(Map(b, f))
    decreases |a|
  {
    if a != [] {
      assert a[0] in multiset(b);
      var k :| 0 <= k < |b| && b[k] == a[0];
      var rest := RemoveAt(b, k);
      assert a == [a[0]] + a[1..];
      MultisetCancel(multiset(a[1..]), multiset(rest), a[0]);
      MapPermutation(a[1..], rest, f);
      MapRemoveAt(b, k, f);
      assert multiset(Map(a, f)) == multiset{f(a[0])} + multiset(Map(a[1..], f)) by {
        assert Map(a, f) == [f(a[0])] + Map(a[1..], f);
      }
    } else {
      assert |b| == |multiset(b)| == 0;
    }
  }

  /** Taking one occurrence of `c` away from two equal multisets leaves them equal. */
  lemma MultisetCancel<A>(x: multiset<A>, y: multiset<A>, c: A)
    requires multiset{c} + x == multiset{c} + y
    ensures x == y
  {
    assert forall e :: x[e] == (multiset{c} + x)[e] - multiset{c}[e];
    assert forall e :: y[e] == (multiset{c} + y)[e] - multiset{c}[e];
  }

  /** `b` without its element at `k`. */
  function RemoveAt<A>(b: seq<A>, k: nat): (r: seq<A>)
    requires k < |b|
    ensures multiset(b) == multiset{b[k]} + multiset(r)
    ensures forall x :: x in r ==> x in b
  {
    assert b == b[..k] + [b[k]] + b[k + 1..];
    b[..k] + b[k + 1..]
  }

  /** Mapping commutes with removing one element. */
  lemma MapRemoveAt<A, B>(b: seq<A>, k: nat, f: A -> B)
    requires k < |b|
    ensures multiset(Map(b, f)) == multiset{f(b[k])} + multiset(Map(RemoveAt(b, k), f))
  {
    var front, back := b[..k], b[k + 1..];
    var mid, rest := Map(front, f), Map(back, f);
    assert Map(b, f) == mid + ([f(b[k])] + rest) by {
      SplitAt(b, k);
      MapConcat(front, [b[k]] + back, f);
      assert ([b[k]] + back)[1..] == back;
    }
    assert Map(RemoveAt(b, k), f) == mid + rest by {
      MapConcat(front, back, f);
    }
    assert multiset(mid + ([f(b[k])] + rest)) == multiset(mid) + (multiset{f(b[k])} + multiset(rest));
  }

  /** A sequence is what comes before position `k`, its element there, and what comes after. */
  lemma SplitAt<A>(b: seq<A>, k: nat)
    requires k < |b|
    ensures b == b[..k] + ([b[k]] + b[k + 1..])
  {
  }

  /** Mapping distributes over concatenation. */
  lemma {:induction false} MapConcat<A, B>(a: seq<A>, b: seq<A>, f: A -> B)
    ensures Map(a + b, f) == Map(a, f) + Map(b, f)
  {
    if a == [] {
      assert a + b == b;
    } else {
      assert (a + b)[1..] == a[1..] + b;
      MapConcat(a[1..], b, f);
    }
  }

  /** The largest element of a non-empty sequence (`Math.max(...s)`). */
  function Max(s: seq<real>): (m: real)
    requires |s| > 0
    ensures m in s
    ensures forall x :: x in s ==> x <= m
  {
    if |s| == 1 then s[0]
    else
      var rest := Max(s[1..]);
      assert forall x :: x in s ==> x == s[0] || x in s[1..];
      if s[0] >= rest then s[0] else rest
  }

  /** The smallest element of a non-empty sequence (`Math.min(...s)`). */
  function Min(s: seq<real>): (m: real)
    requires |s| > 0
    ensures m in s
    ensures forall x :: x in s ==> m <= x
  {
    if |s| == 1 then s[0]
    else
      var rest := Min(s[1..]);
      assert forall x :: x in s ==> x == s[0] || x in s[1..];
      if s[0] <= rest then s[0] else rest
  }
}
