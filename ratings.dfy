/** The star-rating distribution of the dashboard route (`ratingDist`). */
module Ratings {
  import opened Seqs
  import opened Store

  /** Five counters, one per star, starting at zero and raised by each rating from 1 to 5 in turn; a
      rating outside that range is skipped. */
  function StarTally(ratings: seq<RatingRow>): (r: seq<int>)
    ensures |r| == 5
  {
    if ratings == [] then [0, 0, 0, 0, 0]
    else
      var h, x := StarTally(ratings[..|ratings| - 1]), ratings[|ratings| - 1].rating;
      if 1 <= x <= 5 then h[x - 1 := h[x - 1] + 1] else h
  }

  /** `ratingDist`: five counters, one per star, raised for each rating between 1 and 5. */
  method RatingDistribution(ratings: seq<RatingRow>) returns (dist: seq<int>)
    ensures dist == StarTally(ratings)
  {
    var tally := new int[5](_ => 0);
    assert ratings[..0] == [];
    assert tally[..] == StarTally(ratings[..0]);
    for i := 0 to |ratings|
      invariant tally[..] == StarTally(ratings[..i])
    {
      var r := ratings[i].rating;
      StarTallyAppend(ratings, i);
      if r >= 1 && r <= 5 {
        ghost var before := tally[..];
        tally[r - 1] := tally[r - 1] + 1;
        assert tally[..] == before[r - 1 := before[r - 1] + 1];
      }
    }
    assert ratings[..|ratings|] == ratings;
    dist := tally[..];
  }

  lemma StarTallyAppend(ratings: seq<RatingRow>, i: nat)
    requires i < |ratings|
    ensures var h, r := StarTally(ratings[..i]), ratings[i].rating;
      StarTally(ratings[..i + 1]) == if 1 <= r <= 5 then h[r - 1 := h[r - 1] + 1] else h
  {
    assert ratings[..i + 1][..i] == ratings[..i];
  }

  function HasStars(stars: int): RatingRow -> bool
  {
    (r: RatingRow) => r.rating == stars
  }

  function IsStarRating(r: RatingRow): bool
  {
    1 <= r.rating <= 5
  }

  /** The `k`-th counter holds the number of ratings of `k + 1` stars. */
  lemma {:induction false} StarCounts(ratings: seq<RatingRow>, k: nat)
    requires k < 5
    ensures StarTally(ratings)[k] == |Filter(ratings, HasStars(k + 1))|
  {
    if ratings != [] {
      var init, x := ratings[..|ratings| - 1], ratings[|ratings| - 1];
      assert init + [x] == ratings;
      StarCounts(init, k);
      FilterAppend(init, x, HasStars(k + 1));
    }
  }

  /** The counters add up to the number of ratings from 1 to 5 stars, which the schema's check constraint
      makes every rating. */
  lemma RatingDistributionTotal(ratings: seq<RatingRow>)
    ensures Sum(StarTally(ratings)) == |Filter(ratings, IsStarRating)| <= |ratings|
    ensures (forall i :: 0 <= i < |ratings| ==> 1 <= ratings[i].rating <= 5) ==>
      Sum(StarTally(ratings)) == |ratings|
  {
    StarTallyTotal(ratings);
    SumOfFive(StarTally(ratings));
    if forall i :: 0 <= i < |ratings| ==> 1 <= ratings[i].rating <= 5 {
      FilterAll(ratings, IsStarRating);
    }
  }

  function Total(h: seq<int>): int
    requires |h| == 5
  {
    h[0] + h[1] + h[2] + h[3] + h[4]
  }

  lemma SumOfFive(h: seq<int>)
    requires |h| == 5
    ensures Sum(h) == Total(h)
  {
    assert h[..1][..0] == [] && h[..2][..1] == h[..1] && h[..3][..2] == h[..2] && h[..4][..3] == h[..3];
    assert Sum(h[..1]) == h[0];
    assert Sum(h[..2]) == h[0] + h[1];
    assert Sum(h[..3]) == h[0] + h[1] + h[2];
    assert Sum(h[..4]) == h[0] + h[1] + h[2] + h[3];
    assert h[..5] == h;
  }

  lemma {:induction false} StarTallyTotal(ratings: seq<RatingRow>)
    ensures Total(StarTally(ratings)) == |Filter(ratings, IsStarRating)|
  {
    if ratings != [] {
      var init, x := ratings[..|ratings| - 1], ratings[|ratings| - 1];
      assert init + [x] == ratings;
      StarTallyTotal(init);
      FilterAppend(init, x, IsStarRating);
    }
  }
}
