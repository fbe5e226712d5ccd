/** The content-based recommender of the browser client: catalogue filters, the four-factor similarity
    score with its explanation, the two ranked recommenders and the sorting helpers. */
module ContentEngine {
  import opened Wrappers
  import opened Seqs
  import opened Sorting
  import opened Text
  import opened Catalogue

  // ---------------------------------------------------------------------------------------------
  // Filters

  /** A number JavaScript treats as false: absent (`undefined`, `null`, `NaN`) or zero. */
  predicate Falsy(n: Option<int>)
  {
    n.None? || n.value == 0
  }

  /** The age filter is switched off for a falsy age and for ages of 120 and over. */
  predicate AgeFilterOff(userAge: Option<int>)
  {
    Falsy(userAge) || userAge.value >= 120
  }

  predicate PassesAgeFilter(m: Movie, userAge: Option<int>)
  {
    AgeFilterOff(userAge) || m.ageLimit <= userAge.value
  }

  /** `applyAgeFilter`: the movies whose age limit does not exceed the user's age, in catalogue order. */
  function ApplyAgeFilter(movies: seq<Movie>, userAge: Option<int>): (r: seq<Movie>)
    ensures AgeFilterOff(userAge) ==> r == movies
    ensures forall m :: m in r <==> m in movies && PassesAgeFilter(m, userAge)
    ensures IsSubseq(r, movies)
  {
    if AgeFilterOff(userAge) then
      SubseqReflexive(movies);
      movies
    else
      var age := userAge.value;
      var p := (m: Movie) => age >= m.ageLimit;
      FilterIsSubseq(movies, p);
      Filter(movies, p)
  }

  /** A genre criterion is inactive when empty or `'All'`. */
  predicate GenreOk(m: Movie, genre: string)
  {
    genre == "" || genre == "All" || genre in m.genres
  }

  /** `getByGenre`. */
  function GetByGenre(movies: seq<Movie>, genre: string): (r: seq<Movie>)
    ensures genre == "" || genre == "All" ==> r == movies
    ensures forall m :: m in r <==> m in movies && GenreOk(m, genre)
    ensures IsSubseq(r, movies)
  {
    if genre == "" || genre == "All" then
      SubseqReflexive(movies);
      movies
    else
      var p := (m: Movie) => genre in m.genres;
      FilterIsSubseq(movies, p);
      Filter(movies, p)
  }

  /** The experience criterion is compared lower-cased with the movie's experience type. */
  predicate ExperienceOk(m: Movie, exp: string)
  {
    exp == "" || exp == "All" || m.experience == ToLower(exp)
  }

  /** `getByExperience`. */
  function GetByExperience(movies: seq<Movie>, exp: string): (r: seq<Movie>)
    ensures exp == "" || exp == "All" ==> r == movies
    ensures forall m :: m in r <==> m in movies && ExperienceOk(m, exp)
    ensures IsSubseq(r, movies)
  {
    if exp == "" || exp == "All" then
      SubseqReflexive(movies);
      movies
    else
      var want := ToLower(exp);
      var p := (m: Movie) => m.experience == want;
      FilterIsSubseq(movies, p);
      Filter(movies, p)
  }

  /** `getByCategory`: the movies carrying the tag. */
  function GetByCategory(movies: seq<Movie>, tag: string): (r: seq<Movie>)
    ensures forall m :: m in r <==> m in movies && tag in m.tags
    ensures IsSubseq(r, movies)
  {
    var p := (m: Movie) => tag in m.tags;
    FilterIsSubseq(movies, p);
    Filter(movies, p)
  }

  /** Case-insensitive title search; an empty query matches everything. */
  predicate TitleOk(m: Movie, query: string)
  {
    query == "" || Contains(ToLower(m.title), ToLower(query))
  }

  /** `searchByTitle`. */
  function SearchByTitle(movies: seq<Movie>, query: string): (r: seq<Movie>)
    ensures query == "" ==> r == movies
    ensures forall m :: m in r <==> m in movies && TitleOk(m, query)
    ensures IsSubseq(r, movies)
  {
    if query == "" then
      SubseqReflexive(movies);
      movies
    else
      var q := ToLower(query);
      var p := (m: Movie) => Contains(ToLower(m.title), q);
      FilterIsSubseq(movies, p);
      Filter(movies, p)
  }

  /** The criteria of `filterMovies`; an absent criterion is the empty string. */
  datatype Criteria = Criteria(genre: string, experience: string, query: string)

  /** `filterMovies`: genre, then experience, then title. The result keeps exactly the movies passing all
      three checks, in catalogue order. */
  function FilterMovies(movies: seq<Movie>, c: Criteria): (r: seq<Movie>)
    ensures forall m :: m in r <==>
      m in movies && GenreOk(m, c.genre) && ExperienceOk(m, c.experience) && TitleOk(m, c.query)
    ensures IsSubseq(r, movies)
    ensures c == Criteria("", "", "") ==> r == movies
  {
    var byGenre := GetByGenre(movies, c.genre);
    var byExp := GetByExperience(byGenre, c.experience);
    var r := SearchByTitle(byExp, c.query);
    SubseqTransitive(byExp, byGenre, movies);
    SubseqTransitive(r, byExp, movies);
    r
  }

  /** `getByPlatform`: the movies available on the named platform. */
  function GetByPlatform(movies: seq<Movie>, platform: string): (r: seq<Movie>)
    ensures forall m :: m in r <==> m in movies && platform in m.platforms
    ensures IsSubseq(r, movies)
  {
    var p := (m: Movie) => platform in m.platforms;
    FilterIsSubseq(movies, p);
    Filter(movies, p)
  }

  // ---------------------------------------------------------------------------------------------
  // Similarity

  /** The similarity result with its per-factor breakdown and reason fragments. */
  datatype Similarity = Similarity(
    total: real, genreScore: real, experienceScore: real, ratingScore: real, popularityScore: real,
    reasons: seq<string>)

  function Abs(x: real): real
  {
    if x < 0.0 then -x else x
  }

  predicate SharesGenre(a: Movie, b: Movie)
  {
    exists g :: g in a.genres && g in b.genres
  }

  const SimilarRating := "similar rating"
  const SimilarPopularity := "similar popularity"

  /** The reason fragments a pair of distinct movies produces, in the order the factors are checked. */
  function SimilarityReasons(a: Movie, b: Movie, ratingScore: real, popularityScore: real): seq<string>
  {
    MatchReasons(a, b)
    + (if ratingScore >= 0.85 then [SimilarRating] else [])
    + (if popularityScore >= 0.85 then [SimilarPopularity] else [])
  }

  /** The fragments for a shared genre and for the same experience type. */
  function MatchReasons(a: Movie, b: Movie): (r: seq<string>)
    ensures forall x :: x in r ==> |x| > 1 && x[1] != 'i'
  {
    var shared := Filter(a.genres, g => g in b.genres);
    (if |shared| > 0 then [GenreFragment(shared)] else [])
    + (if a.experience == b.experience then [ExperienceFragment(a.experience)] else [])
  }

  function GenreFragment(shared: seq<string>): string
  {
    "shares genre (" + Join(shared, ", ") + ")"
  }

  function ExperienceFragment(experience: string): string
  {
    "same experience type (" + experience + ")"
  }

  /** Neither flag fragment is a genre or experience fragment, and the two flags differ. */
  lemma FlagFragmentsDistinct(m: seq<string>)
    requires forall x :: x in m ==> |x| > 1 && x[1] != 'i'
    ensures SimilarRating !in m && SimilarPopularity !in m
    ensures SimilarRating != SimilarPopularity
  {
    assert SimilarRating[1] == 'i' && SimilarPopularity[1] == 'i';
    assert SimilarRating[8] != SimilarPopularity[8];
  }

  /** "similar rating" and "similar popularity" are given exactly when those factors reach 0.85. */
  lemma SimilarityReasonFlags(a: Movie, b: Movie, ratingScore: real, popularityScore: real)
    ensures SimilarRating in SimilarityReasons(a, b, ratingScore, popularityScore) <==> ratingScore >= 0.85
    ensures SimilarPopularity in SimilarityReasons(a, b, ratingScore, popularityScore) <==> popularityScore >= 0.85
  {
    var m := MatchReasons(a, b);
    FlagFragmentsDistinct(m);
    var rr: seq<string> := if ratingScore >= 0.85 then [SimilarRating] else [];
    var pr: seq<string> := if popularityScore >= 0.85 then [SimilarPopularity] else [];
    assert SimilarityReasons(a, b, ratingScore, popularityScore) == m + rr + pr;
  }

  /** `similarityScore`: a movie compared with itself scores -1 with nothing else; otherwise 2 for any
      shared genre, 1 for the same experience type, and one point each for closeness of rating and of
      popularity. */
  function SimilarityScore(a: Movie, b: Movie): (s: Similarity)
    ensures a.id == b.id ==> s == Similarity(-1.0, 0.0, 0.0, 0.0, 0.0, [])
    ensures a.id != b.id ==>
      && s.genreScore == (if SharesGenre(a, b) then 2.0 else 0.0)
      && s.experienceScore == (if a.experience == b.experience then 1.0 else 0.0)
      && s.ratingScore == 1.0 - Abs((a.ratingPercent - b.ratingPercent) as real) / 100.0
      && s.popularityScore == 1.0 - Abs(a.popularity - b.popularity)
      && s.total == s.genreScore + s.experienceScore + s.ratingScore + s.popularityScore
      && s.reasons == SimilarityReasons(a, b, s.ratingScore, s.popularityScore)
      && (SimilarRating in s.reasons <==> s.ratingScore >= 0.85)
      && (SimilarPopularity in s.reasons <==> s.popularityScore >= 0.85)
  {
    if a.id == b.id then Similarity(-1.0, 0.0, 0.0, 0.0, 0.0, [])
    else
      var shared := Filter(a.genres, g => g in b.genres);
      var genreScore := if |shared| > 0 then 2.0 else 0.0;
      var experienceScore := if a.experience == b.experience then 1.0 else 0.0;
      var ratingScore := 1.0 - Abs((a.ratingPercent - b.ratingPercent) as real) / 100.0;
      var popularityScore := 1.0 - Abs(a.popularity - b.popularity);
      assert |shared| > 0 <==> SharesGenre(a, b) by {
        if SharesGenre(a, b) {
          var g :| g in a.genres && g in b.genres;
          assert g in shared;
        }
        if |shared| > 0 {
          assert shared[0] in shared;
        }
      }
      var reasons := SimilarityReasons(a, b, ratingScore, popularityScore);
      SimilarityReasonFlags(a, b, ratingScore, popularityScore);
      Similarity(genreScore + experienceScore + ratingScore + popularityScore,
        genreScore, experienceScore, ratingScore, popularityScore, reasons)
  }

  /** A fully matching pair: every genre of the reference is one of the other's, the experience types agree,
      and rating and popularity are equal. It scores the maximum 5 with all four fragments, in the order
      the factors are checked: the shared genres joined by ", ", the experience type, then the two flags. */
  lemma FullMatchReasons(a: Movie, b: Movie)
    requires a.id != b.id && a.genres != [] && forall i :: 0 <= i < |a.genres| ==> a.genres[i] in b.genres
    requires a.experience == b.experience && a.ratingPercent == b.ratingPercent && a.popularity == b.popularity
    ensures SimilarityScore(a, b).total == 5.0
    ensures SimilarityScore(a, b).reasons ==
      [GenreFragment(a.genres), ExperienceFragment(a.experience), SimilarRating, SimilarPopularity]
  {
    var sim := SimilarityScore(a, b);
    assert SharesGenre(a, b) by {
      assert a.genres[0] in a.genres && a.genres[0] in b.genres;
    }
    assert sim.ratingScore == 1.0 && sim.popularityScore == 1.0;
    FullMatchFragments(a, b);
  }

  /** With every genre shared and the same experience type, both match fragments are given, then the flags
      of two factors at their maximum. */
  lemma FullMatchFragments(a: Movie, b: Movie)
    requires a.genres != [] && forall i :: 0 <= i < |a.genres| ==> a.genres[i] in b.genres
    requires a.experience == b.experience
    ensures SimilarityReasons(a, b, 1.0, 1.0) ==
      [GenreFragment(a.genres), ExperienceFragment(a.experience), SimilarRating, SimilarPopularity]
  {
    var m := MatchReasons(a, b);
    FullMatchBoth(a, b);
    assert SimilarityReasons(a, b, 1.0, 1.0) == m + [SimilarRating] + [SimilarPopularity];
    AppendTwo(m, GenreFragment(a.genres), ExperienceFragment(a.experience), SimilarRating, SimilarPopularity);
  }

  /** With every genre shared and the same experience type, both match fragments are given. */
  lemma FullMatchBoth(a: Movie, b: Movie)
    requires a.genres != [] && forall i :: 0 <= i < |a.genres| ==> a.genres[i] in b.genres
    requires a.experience == b.experience
    ensures MatchReasons(a, b) == [GenreFragment(a.genres), ExperienceFragment(a.experience)]
  {
    FilterAll(a.genres, g => g in b.genres);
  }

  lemma AppendTwo(m: seq<string>, x: string, y: string, p: string, q: string)
    requires m == [x, y]
    ensures m + [p] + [q] == [x, y, p, q]
  {
  }

  /** A catalogue record as documented: rating percent in 0..100, popularity in 0..1. */
  predicate WellFormed(m: Movie)
  {
    0 <= m.ratingPercent <= 100 && 0.0 <= m.popularity <= 1.0
  }

  /** The documented range: two distinct well-formed movies score between 0 and 5. */
  lemma SimilarityBounds(a: Movie, b: Movie)
    requires WellFormed(a) && WellFormed(b) && a.id != b.id
    ensures 0.0 <= SimilarityScore(a, b).total <= 5.0
  {
  }

  /** The score does not depend on which movie is the reference. */
  lemma SimilaritySymmetric(a: Movie, b: Movie)
    ensures SimilarityScore(a, b).total == SimilarityScore(b, a).total
  {
    if a.id != b.id {
      assert SharesGenre(a, b) <==> SharesGenre(b, a);
      assert Abs((a.ratingPercent - b.ratingPercent) as real) == Abs((b.ratingPercent - a.ratingPercent) as real);
    }
  }

  /** The one reason text used when there are no reasons. */
  const FallbackReason := "Recommended based on overall similarity."

  /** `buildReasonText`: the reasons joined with " and " into one sentence, or the fallback text when there
      are none (an absent list included). */
  function BuildReasonText(reasons: Option<seq<string>>): (r: string)
    ensures reasons.None? || reasons.value == [] ==> r == FallbackReason
    ensures reasons.Some? && reasons.value != [] ==>
      && StartsWith(r, "Recommended because it ")
      && r[|r| - 1] == '.'
      && r[23..|r| - 1] == Join(reasons.value, " and ")
  {
    if reasons.None? || |reasons.value| == 0 then FallbackReason
    else "Recommended because it " + Join(reasons.value, " and ") + "."
  }

  /** The fallback is never the explanation of a non-empty list of reasons. */
  lemma ReasonTextDistinguishesFallback(reasons: seq<string>)
    requires reasons != []
    ensures BuildReasonText(Some(reasons)) != FallbackReason
  {
    var r := BuildReasonText(Some(reasons));
    assert r[14] == 'c' && FallbackReason[14] == 's';
  }

  // ---------------------------------------------------------------------------------------------
  // Ranked recommendations

  /** One ranked recommendation: the movie, its score, the explanation and, for similarity ranking, the
      breakdown. */
  datatype Ranked = Ranked(movie: Movie, score: real, reason: string, breakdown: Option<Similarity>)

  /** The comparator `(a, b) => b.score - a.score`: `a` may come first when it scores at least as high. */
  predicate ScoreFirst(a: Ranked, b: Ranked)
  {
    a.score >= b.score
  }

  lemma ScoreFirstTotal()
    ensures TotalPreorder(ScoreFirst)
  {
  }

  /** `allMovies.find(m => m.movie_id === id)`. */
  function FindById(movies: seq<Movie>, id: int): (r: Option<Movie>)
    ensures r.None? <==> forall m :: m in movies ==> m.id != id
    ensures r.Some? ==> r.value in movies && r.value.id == id
  {
    if movies == [] then None
    else if movies[0].id == id then Some(movies[0])
    else FindById(movies[1..], id)
  }

  /** Scores in non-increasing order, stably. */
  function RankByScore(scored: seq<Ranked>): (r: seq<Ranked>)
    ensures multiset(r) == multiset(scored)
    ensures SortedBy(r, ScoreFirst)
  {
    ScoreFirstTotal();
    SortSorted(scored, ScoreFirst);
    Sort(scored, ScoreFirst)
  }

  /** Keeps the recommendations with a positive score. */
  function PositiveOnly(scored: seq<Ranked>): (r: seq<Ranked>)
    ensures forall x :: x in r <==> x in scored && x.score > 0.0
  {
    Filter(scored, IsPositive)
  }

  predicate IsPositive(x: Ranked)
  {
    x.score > 0.0
  }

  /** `.filter(score > 0).sort(by score desc).slice(0, count)`: the best `count` positive-scoring items,
      best first, fewer only when no positive item is left; any positive item left out scores no higher
      than every item kept. A negative `count` drops that many items from the end, as `slice` does. */
  function TopPositive(scored: seq<Ranked>, count: int): (r: seq<Ranked>)
    ensures forall x :: x in r ==> x in scored && x.score > 0.0
    ensures SortedBy(r, ScoreFirst)
    ensures count >= 0 ==> |r| == (var n := |PositiveOnly(scored)|; if count < n then count else n)
    ensures count < 0 ==> |r| == (var n := |PositiveOnly(scored)| + count; if n > 0 then n else 0)
    ensures multiset(r) <= multiset(PositiveOnly(scored))
    ensures forall y :: y in scored && y.score > 0.0 && y !in r ==> forall x :: x in r ==> x.score >= y.score
  {
    var positive := PositiveOnly(scored);
    var ranked := RankByScore(positive);
    var r := SliceTo(ranked, count);
    SliceSubMultiset(ranked, count);
    assert |ranked| == |positive| by {
      assert |multiset(ranked)| == |multiset(positive)|;
    }
    SameElements(positive, ranked);
    PrefixBeatsRest(ranked, |r|);
    r
  }

  /** Every item of a score-sorted list outside its first `k` scores no higher than each of those `k`. */
  lemma PrefixBeatsRest(ranked: seq<Ranked>, k: nat)
    requires SortedBy(ranked, ScoreFirst) && k <= |ranked|
    ensures forall y :: y in ranked && y !in ranked[..k] ==> forall x :: x in ranked[..k] ==> x.score >= y.score
  {
    forall y | y in ranked && y !in ranked[..k] ensures forall x :: x in ranked[..k] ==> x.score >= y.score {
      TopPrefix(ranked, k, y, ScoreFirst);
    }
  }

  /** Two sequences with the same multiset have the same elements. */
  lemma SameElements(a: seq<Ranked>, b: seq<Ranked>)
    requires multiset(a) == multiset(b)
    ensures forall x :: x in a <==> x in b
  {
    forall x ensures x in a <==> x in b {
      assert x in a <==> x in multiset(a);
      assert x in b <==> x in multiset(b);
    }
  }

  /** The criteria of `getHybridRecommendations`; absent ones are empty or `None`. */
  datatype HybridCriteria = HybridCriteria(
    userAge: Option<int>, genre: string, experience: string, similarToId: Option<int>)

  predicate HybridGenreActive(c: HybridCriteria)
  {
    c.genre != "" && c.genre != "All"
  }

  predicate HybridExperienceActive(c: HybridCriteria)
  {
    c.experience != "" && c.experience != "All"
  }

  /** The movies that pass the age, genre and experience filters of `getHybridRecommendations` (the
      experience is compared as given, not lower-cased). */
  function HybridCandidates(allMovies: seq<Movie>, c: HybridCriteria): (r: seq<Movie>)
    ensures forall m :: m in r <==>
      && m in allMovies && PassesAgeFilter(m, c.userAge)
      && (HybridGenreActive(c) ==> c.genre in m.genres)
      && (HybridExperienceActive(c) ==> m.experience == c.experience)
  {
    var byAge := ApplyAgeFilter(allMovies, c.userAge);
    var byGenre := if HybridGenreActive(c) then Filter(byAge, (m: Movie) => c.genre in m.genres) else byAge;
    if HybridExperienceActive(c) then Filter(byGenre, (m: Movie) => m.experience == c.experience)
    else byGenre
  }

  /** The reference movie of the similarity strategy, if an id is given and found. */
  function HybridTarget(allMovies: seq<Movie>, c: HybridCriteria): Option<Movie>
  {
    if Falsy(c.similarToId) then None else FindById(allMovies, c.similarToId.value)
  }

  /** The explanation of the quality strategy: it names the criteria that were given. */
  function QualityReason(c: HybridCriteria): string
  {
    var parts := (if c.genre != "" then ["matches genre (" + c.genre + ")"] else [])
      + (if c.experience != "" then ["matches vibe (" + c.experience + ")"] else []);
    "Selected because it " + Join(if parts == [] then ["highly rated and popular"] else parts, " and ") + "."
  }

  /** The score each strategy gives a candidate: similarity to the target, or popularity plus rating. */
  function HybridScore(target: Option<Movie>, m: Movie): real
  {
    if target.Some? then SimilarityScore(target.value, m).total
    else m.popularity + m.ratingPercent as real / 100.0
  }

  function HybridItem(target: Option<Movie>, c: HybridCriteria, m: Movie): (x: Ranked)
    ensures x.movie == m && x.score == HybridScore(target, m)
  {
    if target.Some? then
      var sim := SimilarityScore(target.value, m);
      Ranked(m, sim.total, BuildReasonText(Some(sim.reasons)), Some(sim))
    else
      Ranked(m, m.popularity + m.ratingPercent as real / 100.0, QualityReason(c), None)
  }

  /** A candidate the chosen strategy scores above zero. */
  function ScoresPositive(target: Option<Movie>): Movie -> bool
  {
    (m: Movie) => HybridScore(target, m) > 0.0
  }

  /** The movies `getHybridRecommendations` may return: candidates with a positive score. */
  function HybridEligible(allMovies: seq<Movie>, c: HybridCriteria): seq<Movie>
  {
    Filter(HybridCandidates(allMovies, c), ScoresPositive(HybridTarget(allMovies, c)))
  }

  /** `getHybridRecommendations`: every result passes the active filters and scores above zero; results
      are in non-increasing score order; the first `count` eligible movies by score are returned, fewer only
      when no eligible movie is left, and any eligible movie left out scores no higher than every one
      returned. A negative `count` drops that many from the end, as `slice` does. */
  function GetHybridRecommendations(allMovies: seq<Movie>, c: HybridCriteria, count: int): (r: seq<Ranked>)
    ensures forall x :: x in r ==>
      && x.movie in HybridCandidates(allMovies, c)
      && x.score > 0.0
      && x == HybridItem(HybridTarget(allMovies, c), c, x.movie)
    ensures SortedBy(r, ScoreFirst)
    ensures count >= 0 ==> |r| == (var n := |HybridEligible(allMovies, c)|; if count < n then count else n)
    ensures count < 0 ==> |r| == (var n := |HybridEligible(allMovies, c)| + count; if n > 0 then n else 0)
    ensures multiset(r) <= multiset(PositiveOnly(HybridScored(allMovies, c)))
    ensures forall m ::
      (&& m in HybridCandidates(allMovies, c) && HybridItem(HybridTarget(allMovies, c), c, m) !in r
       && HybridScore(HybridTarget(allMovies, c), m) > 0.0) ==>
        forall x :: x in r ==> x.score >= HybridScore(HybridTarget(allMovies, c), m)
  {
    TopPositive(HybridScored(allMovies, c), count)
  }

  /** `candidates.map(...)` of `getHybridRecommendations`: each candidate scored by the chosen strategy, in
      order, with as many positive items as there are eligible movies. */
  function HybridScored(allMovies: seq<Movie>, c: HybridCriteria): (scored: seq<Ranked>)
    ensures var candidates, target := HybridCandidates(allMovies, c), HybridTarget(allMovies, c);
      && |scored| == |candidates|
      && (forall i :: 0 <= i < |scored| ==> scored[i] == HybridItem(target, c, candidates[i]))
      && (forall x :: x in scored ==> x.movie in candidates && x == HybridItem(target, c, x.movie))
      && (forall m :: m in candidates ==> HybridItem(target, c, m) in scored)
      && |PositiveOnly(scored)| == |HybridEligible(allMovies, c)|
  {
    var candidates := HybridCandidates(allMovies, c);
    var target := HybridTarget(allMovies, c);
    var scored := seq(|candidates|, i requires 0 <= i < |candidates| => HybridItem(target, c, candidates[i]));
    assert forall m :: m in candidates ==> HybridItem(target, c, m) in scored by {
      forall m | m in candidates ensures HybridItem(target, c, m) in scored {
        var i :| 0 <= i < |candidates| && candidates[i] == m;
        assert scored[i] == HybridItem(target, c, m);
      }
    }
    PositiveCount(candidates, scored, ScoresPositive(target));
    scored
  }

  /** Scoring each candidate keeps the number of positive ones: item `i` is positive exactly when candidate
      `i` is. */
  lemma {:induction false} PositiveCount(candidates: seq<Movie>, scored: seq<Ranked>, positive: Movie -> bool)
    requires |candidates| == |scored|
    requires forall i :: 0 <= i < |scored| ==> (positive(candidates[i]) <==> IsPositive(scored[i]))
    ensures |PositiveOnly(scored)| == |Filter(candidates, positive)|
  {
    if scored != [] {
      assert forall i :: 0 <= i < |scored[1..]| ==> scored[1..][i] == scored[i + 1];
      assert forall i :: 0 <= i < |candidates[1..]| ==> candidates[1..][i] == candidates[i + 1];
      PositiveCount(candidates[1..], scored[1..], positive);
    }
  }

  /** A movie scored by similarity to the reference movie, with the explanation of the score. */
  function SimilarityItem(target: Movie, m: Movie): (x: Ranked)
    ensures x.movie == m && x.score == SimilarityScore(target, m).total
  {
    var sim := SimilarityScore(target, m);
    Ranked(m, sim.total, BuildReasonText(Some(sim.reasons)), Some(sim))
  }

  /** Every movie of the catalogue scored by similarity to the reference movie. */
  function SimilarityRanked(target: Movie, allMovies: seq<Movie>): (r: seq<Ranked>)
    ensures |r| == |allMovies|
    ensures forall i :: 0 <= i < |r| ==> r[i] == SimilarityItem(target, allMovies[i])
  {
    seq(|allMovies|, i requires 0 <= i < |allMovies| => SimilarityItem(target, allMovies[i]))
  }

  function AllowedFor(userAge: int): Ranked -> bool
  {
    (x: Ranked) => userAge >= x.movie.ageLimit
  }

  /** Keeps, in order, the items the user's age allows, then the first `count` of them: an allowed item
      left out scores no higher than every item kept, and fewer than `count` are kept only when no
      allowed item is left. */
  function AgeAllowedPrefix(ranked: seq<Ranked>, userAge: int, count: int): (r: seq<Ranked>)
    requires SortedBy(ranked, ScoreFirst)
    ensures forall x :: x in r ==> x in ranked && userAge >= x.movie.ageLimit
    ensures SortedBy(r, ScoreFirst)
    ensures |r| <= |Filter(ranked, AllowedFor(userAge))| && r == Filter(ranked, AllowedFor(userAge))[..|r|]
    ensures count >= 0 ==> |r| == if count < |Filter(ranked, AllowedFor(userAge))| then count else |Filter(ranked, AllowedFor(userAge))|
    ensures count < 0 ==> |r| == (var n := |Filter(ranked, AllowedFor(userAge))| + count; if n > 0 then n else 0)
    ensures multiset(r) <= multiset(ranked)
    ensures forall y :: y in ranked && userAge >= y.movie.ageLimit && y !in r ==>
      forall x :: x in r ==> x.score >= y.score
  {
    var filtered := Filter(ranked, AllowedFor(userAge));
    assert SortedBy(filtered, ScoreFirst) by {
      FilterIsSubseq(ranked, AllowedFor(userAge));
      SubseqSorted(filtered, ranked, ScoreFirst);
    }
    var r := SliceTo(filtered, count);
    assert multiset(r) <= multiset(ranked) by {
      SliceSubMultiset(filtered, count);
      FilterSubMultiset(ranked, AllowedFor(userAge));
    }
    PrefixBeatsRest(filtered, |r|);
    r
  }

  /** A movie `getRecommendations` may return for a reference movie: one similar to it to a positive degree
      that the user's age allows. */
  function EligibleFor(target: Movie, userAge: int): Movie -> bool
  {
    (m: Movie) => SimilarityScore(target, m).total > 0.0 && userAge >= m.ageLimit
  }

  function SimilarEligible(target: Movie, allMovies: seq<Movie>, userAge: int): seq<Movie>
  {
    Filter(allMovies, EligibleFor(target, userAge))
  }

  /** The steps of `getRecommendations` once the reference movie is found: the `count` eligible movies most
      similar to it, best first. */
  function MostSimilar(target: Movie, allMovies: seq<Movie>, userAge: int, count: int): (r: seq<Ranked>)
    ensures forall x :: x in r ==>
      && x.movie in allMovies && x.movie.id != target.id && userAge >= x.movie.ageLimit
      && x.score > 0.0 && x == SimilarityItem(target, x.movie)
    ensures SortedBy(r, ScoreFirst)
    ensures count >= 0 ==> |r| == (var n := |SimilarEligible(target, allMovies, userAge)|; if count < n then count else n)
    ensures count < 0 ==> |r| == (var n := |SimilarEligible(target, allMovies, userAge)| + count; if n > 0 then n else 0)
    ensures multiset(r) <= multiset(SimilarityRanked(target, allMovies))
    ensures forall m :: m in SimilarEligible(target, allMovies, userAge) && SimilarityItem(target, m) !in r ==>
      forall x :: x in r ==> x.score >= SimilarityScore(target, m).total
  {
    var scored := SimilarityRanked(target, allMovies);
    var positive := PositiveOnly(scored);
    var ranked := RankByScore(positive);
    var r := AgeAllowedPrefix(ranked, userAge, count);
    FilterSubMultiset(scored, IsPositive);
    SimilarResults(target, allMovies, userAge, count);
    FilterPermutation(positive, ranked, AllowedFor(userAge));
    EligibleCount(target, allMovies, userAge);
    SimilarLeftOut(target, allMovies, userAge, count);
    r
  }

  /** Each result is an eligible catalogue movie other than the reference, scored by similarity. */
  lemma SimilarResults(target: Movie, allMovies: seq<Movie>, userAge: int, count: int)
    ensures var r := AgeAllowedPrefix(RankByScore(PositiveOnly(SimilarityRanked(target, allMovies))), userAge, count);
      forall x :: x in r ==>
        && x.movie in allMovies && x.movie.id != target.id && userAge >= x.movie.ageLimit
        && x.score > 0.0 && x == SimilarityItem(target, x.movie)
  {
    var scored := SimilarityRanked(target, allMovies);
    var positive := PositiveOnly(scored);
    var ranked := RankByScore(positive);
    SameElements(positive, ranked);
    var r := AgeAllowedPrefix(ranked, userAge, count);
    forall x | x in r
      ensures x.movie in allMovies && x.movie.id != target.id && x.score > 0.0 && x == SimilarityItem(target, x.movie)
    {
      var i :| 0 <= i < |scored| && scored[i] == x;
      PositiveSimilarityIsOther(target, x.movie);
    }
  }

  /** An eligible movie left out scores no higher than any result. */
  lemma SimilarLeftOut(target: Movie, allMovies: seq<Movie>, userAge: int, count: int)
    ensures var r := AgeAllowedPrefix(RankByScore(PositiveOnly(SimilarityRanked(target, allMovies))), userAge, count);
      forall m :: m in SimilarEligible(target, allMovies, userAge) && SimilarityItem(target, m) !in r ==>
        forall x :: x in r ==> x.score >= SimilarityScore(target, m).total
  {
    var scored := SimilarityRanked(target, allMovies);
    var positive := PositiveOnly(scored);
    var ranked := RankByScore(positive);
    SameElements(positive, ranked);
    var r := AgeAllowedPrefix(ranked, userAge, count);
    forall m | m in SimilarEligible(target, allMovies, userAge) && SimilarityItem(target, m) !in r
      ensures forall x :: x in r ==> x.score >= SimilarityScore(target, m).total
    {
      var i :| 0 <= i < |allMovies| && allMovies[i] == m;
      var y := scored[i];
      assert y == SimilarityItem(target, m);
      assert y in ranked;
    }
  }

  /** As many scored items are positive and allowed as there are eligible movies. */
  lemma {:induction false} EligibleCount(target: Movie, allMovies: seq<Movie>, userAge: int)
    ensures |Filter(PositiveOnly(SimilarityRanked(target, allMovies)), AllowedFor(userAge))|
         == |SimilarEligible(target, allMovies, userAge)|
  {
    if allMovies != [] {
      var init, m := allMovies[..|allMovies| - 1], allMovies[|allMovies| - 1];
      assert allMovies == init + [m];
      EligibleCount(target, init, userAge);
      var x := SimilarityItem(target, m);
      SimilarityRankedAppend(target, init, m);
      EligibleItem(target, userAge, m);
      CountStep(SimilarityRanked(target, init), x, init, m, AllowedFor(userAge), EligibleFor(target, userAge));
    }
  }

  /** A movie is eligible exactly when its similarity item is positive and allowed. */
  lemma EligibleItem(target: Movie, userAge: int, m: Movie)
    ensures var x := SimilarityItem(target, m);
      EligibleFor(target, userAge)(m) == (IsPositive(x) && AllowedFor(userAge)(x))
  {
  }

  lemma SimilarityRankedAppend(target: Movie, init: seq<Movie>, m: Movie)
    ensures SimilarityRanked(target, init + [m]) == SimilarityRanked(target, init) + [SimilarityItem(target, m)]
  {
    var a, b := SimilarityRanked(target, init + [m]), SimilarityRanked(target, init) + [SimilarityItem(target, m)];
    forall i | 0 <= i < |a| ensures a[i] == b[i] {
      if i < |init| {
        assert (init + [m])[i] == init[i];
      }
    }
  }

  /** One more scored item and its movie keep the two counts equal when the movie is eligible exactly when
      the item is positive and allowed. */
  lemma CountStep(a: seq<Ranked>, x: Ranked, ms: seq<Movie>, m: Movie, allowed: Ranked -> bool,
                  eligible: Movie -> bool)
    requires |Filter(Filter(a, IsPositive), allowed)| == |Filter(ms, eligible)|
    requires eligible(m) == (IsPositive(x) && allowed(x))
    ensures |Filter(Filter(a + [x], IsPositive), allowed)| == |Filter(ms + [m], eligible)|
  {
    FilterConcat(a, [x], IsPositive);
    FilterConcat(Filter(a, IsPositive), Filter([x], IsPositive), allowed);
    FilterConcat(ms, [m], eligible);
    assert [x][1..] == [] && [m][1..] == [];
  }

  /** Only another movie can be similar to a positive degree. */
  lemma PositiveSimilarityIsOther(a: Movie, b: Movie)
    requires SimilarityScore(a, b).total > 0.0
    ensures a.id != b.id
  {
  }

  /** `getRecommendations`: the `count` movies most similar to the reference one among those the user's age
      allows, best first. An unknown reference id gives no recommendations; the reference movie is never
      among the results; fewer than `count` come back only when no eligible movie is left out. */
  function GetRecommendations(allMovies: seq<Movie>, movieId: int, userAge: int, count: int): (r: seq<Ranked>)
    ensures FindById(allMovies, movieId).None? ==> r == []
    ensures FindById(allMovies, movieId).Some? ==>
      var target := FindById(allMovies, movieId).value;
      && (forall x :: x in r ==>
            && x.movie in allMovies && x.movie.id != movieId && userAge >= x.movie.ageLimit
            && x.score > 0.0 && x == SimilarityItem(target, x.movie))
      && SortedBy(r, ScoreFirst)
      && (count >= 0 ==> |r| == (var n := |SimilarEligible(target, allMovies, userAge)|; if count < n then count else n))
      && (count < 0 ==> |r| == (var n := |SimilarEligible(target, allMovies, userAge)| + count; if n > 0 then n else 0))
      && multiset(r) <= multiset(SimilarityRanked(target, allMovies))
      && (forall m :: m in SimilarEligible(target, allMovies, userAge) && SimilarityItem(target, m) !in r ==>
            forall x :: x in r ==> x.score >= SimilarityScore(target, m).total)
    ensures count >= 0 ==> |r| <= count
  {
    match FindById(allMovies, movieId)
    case None => []
    case Some(target) => MostSimilar(target, allMovies, userAge, count)
  }

  // ---------------------------------------------------------------------------------------------
  // Sorting helpers

  /** The comparator of `getTrending`: popularity descending, then rating descending. */
  predicate TrendingFirst(a: Movie, b: Movie)
  {
    a.popularity > b.popularity || (a.popularity == b.popularity && a.ratingPercent >= b.ratingPercent)
  }

  /** `getTrending`: exactly the movies with popularity at least 0.8, most popular first and, among equally
      popular ones, best rated first. */
  function GetTrending(movies: seq<Movie>): (r: seq<Movie>)
    ensures forall m :: m in r <==> m in movies && m.popularity >= 0.8
    ensures multiset(r) == multiset(Filter(movies, (m: Movie) => m.popularity >= 0.8))
    ensures SortedBy(r, TrendingFirst)
  {
    var hot := Filter(movies, (m: Movie) => m.popularity >= 0.8);
    SortSorted(hot, TrendingFirst);
    var r := Sort(hot, TrendingFirst);
    assert forall m :: m in r <==> m in multiset(hot);
    r
  }

  predicate YearFirst(a: Movie, b: Movie)
  {
    a.year >= b.year
  }

  /** `getLatest`: all movies, newest first. */
  function GetLatest(movies: seq<Movie>): (r: seq<Movie>)
    ensures multiset(r) == multiset(movies)
    ensures SortedBy(r, YearFirst)
  {
    SortSorted(movies, YearFirst);
    Sort(movies, YearFirst)
  }

  predicate RatingFirst(a: Movie, b: Movie)
  {
    a.ratingPercent >= b.ratingPercent
  }

  /** `getTopRated`: all movies, best rated first. */
  function GetTopRated(movies: seq<Movie>): (r: seq<Movie>)
    ensures multiset(r) == multiset(movies)
    ensures SortedBy(r, RatingFirst)
  {
    SortSorted(movies, RatingFirst);
    Sort(movies, RatingFirst)
  }

  /** Every genre tag of every movie, in catalogue order. */
  function GenreTags(movies: seq<Movie>): (r: seq<string>)
    ensures forall g :: g in r <==> exists m :: m in movies && g in m.genres
  {
    if movies == [] then []
    else
      var rest := GenreTags(movies[1..]);
      assert forall m :: m in movies ==> m == movies[0] || m in movies[1..];
      movies[0].genres + rest
  }

  /** `getAllGenres`: every genre of the catalogue, once each, in code-unit order. */
  function GetAllGenres(movies: seq<Movie>): (r: seq<string>)
    ensures forall g :: g in r <==> exists m :: m in movies && g in m.genres
    ensures NoDuplicates(r)
    ensures forall i, j :: 0 <= i < j < |r| ==> LexFirst(r[i], r[j]) && r[i] != r[j]
  {
    var d := Distinct(GenreTags(movies));
    assert forall g :: g in d <==> exists m :: m in movies && g in m.genres;
    LexTotalPreorder();
    SortSorted(d, LexFirst);
    var r := Sort(d, LexFirst);
    PermutationKeepsNoDuplicates(d, r);
    forall g ensures g in r <==> g in d {
      assert g in r <==> g in multiset(r);
      assert g in d <==> g in multiset(d);
    }
    r
  }
}
