/**
 * The two-stage filter of the sidebar: a genre filter, then an inclusive range filter on
 * rating, duration and votes whose slider bounds come from the genre-filtered rows.
 */
module Filters {
  import opened Movies
  import opened Seqs
  import opened Text
  import opened Extremes

  /** The distinct genres in ascending order: the options, and the default, of the genre selector. */
  function GenreOptions(ds: seq<Movie>): (r: seq<string>)
    ensures Ascending(r)
    ensures forall g :: g in r <==> HasGenre(ds, g)
  {
    if ds == [] then []
    else
      var rest := GenreOptions(ds[1..]);
      assert forall m :: m in ds <==> m == ds[0] || m in ds[1..] by {
        assert ds == [ds[0]] + ds[1..];
      }
      InsertUnique(ds[0].genre, rest)
  }

  /** The mask of the genre filter: `genre.isin(selected)`. */
  function GenreIn(selected: seq<string>): Movie -> bool
  {
    (m: Movie) => m.genre in selected
  }

  /** The rows whose genre is among `selected`, in dataset order. */
  function FilterGenre(ds: seq<Movie>, selected: seq<string>): (r: seq<Movie>)
    ensures forall m :: m in r <==> m in ds && m.genre in selected
    ensures forall m :: multiset(r)[m] == if m.genre in selected then multiset(ds)[m] else 0
    ensures IsSubsequence(r, ds)
  {
    Select(ds, GenreIn(selected))
  }

  /** With the default selection, every genre, the genre filter keeps the dataset unchanged. */
  lemma {:induction false} DefaultSelectionKeepsAll(ds: seq<Movie>)
    ensures FilterGenre(ds, GenreOptions(ds)) == ds
  {
    var options := GenreOptions(ds);
    forall m | m in ds ensures GenreIn(options)(m) {
      assert HasGenre(ds, m.genre);
    }
    SelectAll(ds, GenreIn(options));
  }

  /** A closed interval `[lo, hi]`, as a range slider returns it. */
  datatype Span<T> = Span(lo: T, hi: T)

  /** The three range sliders. */
  datatype Bounds = Bounds(rating: Span<real>, duration: Span<int>, votes: Span<int>)

  /** The slider bounds offered when no row survives the genre filter. */
  const FallbackBounds: Bounds := Bounds(Span(0.0, 10.0), Span(0, 300), Span(0, 1000000))

  /** The six inclusive comparisons of the range filter. */
  predicate InRanges(m: Movie, b: Bounds)
  {
    && m.rating >= b.rating.lo && m.rating <= b.rating.hi
    && m.durationMinutes >= b.duration.lo && m.durationMinutes <= b.duration.hi
    && m.votingCounts >= b.votes.lo && m.votingCounts <= b.votes.hi
  }

  /** Every bound is attained by some row: the lower ones are minima, the upper ones maxima. */
  predicate Attained(sub: seq<Movie>, b: Bounds)
  {
    && (exists m :: m in sub && m.rating == b.rating.lo)
    && (exists m :: m in sub && m.rating == b.rating.hi)
    && (exists m :: m in sub && m.durationMinutes == b.duration.lo)
    && (exists m :: m in sub && m.durationMinutes == b.duration.hi)
    && (exists m :: m in sub && m.votingCounts == b.votes.lo)
    && (exists m :: m in sub && m.votingCounts == b.votes.hi)
  }

  /**
   * The `min_value`/`max_value` pairs of the three sliders, which are also their default
   * values: each column's (min, max) over the genre-filtered rows, or the fallback constants
   * when there are none.
   */
  function SliderBounds(sub: seq<Movie>): (b: Bounds)
    ensures sub == [] ==> b == Bounds(Span(0.0, 10.0), Span(0, 300), Span(0, 1000000))
    ensures sub != [] ==> (forall m :: m in sub ==> InRanges(m, b)) && Attained(sub, b)
  {
    if sub == [] then FallbackBounds
    else
      var b := Bounds(
        Span(sub[IdxMin(sub, Rating)].rating, sub[IdxMax(sub, Rating)].rating),
        Span(sub[IdxMin(sub, Duration)].durationMinutes, sub[IdxMax(sub, Duration)].durationMinutes),
        Span(sub[IdxMin(sub, Votes)].votingCounts, sub[IdxMax(sub, Votes)].votingCounts));
      assert forall m :: m in sub ==> InRanges(m, b) by {
        forall m | m in sub ensures InRanges(m, b) {
          var j :| 0 <= j < |sub| && sub[j] == m;
          assert Key(sub[IdxMin(sub, Duration)], Duration) <= Key(sub[j], Duration);
          assert Key(sub[j], Duration) <= Key(sub[IdxMax(sub, Duration)], Duration);
          assert Key(sub[IdxMin(sub, Votes)], Votes) <= Key(sub[j], Votes);
          assert Key(sub[j], Votes) <= Key(sub[IdxMax(sub, Votes)], Votes);
        }
      }
      assert sub[IdxMin(sub, Rating)] in sub && sub[IdxMax(sub, Rating)] in sub;
      assert sub[IdxMin(sub, Duration)] in sub && sub[IdxMax(sub, Duration)] in sub;
      assert sub[IdxMin(sub, Votes)] in sub && sub[IdxMax(sub, Votes)] in sub;
      b
  }

  /** The mask of the range filter. */
  function InRangesFn(b: Bounds): Movie -> bool
  {
    m => InRanges(m, b)
  }

  /** The rows that satisfy all six comparisons, in order. */
  function FilterRanges(s: seq<Movie>, b: Bounds): (r: seq<Movie>)
    ensures forall m :: m in r <==>
      (&& m in s
       && b.rating.lo <= m.rating <= b.rating.hi
       && b.duration.lo <= m.durationMinutes <= b.duration.hi
       && b.votes.lo <= m.votingCounts <= b.votes.hi)
    ensures forall m :: multiset(r)[m] == if InRanges(m, b) then multiset(s)[m] else 0
    ensures IsSubsequence(r, s)
  {
    Select(s, InRangesFn(b))
  }

  /** Filtering a second time with the same ranges changes nothing. */
  lemma {:induction false} FilterRangesIdempotent(s: seq<Movie>, b: Bounds)
    ensures FilterRanges(FilterRanges(s, b), b) == FilterRanges(s, b)
  {
    SelectIdempotent(s, InRangesFn(b));
  }

  /** With the sliders at their defaults, the range filter keeps every genre-filtered row. */
  lemma {:induction false} DefaultRangesKeepAll(sub: seq<Movie>)
    ensures FilterRanges(sub, SliderBounds(sub)) == sub
  {
    if sub != [] {
      SelectAll(sub, InRangesFn(SliderBounds(sub)));
    }
  }

  /** The rating interval alone. */
  function RatingWithin(b: Bounds): Movie -> bool
  {
    (m: Movie) => b.rating.lo <= m.rating <= b.rating.hi
  }

  /** The duration interval alone. */
  function DurationWithin(b: Bounds): Movie -> bool
  {
    (m: Movie) => b.duration.lo <= m.durationMinutes <= b.duration.hi
  }

  /** The vote interval alone. */
  function VotesWithin(b: Bounds): Movie -> bool
  {
    (m: Movie) => b.votes.lo <= m.votingCounts <= b.votes.hi
  }

  /** The range filter is the three interval filters applied one after another, in any order. */
  lemma {:induction false} RangeStagesInAnyOrder(s: seq<Movie>, b: Bounds)
    ensures FilterRanges(s, b) == Select(Select(Select(s, RatingWithin(b)), DurationWithin(b)), VotesWithin(b))
    ensures FilterRanges(s, b) == Select(Select(Select(s, RatingWithin(b)), VotesWithin(b)), DurationWithin(b))
    ensures FilterRanges(s, b) == Select(Select(Select(s, DurationWithin(b)), RatingWithin(b)), VotesWithin(b))
    ensures FilterRanges(s, b) == Select(Select(Select(s, DurationWithin(b)), VotesWithin(b)), RatingWithin(b))
    ensures FilterRanges(s, b) == Select(Select(Select(s, VotesWithin(b)), RatingWithin(b)), DurationWithin(b))
    ensures FilterRanges(s, b) == Select(Select(Select(s, VotesWithin(b)), DurationWithin(b)), RatingWithin(b))
  {
    var r, d, v, all := RatingWithin(b), DurationWithin(b), VotesWithin(b), InRangesFn(b);
    SelectThrice(s, r, d, v, all);
    SelectThrice(s, r, v, d, all);
    SelectThrice(s, d, r, v, all);
    SelectThrice(s, d, v, r, all);
    SelectThrice(s, v, r, d, all);
    SelectThrice(s, v, d, r, all);
  }

  /** The genre filter followed by the range filter: the rows shown in the data table. */
  function FilterAll(ds: seq<Movie>, selected: seq<string>, chosen: Bounds): (r: seq<Movie>)
    ensures forall m :: m in r <==> m in ds && m.genre in selected && InRanges(m, chosen)
    ensures forall m ::
      multiset(r)[m] == if m.genre in selected && InRanges(m, chosen) then multiset(ds)[m] else 0
    ensures IsSubsequence(r, ds)
  {
    var byGenre := FilterGenre(ds, selected);
    var r := FilterRanges(byGenre, chosen);
    SubsequenceTransitive(r, byGenre, ds);
    r
  }
}
