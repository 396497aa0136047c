/**
 * One run of the dashboard script: the dataset and the sidebar's selections go in, and out
 * comes the screen the script draws, either the no-data warning, or the filtered table with
 * its count and, when it is not empty, the summary views.
 */
module Dashboard {
  import opened Movies
  import opened Seqs
  import opened Filters
  import opened Aggregates

  datatype Option<T> = None | Some(value: T)

  /** The views drawn below a non-empty filtered table. */
  datatype Views = Views(
    topRated: seq<Movie>,
    topVoted: seq<Movie>,
    genreCounts: seq<Entry>,
    avgDuration: seq<Entry>,
    avgVotes: seq<Entry>,
    ratingLeaders: seq<LeaderRow>,
    votesByGenre: seq<Entry>,
    shortest: Movie,
    longest: Movie,
    avgRating: seq<Entry>)

  /**
   * What the script shows: nothing but a warning when the dataset is empty, otherwise the
   * filtered rows with the dataset's size, and the views unless no row matched.
   */
  datatype Screen =
    | NoData
    | Table(shown: seq<Movie>, total: nat, views: Option<Views>)

  /** The views over a non-empty filtered table. */
  function ViewsOf(s: seq<Movie>): (v: Views)
    requires s != []
    ensures |v.topRated| == if |s| < TopCount then |s| else TopCount
    ensures |v.topVoted| == if |s| < TopCount then |s| else TopCount
    ensures SumBy(v.genreCounts, EntryValue) == |s| as real
    ensures v.shortest in s && v.longest in s
    ensures forall m :: m in s ==> v.shortest.durationMinutes <= m.durationMinutes <= v.longest.durationMinutes
  {
    CountsAddUp(s);
    Views(
      TopBy(s, Rating, TopCount),
      TopBy(s, Votes, TopCount),
      GenreView(s, Count),
      GenreView(s, Mean(Duration)),
      GenreView(s, Mean(Votes)),
      RatingLeaders(s),
      CapVotes(GenreView(s, Sum(Votes))),
      Shortest(s),
      Longest(s),
      GenreView(s, Mean(Rating)))
  }

  /**
   * The slider bounds the sidebar offers for a genre selection; the script also uses them as
   * the sliders' default values.
   */
  function OfferedBounds(ds: seq<Movie>, selected: seq<string>): (b: Bounds)
    ensures (forall m :: m in ds ==> m.genre !in selected) ==> b == FallbackBounds
    ensures forall m :: m in ds && m.genre in selected ==> InRanges(m, b)
  {
    SliderBounds(FilterGenre(ds, selected))
  }

  /**
   * One run with the genres `selected` in the multiselect and the intervals `chosen` on the
   * three range sliders.
   */
  function Run(ds: seq<Movie>, selected: seq<string>, chosen: Bounds): (out: Screen)
    ensures out.NoData? <==> ds == []
    ensures out.Table? ==> out.total == |ds| && |out.shown| <= out.total
    ensures out.Table? ==> forall m :: m in out.shown <==> m in ds && m.genre in selected && InRanges(m, chosen)
    ensures out.Table? ==> forall m ::
      multiset(out.shown)[m] == if m.genre in selected && InRanges(m, chosen) then multiset(ds)[m] else 0
    ensures out.Table? ==> IsSubsequence(out.shown, ds)
    ensures out.Table? ==> (out.views.None? <==> out.shown == [])
    ensures out.Table? && out.views.Some? ==> SumBy(out.views.value.genreCounts, EntryValue) == |out.shown| as real
  {
    if ds == [] then NoData
    else
      var shown := FilterAll(ds, selected, chosen);
      SubsequenceNoLonger(shown, ds);
      Table(shown, |ds|, if shown == [] then None else Some(ViewsOf(shown)))
  }

  /**
   * On first load every genre is selected and every slider spans its whole range, so the
   * table shows the whole dataset, in order, with all views.
   */
  lemma {:induction false} DefaultsShowWholeDataset(ds: seq<Movie>)
    requires ds != []
    ensures Run(ds, GenreOptions(ds), OfferedBounds(ds, GenreOptions(ds))) == Table(ds, |ds|, Some(ViewsOf(ds)))
  {
    var selected := GenreOptions(ds);
    DefaultSelectionKeepsAll(ds);
    DefaultRangesKeepAll(ds);
    assert FilterAll(ds, selected, OfferedBounds(ds, selected)) == ds;
  }

  /** A selection that matches no genre of the dataset leaves an empty table and no views. */
  lemma {:induction false} UnknownGenresShowNothing(ds: seq<Movie>, selected: seq<string>, chosen: Bounds)
    requires ds != []
    requires forall g :: g in selected ==> !HasGenre(ds, g)
    ensures Run(ds, selected, chosen) == Table([], |ds|, None)
  {
  }
}

module DashboardScenario {
  import opened Movies
  import opened Seqs
  import opened Extremes
  import opened Filters
  import opened Aggregates
  import opened Dashboard

  const Sample: seq<Movie> := [
    Movie("First", "Action", 7.0, 100, 100),
    Movie("Second", "Drama", 9.0, 120, 50),
    Movie("Third", "Action", 8.0, 110, 200)]

  /**
   * Selecting only "Action" with the sliders at their defaults shows the two action movies,
   * and the leader of "Action" is the one rated 8.0.
   */
  lemma {:induction false} ActionOnly()
    ensures Run(Sample, ["Action"], OfferedBounds(Sample, ["Action"]))
      == Table([Sample[0], Sample[2]], 3, Some(ViewsOf([Sample[0], Sample[2]])))
    ensures ViewsOf([Sample[0], Sample[2]]).ratingLeaders == [LeaderRow("Action", "Third", 8.0, 200)]
  {
    ActionShown();
    ActionLeader();
  }

  lemma {:induction false} ActionShown()
    ensures FilterAll(Sample, ["Action"], OfferedBounds(Sample, ["Action"])) == [Sample[0], Sample[2]]
  {
    ActionRows();
    DefaultRangesKeepAll([Sample[0], Sample[2]]);
  }


  lemma {:induction false} ActionRows()
    ensures FilterGenre(Sample, ["Action"]) == [Sample[0], Sample[2]]
  {
    var s := Sample;
    assert s[1..][1..][1..] == [];
    assert Select(s[1..][1..], GenreIn(["Action"])) == [s[2]];
    assert Select(s[1..], GenreIn(["Action"])) == [s[2]];
  }

  lemma {:induction false} ActionLeader()
    ensures RatingLeaders([Sample[0], Sample[2]]) == [LeaderRow("Action", "Third", 8.0, 200)]
  {
    var s := [Sample[0], Sample[2]];
    assert s[1..][1..] == [];
    assert GenreOptions(s[1..]) == ["Action"];
    assert GenreOptions(s) == ["Action"];
    assert s[..1] == [Sample[0]];
    assert GenreIdxMax(s[..1], "Action") == 0;
    assert GenreIdxMax(s, "Action") == 1;
    assert LeaderRows(s, ["Action"]) == [LeaderRow("Action", "Third", 8.0, 200)];
  }
}
