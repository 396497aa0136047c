/**
 * The summary views computed from the filtered rows: top-10 lists, per-genre counts, sums
 * and means, the per-genre rating leaders, the vote totals capped for the pie chart, and
 * the shortest and longest movie.
 */
module Aggregates {
  import opened Movies
  import opened Seqs
  import opened Text
  import opened Extremes
  import opened Filters

  /** How many rows the top lists keep (`head(10)`). */
  const TopCount: nat := 10

  /**
   * `sort_values(by=c, ascending=False).head(n)`. The sort is not stable, so nothing is
   * promised about the order of rows with equal keys.
   */
  function TopBy(s: seq<Movie>, c: Column, n: nat): (r: seq<Movie>)
    ensures |r| == if |s| < n then |s| else n
    ensures forall i, j :: 0 <= i < j < |r| ==> Key(r[i], c) >= Key(r[j], c)
    ensures multiset(r) <= multiset(s)
    ensures forall m, k :: m in multiset(s) - multiset(r) && 0 <= k < |r| ==> Key(m, c) <= Key(r[k], c)
  {
    var k := if |s| < n then |s| else n;
    TopPrefix(s, c, k);
    SortDesc(s, KeyFn(c))[..k]
  }

  lemma {:induction false} TopPrefix(s: seq<Movie>, c: Column, k: nat)
    requires k <= |s|
    ensures var r := SortDesc(s, KeyFn(c))[..k];
      && (forall i, j :: 0 <= i < j < |r| ==> Key(r[i], c) >= Key(r[j], c))
      && multiset(r) <= multiset(s)
      && (forall m, i :: m in multiset(s) - multiset(r) && 0 <= i < |r| ==> Key(m, c) <= Key(r[i], c))
  {
    var key := KeyFn(c);
    var sorted := SortDesc(s, key);
    PrefixOfSorted(sorted, key, k);
    assert forall m :: key(m) == Key(m, c);
  }

  /** The number of rows of genre `g`; it never exceeds the number of rows. */
  function GroupCount(s: seq<Movie>, g: string): (n: nat)
    ensures n <= |s|
  {
    if s == [] then 0 else (if s[0].genre == g then 1 else 0) + GroupCount(s[1..], g)
  }

  /** A genre has rows exactly when its count is positive. */
  lemma {:induction false} GroupCountPositive(s: seq<Movie>, g: string)
    ensures GroupCount(s, g) <= |s|
    ensures GroupCount(s, g) > 0 <==> HasGenre(s, g)
  {
    if s != [] {
      HasGenreCons(s, g);
      GroupCountPositive(s[1..], g);
    }
  }

  /** A record set has genre `g` exactly when its first row or the rest of it has. */
  lemma {:induction false} HasGenreCons(s: seq<Movie>, g: string)
    requires s != []
    ensures HasGenre(s, g) <==> s[0].genre == g || HasGenre(s[1..], g)
  {
    assert s == [s[0]] + s[1..];
    if HasGenre(s, g) && s[0].genre != g {
      var m :| m in s && m.genre == g;
      assert m in s[1..];
    }
  }

  /** The sum of `w` over the rows of genre `g`; a genre without rows totals zero. */
  function GroupTotal(s: seq<Movie>, g: string, w: Movie -> real): (t: real)
    ensures (forall i :: 0 <= i < |s| && s[i].genre == g ==> w(s[i]) >= 0.0) ==> t >= 0.0
    ensures (forall i :: 0 <= i < |s| ==> s[i].genre != g) ==> t == 0.0
  {
    if s == [] then 0.0
    else (if s[0].genre == g then w(s[0]) else 0.0) + GroupTotal(s[1..], g, w)
  }

  /** The weight that turns a group total into a group count. */
  function Unit(m: Movie): real
  {
    1.0
  }

  lemma {:induction false} CountIsUnitTotal(s: seq<Movie>, g: string)
    ensures GroupCount(s, g) as real == GroupTotal(s, g, Unit)
  {
    if s != [] {
      CountIsUnitTotal(s[1..], g);
    }
  }

  /** The per-genre statistics the charts use. */
  datatype Stat =
    | Count              // value_counts()
    | Sum(col: Column)   // groupby('genre')[col].sum()
    | Mean(col: Column)  // groupby('genre')[col].mean()

  /** The value of `stat` for genre `g`, which has at least one row. */
  function StatValue(s: seq<Movie>, g: string, stat: Stat): (v: real)
    requires HasGenre(s, g)
    ensures stat.Count? ==> 1.0 <= v <= |s| as real
    ensures stat.Sum? && (forall i :: 0 <= i < |s| ==> Key(s[i], stat.col) >= 0.0) ==> v >= 0.0
  {
    match stat
    case Count =>
      GroupCountPositive(s, g);
      GroupCount(s, g) as real
    case Sum(c) => GroupTotal(s, g, KeyFn(c))
    case Mean(c) =>
      GroupCountPositive(s, g);
      GroupTotal(s, g, KeyFn(c)) / GroupCount(s, g) as real
  }

  /** `n * v`, written as repeated addition so that the bounds below stay linear. */
  function Times(n: nat, v: real): real
  {
    if n == 0 then 0.0 else v + Times(n - 1, v)
  }

  lemma {:induction false} TimesIsProduct(n: nat, v: real)
    ensures Times(n, v) == n as real * v
  {
    if n > 0 {
      TimesIsProduct(n - 1, v);
    }
  }

  lemma {:induction false} GroupTotalBelow(s: seq<Movie>, g: string, w: Movie -> real, v: real)
    requires forall m :: m in s && m.genre == g ==> w(m) < v
    ensures GroupTotal(s, g, w) <= Times(GroupCount(s, g), v)
    ensures HasGenre(s, g) ==> GroupTotal(s, g, w) < Times(GroupCount(s, g), v)
  {
    if s != [] {
      assert s == [s[0]] + s[1..];
      HasGenreCons(s, g);
      GroupTotalBelow(s[1..], g, w, v);
    }
  }

  lemma {:induction false} GroupTotalAbove(s: seq<Movie>, g: string, w: Movie -> real, v: real)
    requires forall m :: m in s && m.genre == g ==> w(m) > v
    ensures GroupTotal(s, g, w) >= Times(GroupCount(s, g), v)
    ensures HasGenre(s, g) ==> GroupTotal(s, g, w) > Times(GroupCount(s, g), v)
  {
    if s != [] {
      assert s == [s[0]] + s[1..];
      HasGenreCons(s, g);
      GroupTotalAbove(s[1..], g, w, v);
    }
  }

  /**
   * A genre's mean (its sum divided by its count) lies between the smallest and the
   * largest value of that column among the genre's rows.
   */
  lemma {:induction false} MeanWithinGroup(s: seq<Movie>, g: string, c: Column)
    requires HasGenre(s, g)
    ensures exists m :: m in s && m.genre == g && Key(m, c) <= StatValue(s, g, Mean(c))
    ensures exists m :: m in s && m.genre == g && Key(m, c) >= StatValue(s, g, Mean(c))
  {
    var mean := StatValue(s, g, Mean(c));
    MeanTimesCount(s, g, c);
    if !exists m :: m in s && m.genre == g && Key(m, c) <= mean {
      GroupTotalAbove(s, g, KeyFn(c), mean);
    }
    if !exists m :: m in s && m.genre == g && Key(m, c) >= mean {
      GroupTotalBelow(s, g, KeyFn(c), mean);
    }
  }

  /** The mean added up once per row of its genre gives back the genre's sum. */
  lemma {:induction false} MeanTimesCount(s: seq<Movie>, g: string, c: Column)
    requires HasGenre(s, g)
    ensures Times(GroupCount(s, g), StatValue(s, g, Mean(c))) == GroupTotal(s, g, KeyFn(c))
  {
    GroupCountPositive(s, g);
    var n := GroupCount(s, g);
    var total := GroupTotal(s, g, KeyFn(c));
    var mean := StatValue(s, g, Mean(c));
    assert mean == total / n as real;
    TimesQuotient(n, total);
  }

  lemma {:induction false} TimesQuotient(n: nat, t: real)
    requires n > 0
    ensures Times(n, t / n as real) == t
  {
    TimesIsProduct(n, t / n as real);
  }

  /** One row of a per-genre view: a genre label and its value. */
  datatype Entry = Entry(name: string, value: real)

  function EntryValue(e: Entry): real
  {
    e.value
  }

  function EntryLabel(e: Entry): string
  {
    e.name
  }

  /** The entries for the genres `gs`, in that order (the order of groupby's keys). */
  function GenreEntries(s: seq<Movie>, gs: seq<string>, stat: Stat): (v: seq<Entry>)
    requires forall g :: g in gs ==> HasGenre(s, g)
    ensures |v| == |gs|
    ensures forall i :: 0 <= i < |gs| ==> v[i].name == gs[i] && v[i].value == StatValue(s, gs[i], stat)
  {
    if gs == [] then []
    else [Entry(gs[0], StatValue(s, gs[0], stat))] + GenreEntries(s, gs[1..], stat)
  }

  /**
   * A per-genre view (`value_counts()` or `groupby('genre')[col].agg()`) followed by
   * `sort_values(ascending=False)`: one entry per genre present, largest value first.
   */
  function GenreView(s: seq<Movie>, stat: Stat): (v: seq<Entry>)
    ensures DistinctBy(v, EntryLabel)
    ensures forall g :: (exists e :: e in v && e.name == g) <==> HasGenre(s, g)
    ensures forall e :: e in v ==> HasGenre(s, e.name) && e.value == StatValue(s, e.name, stat)
    ensures forall i, j :: 0 <= i < j < |v| ==> v[i].value >= v[j].value
  {
    var gs := GenreOptions(s);
    var entries := GenreEntries(s, gs, stat);
    AscendingDistinct(gs);
    assert DistinctBy(entries, EntryLabel);
    SortKeepsDistinct(entries, EntryValue, EntryLabel);
    SortKeepsMembers(entries, EntryValue);
    EntriesCoverGenres(s, gs, stat);
    SortDesc(entries, EntryValue)
  }

  lemma {:induction false} EntriesCoverGenres(s: seq<Movie>, gs: seq<string>, stat: Stat)
    requires forall g :: g in gs ==> HasGenre(s, g)
    ensures forall g :: (exists e :: e in GenreEntries(s, gs, stat) && e.name == g) <==> g in gs
    ensures forall e :: e in GenreEntries(s, gs, stat) ==> e.name in gs && e.value == StatValue(s, e.name, stat)
  {
    var v := GenreEntries(s, gs, stat);
    forall g ensures (exists e :: e in v && e.name == g) <==> g in gs {
      if g in gs {
        var i :| 0 <= i < |gs| && gs[i] == g;
        assert v[i] in v;
      }
    }
  }

  /** The sum of the group totals of weight `w` over the genres `gs`. */
  function SumOverGroups(s: seq<Movie>, gs: seq<string>, w: Movie -> real): real
  {
    if gs == [] then 0.0 else GroupTotal(s, gs[0], w) + SumOverGroups(s, gs[1..], w)
  }

  /** Moving the first row out of every group total. */
  lemma {:induction false} PeelFirstRow(s: seq<Movie>, gs: seq<string>, w: Movie -> real)
    requires s != []
    requires forall i, j :: 0 <= i < j < |gs| ==> gs[i] != gs[j]
    ensures SumOverGroups(s, gs, w) == (if s[0].genre in gs then w(s[0]) else 0.0) + SumOverGroups(s[1..], gs, w)
  {
    if gs != [] {
      PeelFirstRow(s, gs[1..], w);
      assert s[0].genre == gs[0] ==> s[0].genre !in gs[1..];
    }
  }

  /** Groups over distinct genres that cover every row partition the rows: their totals add up. */
  lemma {:induction false} GroupsPartition(s: seq<Movie>, gs: seq<string>, w: Movie -> real)
    requires forall i, j :: 0 <= i < j < |gs| ==> gs[i] != gs[j]
    requires forall m :: m in s ==> m.genre in gs
    ensures SumOverGroups(s, gs, w) == SumBy(s, w)
  {
    if s == [] {
      EmptyGroups(gs, w);
    } else {
      assert s[0] in s;
      PeelFirstRow(s, gs, w);
      GroupsPartition(s[1..], gs, w);
    }
  }

  lemma {:induction false} EmptyGroups(gs: seq<string>, w: Movie -> real)
    ensures SumOverGroups([], gs, w) == 0.0
  {
    if gs != [] {
      EmptyGroups(gs[1..], w);
    }
  }

  lemma {:induction false} EntriesSum(s: seq<Movie>, gs: seq<string>, stat: Stat, w: Movie -> real)
    requires forall g :: g in gs ==> HasGenre(s, g)
    requires forall g :: g in gs ==> StatValue(s, g, stat) == GroupTotal(s, g, w)
    ensures SumBy(GenreEntries(s, gs, stat), EntryValue) == SumOverGroups(s, gs, w)
  {
    if gs != [] {
      EntriesSum(s, gs[1..], stat, w);
    }
  }

  /** A present genre's mean is its sum over its positive count. */
  lemma {:induction false} MeanIsRatio(s: seq<Movie>, g: string, c: Column)
    requires HasGenre(s, g)
    ensures StatValue(s, g, Count) > 0.0
    ensures StatValue(s, g, Mean(c)) == StatValue(s, g, Sum(c)) / StatValue(s, g, Count)
  {
    GroupCountPositive(s, g);
  }

  /**
   * The mean views agree with the sum and count views: all three have the same labels, and
   * under each label the mean is the sum divided by the (positive) count.
   */
  lemma {:induction false} MeansAreSumsOverCounts(s: seq<Movie>, c: Column)
    ensures forall e, a, n ::
      && e in GenreView(s, Mean(c)) && a in GenreView(s, Sum(c)) && n in GenreView(s, Count)
      && a.name == e.name && n.name == e.name
      ==> n.value > 0.0 && e.value == a.value / n.value
  {
    var means, sums, counts := GenreView(s, Mean(c)), GenreView(s, Sum(c)), GenreView(s, Count);
    forall e, a, n | e in means && a in sums && n in counts && a.name == e.name && n.name == e.name
      ensures n.value > 0.0 && e.value == a.value / n.value
    {
      MeanEntryIsRatio(s, c, e, a, n);
    }
  }

  lemma {:induction false} MeanEntryIsRatio(s: seq<Movie>, c: Column, e: Entry, a: Entry, n: Entry)
    requires e in GenreView(s, Mean(c)) && a in GenreView(s, Sum(c)) && n in GenreView(s, Count)
    requires a.name == e.name && n.name == e.name
    ensures n.value > 0.0 && e.value == a.value / n.value
  {
    MeanIsRatio(s, e.name, c);
  }

  /** The genre counts add up to the number of filtered rows. */
  lemma {:induction false} CountsAddUp(s: seq<Movie>)
    ensures SumBy(GenreView(s, Count), EntryValue) == |s| as real
  {
    var gs := GenreOptions(s);
    AscendingDistinct(gs);
    forall g | g in gs ensures StatValue(s, g, Count) == GroupTotal(s, g, Unit) {
      CountIsUnitTotal(s, g);
    }
    EntriesSum(s, gs, Count, Unit);
    GroupsPartition(s, gs, Unit);
    SortKeepsSum(GenreEntries(s, gs, Count), EntryValue, EntryValue);
    UnitSum(s);
  }

  lemma {:induction false} UnitSum(s: seq<Movie>)
    ensures SumBy(s, Unit) == |s| as real
  {
    if s != [] {
      UnitSum(s[1..]);
    }
  }

  /** The per-genre sums of a column add up to the column's total. */
  lemma {:induction false} SumsAddUp(s: seq<Movie>, c: Column)
    ensures SumBy(GenreView(s, Sum(c)), EntryValue) == SumBy(s, KeyFn(c))
  {
    var gs := GenreOptions(s);
    AscendingDistinct(gs);
    EntriesSum(s, gs, Sum(c), KeyFn(c));
    GroupsPartition(s, gs, KeyFn(c));
    SortKeepsSum(GenreEntries(s, gs, Sum(c)), EntryValue, EntryValue);
  }

  /** The columns kept for the rating-leaders table: genre, movie_name, rating, voting_counts. */
  datatype LeaderRow = LeaderRow(genre: string, movieName: string, rating: real, votingCounts: int)

  function RowOf(m: Movie): LeaderRow
  {
    LeaderRow(m.genre, m.movieName, m.rating, m.votingCounts)
  }

  function RowRating(r: LeaderRow): real
  {
    r.rating
  }

  function RowGenre(r: LeaderRow): string
  {
    r.genre
  }

  /** `df.loc[idx]` for the per-genre `idxmax` of the genres `gs`. */
  function LeaderRows(s: seq<Movie>, gs: seq<string>): (v: seq<LeaderRow>)
    requires forall g :: g in gs ==> HasGenre(s, g)
    ensures |v| == |gs|
    ensures forall i :: 0 <= i < |gs| ==> v[i] == RowOf(s[GenreIdxMax(s, gs[i])])
  {
    if gs == [] then []
    else [RowOf(s[GenreIdxMax(s, gs[0])])] + LeaderRows(s, gs[1..])
  }

  lemma {:induction false} LeaderRowsCoverGenres(s: seq<Movie>, gs: seq<string>)
    requires forall g :: g in gs ==> HasGenre(s, g)
    ensures forall g :: (exists r :: r in LeaderRows(s, gs) && r.genre == g) <==> g in gs
    ensures forall r :: r in LeaderRows(s, gs) ==> r.genre in gs && r == RowOf(s[GenreIdxMax(s, r.genre)])
  {
    var v := LeaderRows(s, gs);
    forall g ensures (exists r :: r in v && r.genre == g) <==> g in gs {
      if g in gs {
        var i :| 0 <= i < |gs| && gs[i] == g;
        assert v[i] in v;
      }
    }
  }

  /**
   * The top-rated movie of each genre, sorted by rating, highest first: one row per genre
   * present, holding a rating no row of that genre exceeds, taken from the first row of that
   * genre with that rating.
   */
  function RatingLeaders(s: seq<Movie>): (v: seq<LeaderRow>)
    ensures DistinctBy(v, RowGenre)
    ensures forall g :: (exists r :: r in v && r.genre == g) <==> HasGenre(s, g)
    ensures forall r, m :: r in v && m in s && m.genre == r.genre ==> m.rating <= r.rating
    ensures forall r :: r in v ==> HasGenre(s, r.genre) && r == RowOf(s[GenreIdxMax(s, r.genre)])
    ensures forall i, j :: 0 <= i < j < |v| ==> v[i].rating >= v[j].rating
  {
    var gs := GenreOptions(s);
    var rows := LeaderRows(s, gs);
    AscendingDistinct(gs);
    LeaderRowsCoverGenres(s, gs);
    SortKeepsDistinct(rows, RowRating, RowGenre);
    SortKeepsMembers(rows, RowRating);
    LeadersAreMaxima(s, SortDesc(rows, RowRating));
    SortDesc(rows, RowRating)
  }

  lemma {:induction false} LeadersAreMaxima(s: seq<Movie>, v: seq<LeaderRow>)
    requires forall r :: r in v ==> HasGenre(s, r.genre) && r == RowOf(s[GenreIdxMax(s, r.genre)])
    ensures forall r, m :: r in v && m in s && m.genre == r.genre ==> m.rating <= r.rating
  {
    forall r, m | r in v && m in s && m.genre == r.genre ensures m.rating <= r.rating {
      var j :| 0 <= j < |s| && s[j] == m;
    }
  }

  /** How many genres the pie chart shows individually. */
  const PieGenres: nat := 10

  /** The label of the synthetic entry that collects the remaining genres. */
  const OtherLabel: string := "Other"

  /**
   * Some entry of `v` is labelled `l`. Stated by index rather than by membership, unlike
   * `HasGenre` and the views' own contracts, because the index form keeps the proofs about
   * label assignment below (`SetLabelIsMapUpdate` and `CapVotes`) within the solver's budget.
   */
  predicate HasLabel(v: seq<Entry>, l: string)
  {
    exists i :: 0 <= i < |v| && v[i].name == l
  }

  /** The labelled entries as a dictionary. */
  function AsMap(v: seq<Entry>): (m: map<string, real>)
    requires DistinctBy(v, EntryLabel)
    ensures forall l :: l in m <==> HasLabel(v, l)
    ensures forall i :: 0 <= i < |v| ==> v[i].name in m && m[v[i].name] == v[i].value
  {
    map i | 0 <= i < |v| :: v[i].name := v[i].value
  }

  /**
   * Label assignment on a Series, `v[l] = x`: every entry labelled `l` takes the value `x`
   * in place; when there is none, a new entry is appended at the end.
   */
  function SetLabel(v: seq<Entry>, l: string, x: real): (r: seq<Entry>)
    ensures HasLabel(v, l) ==> |r| == |v| && forall i :: 0 <= i < |v| ==>
      r[i].name == v[i].name && r[i].value == (if v[i].name == l then x else v[i].value)
    ensures !HasLabel(v, l) ==> r == v + [Entry(l, x)]
  {
    if HasLabel(v, l) then Overwrite(v, l, x) else v + [Entry(l, x)]
  }

  /** Every entry labelled `l` takes the value `x`; the others are unchanged. */
  function Overwrite(v: seq<Entry>, l: string, x: real): (r: seq<Entry>)
    ensures |r| == |v|
    ensures forall i :: 0 <= i < |v| ==>
      r[i].name == v[i].name && r[i].value == (if v[i].name == l then x else v[i].value)
  {
    if v == [] then []
    else [if v[0].name == l then Entry(l, x) else v[0]] + Overwrite(v[1..], l, x)
  }

  /** Label assignment keeps the labels distinct. */
  lemma {:induction false} SetLabelKeepsDistinct(v: seq<Entry>, l: string, x: real)
    requires DistinctBy(v, EntryLabel)
    ensures DistinctBy(SetLabel(v, l, x), EntryLabel)
  {
    var r := SetLabel(v, l, x);
    forall i, j | 0 <= i < j < |r| ensures EntryLabel(r[i]) != EntryLabel(r[j]) {
      if j < |v| {
        assert EntryLabel(v[i]) != EntryLabel(v[j]);
      }
    }
  }

  /** After `v[l] = x` the labels are those of `v` and `l`. */
  lemma {:induction false} SetLabelKeys(v: seq<Entry>, l: string, x: real)
    ensures forall k :: HasLabel(SetLabel(v, l, x), k) <==> HasLabel(v, k) || k == l
  {
    var r := SetLabel(v, l, x);
    forall k ensures HasLabel(r, k) <==> HasLabel(v, k) || k == l {
      if HasLabel(r, k) {
        var i :| 0 <= i < |r| && r[i].name == k;
        if i < |v| {
          assert v[i].name == k;
        }
      }
      if HasLabel(v, k) {
        var i :| 0 <= i < |v| && v[i].name == k;
        assert r[i].name == k;
      }
      if k == l && !HasLabel(v, l) {
        assert r[|v|].name == k;
      }
    }
  }

  /** After `v[l] = x` on a present label, the value under each label is the updated dictionary's. */
  lemma {:induction false} OverwriteAt(v: seq<Entry>, l: string, x: real, i: nat)
    requires DistinctBy(v, EntryLabel) && HasLabel(v, l) && i < |v|
    requires DistinctBy(SetLabel(v, l, x), EntryLabel)
    ensures SetLabel(v, l, x)[i].name == v[i].name && v[i].name in AsMap(SetLabel(v, l, x))
    ensures AsMap(SetLabel(v, l, x))[v[i].name] == AsMap(v)[l := x][v[i].name]
  {
    var r := SetLabel(v, l, x);
    assert r[i].name == v[i].name;
    if v[i].name != l {
      assert AsMap(v)[v[i].name] == v[i].value == r[i].value;
    }
  }


  /** After `v[l] = x` on an absent label, the value under `k` is the updated dictionary's. */
  lemma {:induction false} AppendAt(v: seq<Entry>, l: string, x: real, k: string)
    requires DistinctBy(v, EntryLabel) && !HasLabel(v, l)
    requires DistinctBy(SetLabel(v, l, x), EntryLabel)
    requires k in AsMap(SetLabel(v, l, x))
    ensures k in AsMap(v)[l := x] && AsMap(SetLabel(v, l, x))[k] == AsMap(v)[l := x][k]
  {
    var r := SetLabel(v, l, x);
    var i :| 0 <= i < |r| && r[i].name == k;
    assert AsMap(r)[k] == r[i].value;
    if i < |v| {
      assert v[i].name == k;
      assert AsMap(v)[k] == v[i].value;
    }
  }

  /** On distinct labels, label assignment is a dictionary update. */
  lemma {:induction false} SetLabelIsMapUpdate(v: seq<Entry>, l: string, x: real)
    requires DistinctBy(v, EntryLabel)
    ensures DistinctBy(SetLabel(v, l, x), EntryLabel)
    ensures AsMap(SetLabel(v, l, x)) == AsMap(v)[l := x]
  {
    SetLabelKeepsDistinct(v, l, x);
    SetLabelMapKeys(v, l, x);
    SetLabelValues(v, l, x);
    SameMap(AsMap(SetLabel(v, l, x)), AsMap(v)[l := x]);
  }

  lemma {:induction false} SetLabelMapKeys(v: seq<Entry>, l: string, x: real)
    requires DistinctBy(v, EntryLabel) && DistinctBy(SetLabel(v, l, x), EntryLabel)
    ensures forall k :: k in AsMap(SetLabel(v, l, x)) <==> k in AsMap(v)[l := x]
  {
    SetLabelKeys(v, l, x);
  }

  /** Two dictionaries with the same keys and the same value under each are equal. */
  lemma {:induction false} SameMap(m: map<string, real>, u: map<string, real>)
    requires forall k :: k in m <==> k in u
    requires forall k :: k in m ==> m[k] == u[k]
    ensures m == u
  {
  }


  lemma {:induction false} SetLabelValues(v: seq<Entry>, l: string, x: real)
    requires DistinctBy(v, EntryLabel) && DistinctBy(SetLabel(v, l, x), EntryLabel)
    ensures forall k :: k in AsMap(SetLabel(v, l, x)) ==>
      k in AsMap(v)[l := x] && AsMap(SetLabel(v, l, x))[k] == AsMap(v)[l := x][k]
  {
    var r := SetLabel(v, l, x);
    forall k | k in AsMap(r) ensures k in AsMap(v)[l := x] && AsMap(r)[k] == AsMap(v)[l := x][k] {
      if HasLabel(v, l) {
        var j :| 0 <= j < |r| && r[j].name == k;
        OverwriteAt(v, l, x, j);
      } else {
        AppendAt(v, l, x, k);
      }
    }
  }


  /**
   * The pie-chart data: with more than `PieGenres` genres, the first `PieGenres` entries,
   * and "Other" set to the sum of the rest when that sum is positive; otherwise the view.
   */
  function CapVotes(v: seq<Entry>): (r: seq<Entry>)
    ensures |v| <= PieGenres ==> r == v
    ensures |v| > PieGenres ==> PieGenres <= |r| <= PieGenres + 1
  {
    if |v| > PieGenres then
      var other := SumBy(v[PieGenres..], EntryValue);
      var head := v[..PieGenres];
      if other > 0.0 then SetLabel(head, OtherLabel, other) else head
    else v
  }

  /**
   * The entries of the capped view: the first `PieGenres` labels in place, with their values
   * unless the label is "Other"; "Other" present exactly when it was a kept label or the rest
   * sum to a positive number, and then, if that sum is positive, holding it.
   */
  lemma {:induction false} CapVotesEntries(v: seq<Entry>)
    requires |v| > PieGenres
    ensures var r, other := CapVotes(v), SumBy(v[PieGenres..], EntryValue);
      && (forall i :: 0 <= i < PieGenres ==>
            r[i].name == v[i].name && (v[i].name != OtherLabel ==> r[i].value == v[i].value))
      && (forall k :: HasLabel(r, k) <==> HasLabel(v[..PieGenres], k) || (k == OtherLabel && other > 0.0))
      && (other > 0.0 ==> forall i :: 0 <= i < |r| && r[i].name == OtherLabel ==> r[i].value == other)
  {
    SetLabelKeys(v[..PieGenres], OtherLabel, SumBy(v[PieGenres..], EntryValue));
  }


  /**
   * With more than `PieGenres` genres, a positive remainder and no genre called "Other"
   * among the kept ones, the pie chart has `PieGenres + 1` entries, the last being "Other".
   * When a kept genre is called "Other", it has `PieGenres` entries instead.
   */
  lemma {:induction false} CapVotesEntryCount(v: seq<Entry>)
    requires |v| > PieGenres && SumBy(v[PieGenres..], EntryValue) > 0.0
    ensures !HasLabel(v[..PieGenres], OtherLabel) ==>
      |CapVotes(v)| == PieGenres + 1 && CapVotes(v)[PieGenres] == Entry(OtherLabel, SumBy(v[PieGenres..], EntryValue))
    ensures HasLabel(v[..PieGenres], OtherLabel) ==> |CapVotes(v)| == PieGenres
  {
  }

  /** On distinct labels, the pie chart's dictionary is the first entries' with "Other" set. */
  lemma {:induction false} CapVotesIsMapUpdate(v: seq<Entry>)
    requires |v| > PieGenres && DistinctBy(v, EntryLabel)
    ensures DistinctBy(CapVotes(v), EntryLabel) && DistinctBy(v[..PieGenres], EntryLabel)
    ensures var other := SumBy(v[PieGenres..], EntryValue);
      AsMap(CapVotes(v)) == if other > 0.0 then AsMap(v[..PieGenres])[OtherLabel := other] else AsMap(v[..PieGenres])
  {
    var head := v[..PieGenres];
    assert DistinctBy(head, EntryLabel);
    SetLabelIsMapUpdate(head, OtherLabel, SumBy(v[PieGenres..], EntryValue));
  }

  /**
   * With non-negative values and no genre called "Other" among the kept ones, the pie
   * chart's entries add up to the same total as the whole view.
   */
  lemma {:induction false} CapVotesKeepsTotal(v: seq<Entry>)
    requires forall e :: e in v ==> e.value >= 0.0
    requires |v| > PieGenres ==> !HasLabel(v[..PieGenres], OtherLabel)
    ensures SumBy(CapVotes(v), EntryValue) == SumBy(v, EntryValue)
  {
    if |v| > PieGenres {
      var head, tail := v[..PieGenres], v[PieGenres..];
      CapVotesShape(v);
      assert v == head + tail;
      SumByAppend(head, tail, EntryValue);
      var other := SumBy(tail, EntryValue);
      if other > 0.0 {
        SumByAppend(head, [Entry(OtherLabel, other)], EntryValue);
      } else {
        assert forall e :: e in tail ==> e in v;
        NonNegativeSum(tail);
      }
    }
  }


  /** With no kept genre called "Other", the capped view is the head, then "Other" if positive. */
  lemma {:induction false} CapVotesShape(v: seq<Entry>)
    requires |v| > PieGenres && !HasLabel(v[..PieGenres], OtherLabel)
    ensures var other := SumBy(v[PieGenres..], EntryValue);
      CapVotes(v) == v[..PieGenres] + if other > 0.0 then [Entry(OtherLabel, other)] else []
  {
  }


  lemma {:induction false} NonNegativeSum(v: seq<Entry>)
    requires forall e :: e in v ==> e.value >= 0.0
    ensures SumBy(v, EntryValue) >= 0.0
  {
    if v != [] {
      assert v[0] in v;
      NonNegativeSum(v[1..]);
    }
  }

  /**
   * The pie chart over the per-genre vote totals: at most 11 entries, and with non-negative
   * votes and no genre called "Other" its values add up to the votes of all filtered rows.
   */
  lemma {:induction false} PieKeepsAllVotes(s: seq<Movie>)
    requires forall m :: m in s ==> m.votingCounts >= 0
    requires !HasGenre(s, OtherLabel)
    ensures |CapVotes(GenreView(s, Sum(Votes)))| <= PieGenres + 1
    ensures SumBy(CapVotes(GenreView(s, Sum(Votes))), EntryValue) == SumBy(s, KeyFn(Votes))
  {
    var v := GenreView(s, Sum(Votes));
    forall e | e in v ensures e.value >= 0.0 {
      NonNegativeGroupTotal(s, e.name);
    }
    CapVotesKeepsTotal(v);
    SumsAddUp(s, Votes);
  }

  lemma {:induction false} NonNegativeGroupTotal(s: seq<Movie>, g: string)
    requires forall m :: m in s ==> m.votingCounts >= 0
    ensures GroupTotal(s, g, KeyFn(Votes)) >= 0.0
  {
    if s != [] {
      assert s[0] in s;
      NonNegativeGroupTotal(s[1..], g);
    }
  }

  /**
   * The shortest movie (`loc[idxmin()]` of the duration): no filtered movie is shorter, and
   * every row before it is strictly longer.
   */
  function Shortest(s: seq<Movie>): (m: Movie)
    requires s != []
    ensures m in s
    ensures forall x :: x in s ==> m.durationMinutes <= x.durationMinutes
    ensures exists i :: 0 <= i < |s| && s[i] == m && forall j :: 0 <= j < i ==> s[j].durationMinutes > m.durationMinutes
  {
    var i := IdxMin(s, Duration);
    assert forall x :: x in s ==> Key(s[i], Duration) <= Key(x, Duration);
    assert forall j :: 0 <= j < i ==> Key(s[i], Duration) < Key(s[j], Duration);
    s[i]
  }

  /**
   * The longest movie (`loc[idxmax()]` of the duration): no filtered movie is longer, and
   * every row before it is strictly shorter.
   */
  function Longest(s: seq<Movie>): (m: Movie)
    requires s != []
    ensures m in s
    ensures forall x :: x in s ==> x.durationMinutes <= m.durationMinutes
    ensures exists i :: 0 <= i < |s| && s[i] == m && forall j :: 0 <= j < i ==> s[j].durationMinutes < m.durationMinutes
  {
    var i := IdxMax(s, Duration);
    assert forall x :: x in s ==> Key(x, Duration) <= Key(s[i], Duration);
    assert forall j :: 0 <= j < i ==> Key(s[j], Duration) < Key(s[i], Duration);
    s[i]
  }
}
