# IMDb 2024 dashboard: filter and aggregate pipeline

A Dafny model of the data logic of the Streamlit dashboard `imdb_dashboard_app.py`. The
dashboard loads a table of 2024 movies (`movie_name`, `genre`, `rating`, `duration_minutes`,
`voting_counts`), lets the user narrow it in a sidebar, and draws summary views of what is
left. The model covers everything between the loaded table and the rendered charts:

- **Genre selector** (`Filters.GenreOptions`): its options, and its default, are the sorted
  distinct genres. Python orders strings by code point (`Text.Below`).
- **Genre filter** (`Filters.FilterGenre`): `genre.isin(selected)`.
- **Slider bounds** (`Filters.SliderBounds`): each slider's min and max come from the
  genre-filtered rows. When no row is left, the fixed fallbacks (0.0, 10.0), (0, 300) and
  (0, 1000000) are used. The script also uses these bounds as the sliders' default values.
- **Range filter** (`Filters.FilterRanges`): the conjunction of six inclusive comparisons.
- **Views**: `Dashboard.Run` skips them all when the filtered table is empty. Otherwise they
  are:
  - the top-10 lists by rating and by votes (`Aggregates.TopBy`);
  - the per-genre count, and the mean duration, votes and rating (`Aggregates.GenreView`);
  - the per-genre rating leader (`Aggregates.RatingLeaders`);
  - the per-genre vote totals capped at ten genres plus "Other" (`Aggregates.CapVotes`);
  - the shortest and longest movie (`Aggregates.Shortest`, `Aggregates.Longest`).

The pandas operations are modelled on sequences:

- **Boolean masks** (`Seqs.Select`): they keep the matching rows in order.
- **`sort_values(ascending=False)`**: modelled by one fixed descending sort (`Seqs.SortDesc`).
  Its contracts promise only sortedness and a permutation, because pandas' default sort is
  quicksort and is not stable.
- **`groupby('genre')`**: it visits the genres in sorted order.
- **`idxmin`/`idxmax`** (`Extremes`): they return the first row that attains the extreme.
- **The pie-chart Series** (`Aggregates.SetLabel`): label assignment `s['Other'] = x`
  overwrites an existing entry in place or appends a new one. `SetLabelIsMapUpdate` proves
  that this is exactly a dictionary update.

Two behaviours of the code that a reader might expect otherwise:

- **Top-10 ties.** `sort_values` defaults to quicksort, which is not stable, so no order is
  promised among equal keys. The model proves only that no omitted row has a larger key than
  a kept one.
- **Size of the capped vote view.** With more than ten genres the capped view has eleven
  entries only when the rest sum to a positive number and no kept genre is itself called
  "Other". If a kept genre is called "Other", line 240 overwrites its total and the view has
  ten entries (`Aggregates.CapVotesEntryCount`).

Ratings, means and sums are mathematical reals. Durations and vote counts are unbounded
integers; they are compared as reals through `Movies.Key`.

## Model

| member | source | states |
|---|---|---|
| Filters.GenreOptions | imdb_dashboard_app.py:65 | the options are strictly ascending (sorted, no repeats) and hold exactly the genres present in the dataset |
| Text.Below | imdb_dashboard_app.py:65 | Python's `<` on strings, code-point lexicographic with a proper prefix first: a string below another differs from it |
| Text.BelowIrreflexive | imdb_dashboard_app.py:65 | no string is below itself |
| Text.BelowTransitive | imdb_dashboard_app.py:65 | the string order is transitive |
| Text.BelowTotal | imdb_dashboard_app.py:65 | any two distinct strings are ordered one way or the other, so `sorted` has a single answer |
| Filters.FilterGenre | imdb_dashboard_app.py:73 | a row is kept iff its genre is selected; each kept row keeps its multiplicity; the result is an order-preserving subsequence |
| Filters.DefaultSelectionKeepsAll | imdb_dashboard_app.py:65-73 | with the default selection (all genres) the genre filter returns the dataset unchanged |
| Filters.SliderBounds | imdb_dashboard_app.py:77-119 | on an empty subset the bounds are the fallbacks (0.0, 10.0), (0, 300), (0, 1000000); otherwise every row lies within all three bounds and each bound is attained by some row (it is that column's min or max) |
| Dashboard.OfferedBounds | imdb_dashboard_app.py:77-119 | the bounds offered for a selection are the fallbacks when no row has a selected genre, and otherwise contain every row of a selected genre |
| Filters.FilterRanges | imdb_dashboard_app.py:124-131 | a row is kept iff all six inclusive comparisons hold; multiplicities kept; order-preserving subsequence |
| Filters.FilterRangesIdempotent | imdb_dashboard_app.py:124-131 | applying the range filter a second time with the same ranges changes nothing |
| Filters.DefaultRangesKeepAll | imdb_dashboard_app.py:77-131 | with every slider at its default value the range filter keeps every genre-filtered row |
| Filters.RangeStagesInAnyOrder | imdb_dashboard_app.py:124-131 | the six-way conjunction equals the three interval filters applied one after another, in each of the six orders |
| Filters.FilterAll | imdb_dashboard_app.py:73-131 | the final table holds exactly the rows that are of a selected genre and within all ranges, each such row as often as in the dataset and every other row not at all, in dataset order |
| Seqs.Select | imdb_dashboard_app.py:124-131 | a boolean mask keeps exactly the matching elements, with their multiplicities, as a subsequence |
| Seqs.PrefixOfSorted | imdb_dashboard_app.py:146 | `head(k)` of a descending list is sorted, a sub-multiset, and no element left out is larger than a kept one |
| Seqs.SortDesc | imdb_dashboard_app.py:146 | the descending sort is sorted non-increasing on its key and is a permutation of its input |
| Seqs.SubsequenceNoLonger | imdb_dashboard_app.py:136 | the displayed count of filtered rows never exceeds the dataset's size |
| Extremes.IdxMin | imdb_dashboard_app.py:254 | the index holds a minimum of the column and every earlier row is strictly larger (first occurrence) |
| Extremes.IdxMax | imdb_dashboard_app.py:255 | the index holds a maximum of the column and every earlier row is strictly smaller (first occurrence) |
| Extremes.GenreIdxMax | imdb_dashboard_app.py:221 | the index holds a row of the genre whose rating no row of that genre exceeds, and no earlier row of the genre has that rating |
| Aggregates.TopPrefix | imdb_dashboard_app.py:158 | the first k rows of the descending sort are sorted, drawn from the input without duplication, and not exceeded by any row left out |
| Aggregates.TopBy | imdb_dashboard_app.py:146 | the result has min(10, n) rows, is sorted non-increasing on the key, is drawn from the input without duplication (sub-multiset), and no omitted row has a larger key than any kept row |
| Aggregates.GroupCountPositive | imdb_dashboard_app.py:171 | a genre's count is at most the number of rows and is positive iff the genre is present |
| Aggregates.GroupCount | imdb_dashboard_app.py:171 | the number of rows of a genre never exceeds the number of rows |
| Aggregates.GroupTotal | imdb_dashboard_app.py:232 | a genre's total is zero when it has no rows and non-negative when every row of it has a non-negative value |
| Aggregates.StatValue | imdb_dashboard_app.py:171-232 | for a present genre, the count view's value is between one and the number of rows, and a sum over a non-negative column is non-negative |
| Aggregates.GenreEntries | imdb_dashboard_app.py:184 | the groupby result has one entry per key, in key order, holding that genre's statistic |
| Aggregates.GenreView | imdb_dashboard_app.py:171 | one entry per distinct genre present (labels distinct, present iff the genre occurs), each holding that genre's count, sum or mean, sorted non-increasing |
| Aggregates.CountIsUnitTotal | imdb_dashboard_app.py:171 | a genre's count is the total of 1 over its rows |
| Aggregates.GroupsPartition | imdb_dashboard_app.py:232 | groups over distinct genres that cover every row partition the rows: their totals add up to the total over all rows |
| Aggregates.CountsAddUp | imdb_dashboard_app.py:171 | the genre counts add up to the number of filtered rows |
| Aggregates.SumsAddUp | imdb_dashboard_app.py:232 | the per-genre sums of a column add up to that column's total over the filtered rows |
| Aggregates.MeanWithinGroup | imdb_dashboard_app.py:184 | each genre's mean lies between the smallest and the largest value of the column among that genre's rows |
| Aggregates.MeanEntryIsRatio | imdb_dashboard_app.py:196 | an entry of a mean view equals the same genre's sum-view entry divided by its positive count-view entry |
| Aggregates.MeansAreSumsOverCounts | imdb_dashboard_app.py:278 | the mean, sum and count views have the same labels (each view's labels are the genres present), and under each label the mean is the sum divided by the positive count |
| Aggregates.GroupTotalBelow | imdb_dashboard_app.py:184 | if every row of a present genre is below v, its total is strictly below count times v |
| Aggregates.GroupTotalAbove | imdb_dashboard_app.py:184 | if every row of a present genre is above v, its total is strictly above count times v |
| Aggregates.LeaderRows | imdb_dashboard_app.py:221-222 | `loc[idx]` yields, per genre key, the genre, name, rating and votes of that genre's idxmax row |
| Aggregates.LeaderRowsCoverGenres | imdb_dashboard_app.py:221-222 | the leader rows carry exactly the given genres, each row being its genre's idxmax row |
| Aggregates.RatingLeaders | imdb_dashboard_app.py:221-223 | exactly one row per genre present; its rating is not exceeded by any row of that genre; it is taken from the first such row; rows sorted non-increasing by rating |
| Aggregates.AsMap | imdb_dashboard_app.py:240 | a Series with distinct labels read as a dictionary: its keys are the labels and each label maps to its value |
| Aggregates.SetLabel | imdb_dashboard_app.py:240 | assigning to a present label overwrites its entries in place and keeps the length; assigning to an absent label appends one entry at the end |
| Aggregates.SetLabelKeepsDistinct | imdb_dashboard_app.py:240 | label assignment keeps labels distinct |
| Aggregates.SetLabelKeys | imdb_dashboard_app.py:240 | after assignment the labels are the old ones plus the assigned one |
| Aggregates.Overwrite | imdb_dashboard_app.py:240 | in-place assignment keeps the length and every label, sets the value of entries labelled `l` to `x` and leaves the others' values unchanged |
| Aggregates.OverwriteAt | imdb_dashboard_app.py:240 | overwriting a present label keeps each entry's label and gives, under it, the value of the updated dictionary |
| Aggregates.AppendAt | imdb_dashboard_app.py:240 | appending an absent label gives, under every label, the value of the updated dictionary |
| Aggregates.SetLabelMapKeys | imdb_dashboard_app.py:240 | after assignment the dictionary's keys are the old keys plus the assigned label |
| Aggregates.SetLabelValues | imdb_dashboard_app.py:240 | after assignment every key maps to the value of the updated dictionary |
| Aggregates.SetLabelIsMapUpdate | imdb_dashboard_app.py:240 | on distinct labels, label assignment is exactly the dictionary update `m[l := x]` |
| Aggregates.CapVotes | imdb_dashboard_app.py:236-240 | with at most 10 genres the view is unchanged; otherwise the capped view has 10 or 11 entries |
| Aggregates.CapVotesEntries | imdb_dashboard_app.py:236-240 | with more than 10 genres: the first ten labels stay in place with their values (unless the label is "Other"); "Other" is present iff it was a kept label or the rest sum to a positive number; when that sum is positive, "Other" holds it |
| Aggregates.CapVotesShape | imdb_dashboard_app.py:236-240 | with no kept genre called "Other", the capped view is the first ten entries followed by "Other" with the remainder exactly when the remainder is positive |
| Aggregates.CapVotesEntryCount | imdb_dashboard_app.py:236-240 | with a positive remainder: 11 entries ending in "Other" with the remainder when no kept genre is called "Other", 10 entries when one is |
| Aggregates.CapVotesIsMapUpdate | imdb_dashboard_app.py:236-240 | on distinct labels the capped view, read as a dictionary, is the first ten entries with "Other" set to the remainder when it is positive |
| Aggregates.CapVotesKeepsTotal | imdb_dashboard_app.py:236-240 | with non-negative values and no kept genre called "Other", the capped view's total equals the full view's total |
| Aggregates.PieKeepsAllVotes | imdb_dashboard_app.py:232-240 | with non-negative votes and no genre called "Other", the pie chart's values add up to the votes of all filtered rows |
| Aggregates.Shortest | imdb_dashboard_app.py:254 | the shortest movie is a filtered row, no row is shorter, and every earlier row is strictly longer |
| Aggregates.Longest | imdb_dashboard_app.py:255 | the longest movie is a filtered row, no row is longer, and every earlier row is strictly shorter |
| Dashboard.ViewsOf | imdb_dashboard_app.py:140-278 | the top lists have min(10, n) rows, the genre counts add up to n, and the extremes bound every filtered duration |
| Dashboard.Run | imdb_dashboard_app.py:54-140 | no-data screen iff the dataset is empty; otherwise the table holds exactly the matching rows, each as often as in the dataset, in dataset order; the count shown is at most the dataset size, and views appear iff the table is non-empty |
| Dashboard.DefaultsShowWholeDataset | imdb_dashboard_app.py:65-131 | on first load (all genres, sliders at their defaults) the table is the whole dataset and all views are drawn |
| Dashboard.UnknownGenresShowNothing | imdb_dashboard_app.py:138-139 | a selection that matches no genre gives an empty table and no views |
| DashboardScenario.ActionOnly | imdb_dashboard_app.py:73-223 | on a three-movie sample, selecting "Action" shows its two movies and names the one rated 8.0 as the genre's leader |
| DashboardScenario.ActionShown | imdb_dashboard_app.py:73-131 | on the sample, with "Action" selected and the sliders at their defaults, the table holds the first and third movies |
| DashboardScenario.ActionRows | imdb_dashboard_app.py:73 | on the sample, the genre filter for "Action" keeps the first and third movies |
| DashboardScenario.ActionLeader | imdb_dashboard_app.py:221-223 | on the two action movies, the leaders table is the single row of the movie rated 8.0 |

## Left out

- Loading the table from SQLite and caching it with `st.cache_data`
  (imdb_dashboard_app.py:29-46): this is I/O. The dataset is a parameter, and an empty
  sequence stands for both an empty table and a failed load.
- Streamlit widgets, layout and messages: the multiselect and the sliders become the
  parameters `selected` and `chosen` of `Dashboard.Run`. The warning and info texts become
  the `NoData` screen and a missing `views`.
- Slider step sizes and display formats (`step=0.1`, `5`, `1000`, `"%.1f"`): they restrict what a
  user can pick, not how the filter works. Any `chosen` bounds are accepted.
- The slider widget's own checks on `min_value`/`max_value`: a widget error when they are
  equal lies outside the data logic.
- All chart rendering, including the 10-bin histogram with a density estimate (line 209)
  and the log-scale scatter plot (lines 292-296).
- IEEE floating-point rounding of sums and means, and NaN values: the model uses exact reals.
- `astype(str)` on the genre column (line 62): genres are strings from the start.
- Seqs.SortDesc: does not model quicksort's particular order among equal keys. It promises
  only what holds for any descending sort.
- Aggregates.MeanWithinGroup: does not state the mean as sum over count itself, since
  `StatValue` defines it so and `MeansAreSumsOverCounts` relates the views.
