/**
 * pandas `idxmin` and `idxmax`: the position of the first row that attains the
 * smallest (largest) value of a column, and the per-genre `idxmax` of the rating.
 */
module Extremes {
  import opened Movies

  /** `idxmin`: a minimum of column `c`, and no earlier row attains it. */
  function IdxMin(s: seq<Movie>, c: Column): (i: nat)
    requires s != []
    ensures i < |s|
    ensures forall j :: 0 <= j < |s| ==> Key(s[i], c) <= Key(s[j], c)
    ensures forall j :: 0 <= j < i ==> Key(s[i], c) < Key(s[j], c)
  {
    if |s| == 1 then 0
    else
      var k := IdxMin(s[..|s| - 1], c);
      if Key(s[|s| - 1], c) < Key(s[k], c) then |s| - 1 else k
  }

  /** `idxmax`: a maximum of column `c`, and no earlier row attains it. */
  function IdxMax(s: seq<Movie>, c: Column): (i: nat)
    requires s != []
    ensures i < |s|
    ensures forall j :: 0 <= j < |s| ==> Key(s[j], c) <= Key(s[i], c)
    ensures forall j :: 0 <= j < i ==> Key(s[j], c) < Key(s[i], c)
  {
    if |s| == 1 then 0
    else
      var k := IdxMax(s[..|s| - 1], c);
      if Key(s[|s| - 1], c) > Key(s[k], c) then |s| - 1 else k
  }

  /**
   * `groupby('genre')['rating'].idxmax()` for one genre `g`: a row of genre `g` whose rating
   * is the largest in that genre, and no earlier row of that genre has that rating.
   */
  function GenreIdxMax(s: seq<Movie>, g: string): (i: nat)
    requires HasGenre(s, g)
    ensures i < |s| && s[i].genre == g
    ensures forall j :: 0 <= j < |s| && s[j].genre == g ==> s[j].rating <= s[i].rating
    ensures forall j :: 0 <= j < i && s[j].genre == g ==> s[j].rating < s[i].rating
  {
    var p := s[..|s| - 1];
    if !HasGenre(p, g) then
      assert forall j :: 0 <= j < |s| - 1 ==> s[j].genre != g by {
        forall j | 0 <= j < |s| - 1 ensures s[j].genre != g {
          assert p[j] in p;
        }
      }
      var m :| m in s && m.genre == g;
      |s| - 1
    else
      var k := GenreIdxMax(p, g);
      if s[|s| - 1].genre == g && s[|s| - 1].rating > s[k].rating then |s| - 1 else k
  }
}
