/** The rows of the `movies` table and the numeric columns the dashboard filters and ranks by. */
module Movies {

  /** One row: `movie_name`, `genre`, `rating`, `duration_minutes`, `voting_counts`. */
  datatype Movie = Movie(
    movieName: string,
    genre: string,
    rating: real,
    durationMinutes: int,
    votingCounts: int)

  /** The three numeric columns. */
  datatype Column = Rating | Duration | Votes

  /** The value of a numeric column, as a real so that one comparison serves all three. */
  function Key(m: Movie, c: Column): real
  {
    match c
    case Rating => m.rating
    case Duration => m.durationMinutes as real
    case Votes => m.votingCounts as real
  }

  /** `Key` for one column, as a function value for the generic sort and sums. */
  function KeyFn(c: Column): Movie -> real
  {
    m => Key(m, c)
  }

  /** Some record of `s` has genre `g`. */
  predicate HasGenre(s: seq<Movie>, g: string)
  {
    exists m :: m in s && m.genre == g
  }
}
