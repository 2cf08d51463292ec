/** The record that one row of the book table becomes (toml-bookparser.go, type Book). */
module Books {

  datatype Option<T> = None | Some(value: T)

  /** Every field is a plain string taken from a table cell, except Date,
      which is the single run-wide date stamped on every record. */
  datatype Book = Book(
    Title: string,
    ReadState: string,
    AuthorName: string,
    PubYear: string,
    Recommender: string,
    Rating: string,
    Date: string)

  /** The six columns a row is read from. Each is looked up in the header
      row by its lower-case name, and the same name is the key its field is
      rendered under. */
  datatype Column = Title | ReadState | AuthorName | PubYear | Recommender | Rating

  function Name(c: Column): string {
    match c
    case Title => "title"
    case ReadState => "readstate"
    case AuthorName => "authorname"
    case PubYear => "pubyear"
    case Recommender => "recommender"
    case Rating => "rating"
  }

  /** The field of `b` that column `c` fills; the date is not a column. */
  function Field(b: Book, c: Column): string {
    match c
    case Title => b.Title
    case ReadState => b.ReadState
    case AuthorName => b.AuthorName
    case PubYear => b.PubYear
    case Recommender => b.Recommender
    case Rating => b.Rating
  }

  /** The sentinel rating meaning "not rated". */
  const NotRated: string := "NR"

  /** Whether the rendered header carries a rating entry: the rating is
      neither empty nor the "not rated" sentinel. */
  predicate ShowsRating(b: Book) {
    b.Rating != NotRated && b.Rating != ""
  }

  /** Whether the rendered header carries a recommender entry. */
  predicate ShowsRecommender(b: Book) {
    b.Recommender != ""
  }
}
