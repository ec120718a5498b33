/** The canonical records handed to the screens: a normalised catalogue entry
    and one provider's rating of it. JavaScript numbers are modelled as `real`
    for ratings and `int` for counts; no arithmetic is done on either. */
module Types {
  import opened Wrappers

  /** One book as the rest of the application sees it. */
  datatype Book = Book(
    id: string,
    title: string,
    author: string,
    publishedYear: Option<string>,
    coverImage: Option<string>,
    description: Option<string>,
    isbn: Option<string>,
    rating: Option<real>,
    ratingsCount: Option<int>,
    publisher: Option<string>
  )

  /** A rating from one named provider, on a scale from 0 to `maxValue`. */
  datatype Rating = Rating(
    source: string,
    value: real,
    maxValue: real,
    reviewCount: Option<int>
  )
}
