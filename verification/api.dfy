/** The three catalogue operations. The HTTP client is a parameter `fetch`
    that maps a request to a decoded body or a transport failure; each
    operation returns its result together with the requests it sent, so that
    "no request is made" can be stated. */
module Api {
  import opened Wrappers
  import opened Text
  import opened Types
  import opened Volumes

  const MaxResults := 20
  const SearchFailed := "Failed to search books. Please try again."
  const DetailsFailed := "Failed to fetch book details. Please try again."
  const RatingSource := "Google Books"
  const RatingScale := 5.0

  /** The catalogue endpoints: free-text search, one volume by id, and search
      by ISBN. Query strings are kept unencoded. */
  datatype Request =
    | SearchVolumes(query: string, maxResults: nat)
    | FetchVolume(volumeId: string)
    | SearchIsbn(isbn: string)

  /** A failed HTTP call (network error, non-2xx status, unreadable body). */
  datatype TransportError = TransportError(status: Option<int>)

  /** The body of a search response; `items` is absent when nothing matched. */
  datatype SearchPage = SearchPage(items: Option<seq<Volume>>)

  /** What an operation returned, and the requests it sent on the way. */
  datatype Call<T> = Call(value: T, sent: seq<Request>)

  /** `items.map(normalize)`: one book per item, in order, each carrying its
      item's id; `None` when some item lacks `volumeInfo`, which makes the
      `map` callback in `searchBooks` throw. */
  function NormalizeItems(items: seq<Volume>): (books: Option<seq<Book>>)
    ensures books.Some? <==> forall k | 0 <= k < |items| :: items[k].volumeInfo.Some?
    ensures books.Some? ==> |books.value| == |items|
    ensures books.Some? ==> forall k | 0 <= k < |items| ::
      && books.value[k].id == items[k].id
      && books.value[k] == NormalizeVolume(items[k].id, items[k].volumeInfo.value)
  {
    if |items| == 0 then Some([])
    else match items[0].volumeInfo
      case None => None
      case Some(info) =>
        match NormalizeItems(items[1..])
        case None => None
        case Some(rest) => Some([NormalizeVolume(items[0].id, info)] + rest)
  }

  /** Some item of the list lacks `volumeInfo`. */
  predicate SomeItemLacksInfo(items: seq<Volume>) {
    exists k | 0 <= k < |items| :: items[k].volumeInfo.None?
  }

  /** The `try` body of `searchBooks` after the request: a transport failure,
      or an item whose `volumeInfo` is missing, is caught and replaced by the
      fixed search message; a response without `items` gives no books. */
  function SearchResult(response: Result<SearchPage, TransportError>): (r: Result<seq<Book>, string>)
    ensures r.Failure? ==> r.error == SearchFailed
    ensures r.Failure? <==>
      response.Failure? || (response.value.items.Some? && SomeItemLacksInfo(response.value.items.value))
    ensures response.Success? && response.value.items.None? ==> r == Success([])
    ensures response.Success? && response.value.items.Some? && r.Success? ==>
      NormalizeItems(response.value.items.value) == Some(r.value)
  {
    match response
    case Failure(_) => Failure(SearchFailed)
    case Success(page) =>
      match page.items
      case None => Success([])
      case Some(items) =>
        match NormalizeItems(items)
        case None => Failure(SearchFailed)
        case Some(books) => Success(books)
  }

  /** `searchBooks(query)`. A blank query returns no books and sends nothing;
      otherwise exactly one search request goes out, and every failure becomes
      the one fixed search message. */
  function SearchBooks(query: string, fetch: Request -> Result<SearchPage, TransportError>)
    : (c: Call<Result<seq<Book>, string>>)
    ensures AllWhiteSpace(query) ==> c == Call(Success([]), [])
    ensures !AllWhiteSpace(query) ==> c.sent == [SearchVolumes(query, MaxResults)]
    ensures c.value.Failure? ==> c.value.error == SearchFailed
    ensures c.value.Failure? <==>
      && !AllWhiteSpace(query)
      && var response := fetch(SearchVolumes(query, MaxResults));
         response.Failure? || (response.value.items.Some? && SomeItemLacksInfo(response.value.items.value))
  {
    if Trim(query) == "" then Call(Success([]), [])
    else
      var request := SearchVolumes(query, MaxResults);
      Call(SearchResult(fetch(request)), [request])
  }

  /** A search that reaches the catalogue and gets items back returns one book
      per item, in the same order, each with its item's id. */
  lemma SearchBooksMapsEveryItem(
    query: string, fetch: Request -> Result<SearchPage, TransportError>, items: seq<Volume>)
    requires !AllWhiteSpace(query)
    requires fetch(SearchVolumes(query, MaxResults)) == Success(SearchPage(Some(items)))
    requires forall k | 0 <= k < |items| :: items[k].volumeInfo.Some?
    ensures SearchBooks(query, fetch).value.Success?
    ensures var books := SearchBooks(query, fetch).value.value;
      && |books| == |items|
      && forall k | 0 <= k < |items| ::
           books[k] == NormalizeVolume(items[k].id, items[k].volumeInfo.value)
  {
    var books := NormalizeItems(items);
    assert books.Some?;
    assert SearchResult(Success(SearchPage(Some(items)))) == Success(books.value);
  }

  /** A search whose response has no `items` yields the empty list. */
  lemma SearchBooksWithoutItems(query: string, fetch: Request -> Result<SearchPage, TransportError>)
    requires fetch(SearchVolumes(query, MaxResults)) == Success(SearchPage(None))
    ensures SearchBooks(query, fetch).value == Success([])
  {
  }

  /** `getBookDetails(bookId)`: one request for that volume. The book's id is
      the one in the response body, not the one requested; a transport failure
      or a body without `volumeInfo` becomes the fixed details message. */
  function GetBookDetails(bookId: string, fetch: Request -> Result<Volume, TransportError>)
    : (c: Call<Result<Book, string>>)
    ensures c.sent == [FetchVolume(bookId)]
    ensures c.value.Failure? ==> c.value.error == DetailsFailed
    ensures c.value.Success? <==>
      fetch(FetchVolume(bookId)).Success? && fetch(FetchVolume(bookId)).value.volumeInfo.Some?
    ensures c.value.Success? ==>
      var item := fetch(FetchVolume(bookId)).value;
      c.value.value == NormalizeVolume(item.id, item.volumeInfo.value)
  {
    var request := FetchVolume(bookId);
    var result :=
      match fetch(request)
      case Failure(_) => Failure(DetailsFailed)
      case Success(item) =>
        match item.volumeInfo
        case None => Failure(DetailsFailed)
        case Some(info) => Success(NormalizeVolume(item.id, info));
    Call(result, [request])
  }

  /** `x || 0` on an optional number: an absent value and a zero both give 0. */
  function OrZero(x: Option<real>): (r: real)
    ensures r == x.GetOr(0.0)
  {
    if x.Some? && x.value != 0.0 then x.value else 0.0
  }

  /** `x || 0` on an optional count. */
  function CountOrZero(x: Option<int>): (r: int)
    ensures r == x.GetOr(0)
  {
    if x.Some? && x.value != 0 then x.value else 0
  }

  /** The rating read off a volume's `volumeInfo`. */
  function RatingOf(info: VolumeInfo): (r: Rating)
    ensures r.source == RatingSource && r.maxValue == RatingScale
    ensures r.value == info.averageRating.GetOr(0.0)
    ensures r.reviewCount == Some(info.ratingsCount.GetOr(0))
  {
    Rating(
      source := RatingSource,
      value := OrZero(info.averageRating),
      maxValue := RatingScale,
      reviewCount := Some(CountOrZero(info.ratingsCount))
    )
  }

  /** `response.data.items?.[0]?.volumeInfo`. */
  function FirstVolumeInfo(page: SearchPage): (r: Option<VolumeInfo>)
    ensures r.Some? <==>
      page.items.Some? && |page.items.value| > 0 && page.items.value[0].volumeInfo.Some?
    ensures r.Some? ==> r == page.items.value[0].volumeInfo
  {
    if page.items.Some? && |page.items.value| > 0 then page.items.value[0].volumeInfo else None
  }

  /** `getBookRatings(isbn)`: one ISBN search, even for an empty ISBN. Only the
      first hit is read; every failure, and a first hit without `volumeInfo`,
      gives no rating, never an error. */
  function GetBookRatings(isbn: string, fetch: Request -> Result<SearchPage, TransportError>)
    : (c: Call<Option<Rating>>)
    ensures c.sent == [SearchIsbn(isbn)]
    ensures fetch(SearchIsbn(isbn)).Failure? ==> c.value.None?
    ensures c.value.Some? <==>
      && fetch(SearchIsbn(isbn)).Success?
      && var items := fetch(SearchIsbn(isbn)).value.items;
         items.Some? && |items.value| > 0 && items.value[0].volumeInfo.Some?
    ensures c.value.Some? ==>
      var info := fetch(SearchIsbn(isbn)).value.items.value[0].volumeInfo.value;
      && c.value.value.source == RatingSource
      && c.value.value.maxValue == RatingScale
      && c.value.value.value == info.averageRating.GetOr(0.0)
      && c.value.value.reviewCount == Some(info.ratingsCount.GetOr(0))
  {
    var request := SearchIsbn(isbn);
    var rating :=
      match fetch(request)
      case Failure(_) => None
      case Success(page) =>
        match FirstVolumeInfo(page)
        case None => None
        case Some(info) => Some(RatingOf(info));
    Call(rating, [request])
  }

  /** Only the first search hit matters: whatever follows it, the rating is
      the same. */
  lemma RatingsIgnoreLaterHits(
    isbn: string, first: Volume, later: seq<Volume>, other: seq<Volume>,
    fetch: Request -> Result<SearchPage, TransportError>,
    fetch': Request -> Result<SearchPage, TransportError>)
    requires fetch(SearchIsbn(isbn)) == Success(SearchPage(Some([first] + later)))
    requires fetch'(SearchIsbn(isbn)) == Success(SearchPage(Some([first] + other)))
    ensures GetBookRatings(isbn, fetch).value == GetBookRatings(isbn, fetch').value
  {
  }

  /** "No rating" and "a rating of zero" are not told apart: a first hit with
      no `averageRating` gives the same rating as one whose rating is 0. */
  lemma RatingConflatesAbsentAndZero(info: VolumeInfo)
    ensures RatingOf(info.(averageRating := None)) == RatingOf(info.(averageRating := Some(0.0)))
  {
  }
}
