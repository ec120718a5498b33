/** The catalogue's loosely typed "volume" record and its normalisation into a
    `Book`. Every field the catalogue may omit is an `Option`; the title is one
    too, since the JSON is not validated and the mapping guards it with `||`. */
module Volumes {
  import opened Wrappers
  import opened Text
  import opened Types

  const UnknownTitle := "Unknown Title"
  const UnknownAuthor := "Unknown Author"
  const Isbn13 := "ISBN_13"
  const Isbn10 := "ISBN_10"
  const InsecureScheme := "http:"
  const SecureScheme := "https:"
  const DateSeparator := '-'

  /** One entry of `industryIdentifiers`; `kind` is the JSON field `type`. */
  datatype IndustryIdentifier = IndustryIdentifier(kind: string, identifier: string)

  datatype ImageLinks = ImageLinks(thumbnail: Option<string>)

  datatype VolumeInfo = VolumeInfo(
    title: Option<string>,
    authors: Option<seq<string>>,
    publishedDate: Option<string>,
    imageLinks: Option<ImageLinks>,
    description: Option<string>,
    industryIdentifiers: Option<seq<IndustryIdentifier>>,
    publisher: Option<string>,
    ratingsCount: Option<int>,
    averageRating: Option<real>
  )

  /** One catalogue entry. A missing `volumeInfo` is representable because the
      response is never validated; dereferencing it is what throws. */
  datatype Volume = Volume(id: string, volumeInfo: Option<VolumeInfo>)

  /** JavaScript truthiness of an optional string: present and non-empty. */
  predicate Truthy(o: Option<string>) {
    o.Some? && o.value != ""
  }

  /** `x || fallback` on an optional string. */
  function OrElse(o: Option<string>, fallback: string): (r: string)
    ensures Truthy(o) ==> r == o.value
    ensures !Truthy(o) ==> r == fallback
  {
    if Truthy(o) then o.value else fallback
  }

  /** `authors?.[0]`: absent when the list is absent or empty. */
  function FirstAuthor(authors: Option<seq<string>>): (r: Option<string>)
    ensures r.Some? <==> authors.Some? && |authors.value| > 0
    ensures r.Some? ==> r.value == authors.value[0]
  {
    if authors.Some? && |authors.value| > 0 then Some(authors.value[0]) else None
  }

  /** `imageLinks?.thumbnail`. */
  function Thumbnail(info: VolumeInfo): (r: Option<string>)
    ensures r.Some? <==> info.imageLinks.Some? && info.imageLinks.value.thumbnail.Some?
    ensures r.Some? ==> r == info.imageLinks.value.thumbnail
  {
    if info.imageLinks.Some? then info.imageLinks.value.thumbnail else None
  }

  /** `publishedDate?.split('-')[0]`: absent exactly when the date is absent,
      otherwise the part of the date before its first `-`. */
  function PublishedYear(date: Option<string>): (year: Option<string>)
    ensures year.None? <==> date.None?
    ensures year.Some? ==> IsFirstSegment(year.value, date.value, DateSeparator)
    ensures year.Some? ==> DateSeparator !in year.value
  {
    match date
    case None => None
    case Some(d) => Some(Split(d, DateSeparator)[0])
  }

  /** `thumbnail?.replace('http:', 'https:')`: absent exactly when the thumbnail
      is; a thumbnail without `http:` is kept as it is. */
  function CoverImage(thumbnail: Option<string>): (cover: Option<string>)
    ensures cover.None? <==> thumbnail.None?
    ensures thumbnail.Some? && (forall j :: !OccursAt(thumbnail.value, InsecureScheme, j))
      ==> cover == thumbnail
    ensures forall i | thumbnail.Some? && IsFirstOccurrence(thumbnail.value, InsecureScheme, i) ::
      cover == Some(thumbnail.value[..i] + SecureScheme + thumbnail.value[i + |InsecureScheme|..])
  {
    match thumbnail
    case None => None
    case Some(t) => Some(ReplaceFirst(t, InsecureScheme, SecureScheme))
  }

  /** The type tags the ISBN lookup accepts; neither is preferred over the other. */
  predicate IsIsbnKind(kind: string) {
    kind == Isbn13 || kind == Isbn10
  }

  /** The index of the entry that `ids.find(id => id.type === 'ISBN_13' ||
      id.type === 'ISBN_10')` returns: the first entry, in list order, tagged
      with either ISBN type. */
  function FindIsbnIndex(ids: seq<IndustryIdentifier>): (r: Option<nat>)
    ensures r.Some? ==> r.value < |ids| && IsIsbnKind(ids[r.value].kind)
    ensures r.Some? ==> forall j | 0 <= j < r.value :: !IsIsbnKind(ids[j].kind)
    ensures r.None? <==> forall j | 0 <= j < |ids| :: !IsIsbnKind(ids[j].kind)
  {
    if |ids| == 0 then None
    else if IsIsbnKind(ids[0].kind) then Some(0)
    else match FindIsbnIndex(ids[1..])
      case None => None
      case Some(k) => Some(k + 1)
  }

  /** `ids?.find(...)?.identifier`: the identifier of the first ISBN-tagged entry,
      absent when the list is absent or holds no such entry. */
  function Isbn(ids: Option<seq<IndustryIdentifier>>): (isbn: Option<string>)
    ensures isbn.None? <==> ids.None? || forall j | 0 <= j < |ids.value| :: !IsIsbnKind(ids.value[j].kind)
    ensures isbn.Some? ==> exists k | 0 <= k < |ids.value| ::
      && IsIsbnKind(ids.value[k].kind)
      && ids.value[k].identifier == isbn.value
      && forall j | 0 <= j < k :: !IsIsbnKind(ids.value[j].kind)
  {
    match ids
    case None => None
    case Some(list) =>
      match FindIsbnIndex(list)
      case None => None
      case Some(k) => Some(list[k].identifier)
  }

  /** The per-item mapping shared by `searchBooks` and `getBookDetails`. */
  function NormalizeVolume(id: string, info: VolumeInfo): (b: Book)
    ensures b.id == id
    ensures b.title != "" && b.author != ""
    ensures Truthy(info.title) ==> b.title == info.title.value
    ensures !Truthy(info.title) ==> b.title == UnknownTitle
    ensures Truthy(FirstAuthor(info.authors)) ==> b.author == info.authors.value[0]
    ensures !Truthy(FirstAuthor(info.authors)) ==> b.author == UnknownAuthor
    ensures b.publishedYear.None? <==> info.publishedDate.None?
    ensures b.publishedYear.Some? ==> IsFirstSegment(b.publishedYear.value, info.publishedDate.value, DateSeparator)
    ensures b.coverImage == CoverImage(Thumbnail(info))
    ensures b.isbn == Isbn(info.industryIdentifiers)
    ensures b.description == info.description && b.publisher == info.publisher
    ensures b.rating == info.averageRating && b.ratingsCount == info.ratingsCount
  {
    Book(
      id := id,
      title := OrElse(info.title, UnknownTitle),
      author := OrElse(FirstAuthor(info.authors), UnknownAuthor),
      publishedYear := PublishedYear(info.publishedDate),
      coverImage := CoverImage(Thumbnail(info)),
      description := info.description,
      isbn := Isbn(info.industryIdentifiers),
      publisher := info.publisher,
      rating := info.averageRating,
      ratingsCount := info.ratingsCount
    )
  }

  /** Only the first author reaches the record: replacing every later author
      leaves the normalised book unchanged. */
  lemma NormalizeKeepsOnlyFirstAuthor(id: string, info: VolumeInfo, later: seq<string>)
    requires info.authors.Some? && |info.authors.value| > 0
    ensures NormalizeVolume(id, info)
      == NormalizeVolume(id, info.(authors := Some([info.authors.value[0]] + later)))
  {
  }

  /** A plain `http://` thumbnail becomes the same address under `https://`. */
  lemma CoverUpgradesHttp(rest: string)
    ensures CoverImage(Some(InsecureScheme + rest)) == Some(SecureScheme + rest)
  {
    ReplaceFirstLeading(InsecureScheme, SecureScheme, rest);
  }

  /** The ISBN-tagged entries of `ids`, in list order. */
  function IsbnEntries(ids: seq<IndustryIdentifier>): seq<IndustryIdentifier> {
    if |ids| == 0 then []
    else (if IsIsbnKind(ids[0].kind) then [ids[0]] else []) + IsbnEntries(ids[1..])
  }

  /** A reference reading of the ISBN lookup: keep the ISBN-tagged entries and
      take the first. An ISBN_10 listed before an ISBN_13 therefore wins. */
  lemma {:induction false} IsbnIsFirstIsbnEntry(ids: seq<IndustryIdentifier>)
    ensures Isbn(Some(ids))
      == (var e := IsbnEntries(ids); if e == [] then None else Some(e[0].identifier))
    decreases |ids|
  {
    if |ids| > 0 && !IsIsbnKind(ids[0].kind) {
      IsbnIsFirstIsbnEntry(ids[1..]);
      assert IsbnEntries(ids) == IsbnEntries(ids[1..]);
    }
  }

  /** List order decides, not the ISBN type: the first entry tagged ISBN_10
      is chosen even when an ISBN_13 entry follows it. */
  lemma IsbnFollowsListOrder(ids: seq<IndustryIdentifier>, i: nat)
    requires i < |ids| && ids[i].kind == Isbn10
    requires forall j | 0 <= j < i :: !IsIsbnKind(ids[j].kind)
    ensures Isbn(Some(ids)) == Some(ids[i].identifier)
  {
  }
}
