/** The photo metadata record of the Picsum listing, its JSON coding keys and
    its derived thumbnail address. */
module PhotoModel {

  datatype Option<T> = None | Some(value: T)

  /** Swift's `Int` on the 64-bit platforms the app runs on. */
  newtype Int64 = x: int | -0x8000_0000_0000_0000 <= x < 0x8000_0000_0000_0000

  /** One photo record. All six fields are stored and immutable; the record's
      equality is the structural equality of a datatype, which compares all of
      them, as the synthesized `Equatable` conformance does. Strings here are
      compared code point by code point, not by canonical equivalence as
      Swift's `String` is. */
  datatype Photos = Photos(
    id: string,
    author: string,
    width: Int64,
    height: Int64,
    url: string,
    downloadUrl: string)

  /** The coding keys of the record, one per stored field. */
  datatype CodingKeys = Id | Author | Width | Height | Url | DownloadUrl

  /** The JSON key a field is written under and read from. */
  function StringValue(k: CodingKeys): string
  {
    match k
    case Id => "id"
    case Author => "author"
    case Width => "width"
    case Height => "height"
    case Url => "url"
    case DownloadUrl => "download_url"
  }

  /** The synthesized `init?(stringValue:)` of the key enum: the key a JSON
      member name stands for, if any. */
  function KeyFor(s: string): (r: Option<CodingKeys>)
    ensures r.Some? ==> StringValue(r.value) == s
    ensures r.None? ==> forall k :: StringValue(k) != s
  {
    if s == "id" then Some(Id)
    else if s == "author" then Some(Author)
    else if s == "width" then Some(Width)
    else if s == "height" then Some(Height)
    else if s == "url" then Some(Url)
    else if s == "download_url" then Some(DownloadUrl)
    else None
  }

  /** Every key is found again from its own JSON name. */
  lemma KeyForStringValue(k: CodingKeys)
    ensures KeyFor(StringValue(k)) == Some(k)
  {
  }

  /** No two keys share a JSON name: the field-to-key mapping is injective. */
  lemma CodingKeysInjective(k1: CodingKeys, k2: CodingKeys)
    ensures StringValue(k1) == StringValue(k2) <==> k1 == k2
  {
  }

  /** Only the download address is renamed; every other field is written
      under its own Swift name. */
  lemma OnlyDownloadUrlRenamed(k: CodingKeys)
    ensures StringValue(k) == "download_url" <==> k == DownloadUrl
    ensures k != DownloadUrl ==> StringValue(k) in {"id", "author", "width", "height", "url"}
  {
  }

  const ThumbnailBase: string := "https://picsum.photos/id/"
  const ThumbnailSize: string := "/300/200"

  /** The 300 by 200 thumbnail address of Picsum's sizing API. It is built from
      the id alone, and the id can be read back out of it. */
  function ThumbnailUrl(p: Photos): (r: string)
    ensures |r| == |ThumbnailBase| + |p.id| + |ThumbnailSize|
    ensures r[..|ThumbnailBase|] == ThumbnailBase
    ensures r[|ThumbnailBase|..|r| - |ThumbnailSize|] == p.id
    ensures r[|r| - |ThumbnailSize|..] == ThumbnailSize
  {
    ThumbnailBase + p.id + ThumbnailSize
  }

  /** Two records have the same thumbnail address exactly when they have the
      same id. */
  lemma ThumbnailUrlDeterminedById(p: Photos, q: Photos)
    ensures ThumbnailUrl(p) == ThumbnailUrl(q) <==> p.id == q.id
  {
  }

  /** Equal records have equal ids, but a shared id does not make two records
      equal: identity (`Identifiable`) and equality (`Equatable`) differ. */
  lemma EqualityFinerThanId()
    ensures forall p: Photos, q: Photos :: p == q ==> p.id == q.id
    ensures exists p: Photos, q: Photos :: p.id == q.id && p != q
  {
    var p := Photos("1", "Test Author", 300, 200, "https://test.com", "https://test.com/download");
    var q := p.(author := "Mock Author");
    assert p.id == q.id && p != q;
  }
}
