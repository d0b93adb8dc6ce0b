/**
 * The rows of the relational entity store that the core reads: artists, artworks (with
 * their artist and category relations, as the queries include them) and artwork images.
 * Lookups by primary key replace the ORM's `findUnique`.
 */
module Records {
  import opened Wrappers

  type Id = string

  datatype Artist = Artist(id: Id, name: string, bio: Option<string>, createdAt: int)

  datatype Category = Category(name: string)

  datatype Artwork = Artwork(
    id: Id,
    title: string,
    description: string,
    artistRel: Option<Artist>,
    category: Option<Category>,
    published: bool,
    qrCodeUrl: Option<string>,
    createdAt: int)

  datatype ArtworkImage = ArtworkImage(id: Id, artworkId: Id, url: string)

  /** `findUnique({ where: { id } })`: a row whose primary key `idOf` is `id`, if there is one. */
  function Find<T>(rows: seq<T>, id: Id, idOf: T -> Id): (r: Option<T>)
    ensures r.Some? ==> r.value in rows && idOf(r.value) == id
    ensures r.None? <==> forall i :: 0 <= i < |rows| ==> idOf(rows[i]) != id
  {
    if rows == [] then None
    else if idOf(rows[0]) == id then Some(rows[0])
    else Find(rows[1..], id, idOf)
  }

  function ArtistId(a: Artist): Id { a.id }

  function ArtworkId(aw: Artwork): Id { aw.id }

  /** The lookup on the artist table. */
  function FindArtist(rows: seq<Artist>, id: Id): Option<Artist> {
    Find(rows, id, ArtistId)
  }

  /** The lookup on the artwork table. */
  function FindArtwork(rows: seq<Artwork>, id: Id): Option<Artwork> {
    Find(rows, id, ArtworkId)
  }
}
