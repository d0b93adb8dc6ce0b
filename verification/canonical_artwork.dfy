/** The canonical text of an artwork (lib/canonical/artwork.ts). */
module CanonicalArtwork {
  import opened Wrappers
  import opened Strings
  import opened Records

  const UNKNOWN_ARTIST := "Unknown"
  const UNCATEGORIZED := "Uncategorized"

  /** The related artist's name, or "Unknown" when the artwork has no artist relation. */
  function ArtistName(art: Artwork): string {
    if art.artistRel.Some? then art.artistRel.value.name else UNKNOWN_ARTIST
  }

  /** The category's name, or "Uncategorized" when the artwork has no category. */
  function CategoryName(art: Artwork): string {
    if art.category.Some? then art.category.value.name else UNCATEGORIZED
  }

  /** The artwork has a related artist whose bio is a non-empty string. */
  predicate HasArtistBio(art: Artwork) {
    art.artistRel.Some? && Truthy(art.artistRel.value.bio)
  }

  /** The array literal before `filter(Boolean)`: the bio entry is null when the bio is falsy. */
  function Entries(art: Artwork): seq<Option<string>> {
    [ Some("Title: " + art.title),
      Some("Description: " + art.description),
      Some("Artist: " + ArtistName(art)),
      if HasArtistBio(art) then Some("Artist bio: " + art.artistRel.value.bio.value) else None,
      Some("Category: " + CategoryName(art)) ]
  }

  /**
   * The lines that survive `filter(Boolean)`: only the bio entry can be dropped, because
   * the other four are template strings with a non-empty label.
   */
  function Lines(art: Artwork): (lines: seq<string>)
    ensures |lines| == if HasArtistBio(art) then 5 else 4
    ensures lines[0] == "Title: " + art.title
    ensures lines[1] == "Description: " + art.description
    ensures lines[2] == "Artist: " + ArtistName(art)
    ensures HasArtistBio(art) ==> lines[3] == "Artist bio: " + art.artistRel.value.bio.value
    ensures lines[|lines| - 1] == "Category: " + CategoryName(art)
  {
    var e := Entries(art);
    FilterFive(e[0], e[1], e[2], e[3], e[4]);
    assert e == [e[0], e[1], e[2], e[3], e[4]];
    FilterTruthy(e)
  }

  /** `filter(Boolean)` over five entries of which only the fourth can be falsy. */
  lemma FilterFive(a: Option<string>, b: Option<string>, c: Option<string>, d: Option<string>, e: Option<string>)
    requires Truthy(a) && Truthy(b) && Truthy(c) && Truthy(e)
    ensures FilterTruthy([a, b, c, d, e])
      == [a.value, b.value, c.value] + (if Truthy(d) then [d.value] else []) + [e.value]
  {
    var bio := if Truthy(d) then [d.value] else [];
    assert [e][1..] == [];
    assert FilterTruthy([e]) == [e.value];
    assert [d, e][1..] == [e];
    assert FilterTruthy([d, e]) == bio + [e.value];
    assert [c, d, e][1..] == [d, e];
    assert FilterTruthy([c, d, e]) == [c.value] + (bio + [e.value]);
    assert [b, c, d, e][1..] == [c, d, e];
    assert FilterTruthy([b, c, d, e]) == [b.value] + ([c.value] + (bio + [e.value]));
    assert [a, b, c, d, e][1..] == [b, c, d, e];
    assert FilterTruthy([a, b, c, d, e]) == [a.value] + ([b.value] + ([c.value] + (bio + [e.value])));
  }

  /** `buildArtworkCanonicalText`, with the database read replaced by its result `art`. */
  function BuildArtworkCanonicalText(art: Option<Artwork>): (r: Result<string>)
    ensures art.None? <==> r == Err(NotFound("Artwork not found"))
    ensures art.Some? ==> r.Ok?
  {
    if art.None? then Err(NotFound("Artwork not found"))
    else Ok(Join(Lines(art.value), "\n"))
  }

  /**
   * The canonical text of an existing artwork is never empty: it starts with the Title line
   * and ends with the Category line, with no separator after it.
   */
  lemma ArtworkTextEnds(art: Artwork)
    ensures BuildArtworkCanonicalText(Some(art)).Ok?
    ensures var text := BuildArtworkCanonicalText(Some(art)).value;
      && StartsWith(text, "Title: " + art.title)
      && EndsWith(text, "Category: " + CategoryName(art))
      && |text| >= |"Title: "| + |"Category: "|
  {
    var lines := Lines(art);
    JoinEnds(lines, "\n");
    var text := Join(lines, "\n");
    assert text == lines[0] + "\n" + Join(lines[1..], "\n");
    JoinEnds(lines[1..], "\n");
  }

  /** No field contains a line break. */
  predicate SingleLineFields(art: Artwork) {
    && '\n' !in art.title
    && '\n' !in art.description
    && '\n' !in ArtistName(art)
    && (HasArtistBio(art) ==> '\n' !in art.artistRel.value.bio.value)
    && '\n' !in CategoryName(art)
  }

  /** When no field holds a line break, splitting the text on "\n" recovers exactly the lines. */
  lemma ArtworkTextLines(art: Artwork)
    requires SingleLineFields(art)
    ensures Split(BuildArtworkCanonicalText(Some(art)).value, '\n') == Lines(art)
  {
    var lines := Lines(art);
    forall i | 0 <= i < |lines| ensures '\n' !in lines[i] {
      NoBreakInLabelled(lines, art, i);
    }
    SplitJoin(lines, '\n');
  }

  lemma NoBreakInLabelled(lines: seq<string>, art: Artwork, i: int)
    requires lines == Lines(art) && SingleLineFields(art) && 0 <= i < |lines|
    ensures '\n' !in lines[i]
  {
    var tag: string, value: string;
    if i == 0 { tag, value := "Title: ", art.title; }
    else if i == 1 { tag, value := "Description: ", art.description; }
    else if i == 2 { tag, value := "Artist: ", ArtistName(art); }
    else if i == |lines| - 1 { tag, value := "Category: ", CategoryName(art); }
    else { tag, value := "Artist bio: ", art.artistRel.value.bio.value; }
    assert lines[i] == tag + value;
  }

  /**
   * The text of an artwork without an artist bio (no artist, no bio, or an empty one): its
   * four lines joined by "\n".
   */
  lemma ArtworkTextNoBio(art: Artwork)
    requires !HasArtistBio(art)
    ensures BuildArtworkCanonicalText(Some(art))
         == Ok(("Title: " + art.title) + "\n" + ("Description: " + art.description) + "\n"
               + ("Artist: " + ArtistName(art)) + "\n" + ("Category: " + CategoryName(art)))
  {
    var lines := Lines(art);
    JoinFour(lines, "\n");
  }

  lemma JoinFour(parts: seq<string>, sep: string)
    requires |parts| == 4
    ensures Join(parts, sep) == parts[0] + sep + parts[1] + sep + parts[2] + sep + parts[3]
  {
    assert parts[1..][1..][1..] == [parts[3]];
    assert Join(parts[1..][1..], sep) == parts[2] + sep + parts[3];
    assert Join(parts[1..], sep) == parts[1] + sep + (parts[2] + sep + parts[3]);
  }
}
