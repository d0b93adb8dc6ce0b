/** The canonical text of an artist (lib/canonical/artist.ts). */
module CanonicalArtist {
  import opened Wrappers
  import opened Strings
  import opened Records

  /** The two-element array before `filter(Boolean)`: the bio entry is null when the bio is falsy. */
  function Entries(a: Artist): seq<Option<string>> {
    [Some("Name: " + a.name), if Truthy(a.bio) then Some("Bio: " + a.bio.value) else None]
  }

  /** The surviving lines: the Name line always (even for an empty name), the Bio line iff the bio is non-empty. */
  function Lines(a: Artist): (lines: seq<string>)
    ensures |lines| == if Truthy(a.bio) then 2 else 1
    ensures lines[0] == "Name: " + a.name
    ensures Truthy(a.bio) ==> lines[1] == "Bio: " + a.bio.value
  {
    var e := Entries(a);
    var bio := if Truthy(a.bio) then [e[1].value] else [];
    assert e[1..][1..] == [];
    assert FilterTruthy(e[1..]) == bio;
    assert Truthy(e[0]);
    assert FilterTruthy(e) == [e[0].value] + bio;
    FilterTruthy(e)
  }

  /** `buildArtistCanonicalText`, with the database read replaced by its result `a`. */
  function BuildArtistCanonicalText(a: Option<Artist>): (r: Result<string>)
    ensures a.None? <==> r == Err(NotFound("Artist not found"))
    ensures a.Some? ==> r.Ok?
  {
    if a.None? then Err(NotFound("Artist not found"))
    else Ok(Join(Lines(a.value), "\n"))
  }

  /** The text is the Name line, followed by a line break and the Bio line iff the bio is non-empty. */
  lemma ArtistTextShape(a: Artist)
    ensures BuildArtistCanonicalText(Some(a)).Ok?
    ensures var text := BuildArtistCanonicalText(Some(a)).value;
      text == if Truthy(a.bio) then "Name: " + a.name + "\n" + "Bio: " + a.bio.value else "Name: " + a.name
  {
    var lines := Lines(a);
    if Truthy(a.bio) {
      assert lines[1..] == [lines[1]];
      assert Join(lines, "\n") == lines[0] + "\n" + lines[1];
    }
  }

  /** A blank artist still has the non-empty text "Name: ". */
  lemma BlankArtistText(a: Artist)
    requires a.name == "" && !Truthy(a.bio)
    ensures BuildArtistCanonicalText(Some(a)) == Ok("Name: ")
  {
    ArtistTextShape(a);
    assert "Name: " + "" == "Name: ";
  }
}
