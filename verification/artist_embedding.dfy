/**
 * The alternate artist upsert of lib/embeddings/artist.ts: the canonical text goes to the
 * provider as it is (no normalisation, no empty check), and the statement writes only model,
 * embedding and timestamps, so a conflict keeps the stored text and created_at.
 */
module ArtistEmbedding {
  import opened Wrappers
  import opened Strings
  import opened Records
  import opened Tables
  import opened EmbeddingText
  import CanonicalArtist
  import UpsertEmbeddings

  type TextUpsert = UpsertEmbeddings.TextUpsert

  /** The alternate `upsertArtistTextEmbedding`, given the canonical text `raw`. */
  function DirectArtistStep(raw: Result<string>, key: Id, table: map<Id, TextRow>,
                            respond: string -> Reply, accepts: Vector -> bool, now: int): (u: TextUpsert)
    ensures raw.Err? ==> u == UpsertEmbeddings.TextUpsert(Failure(raw.error), None, table)
    ensures raw.Ok? ==> u.sent == Some(PrepareInput(raw.value))
    ensures u.outcome.Failure? ==> u.table == table
    ensures u.outcome.Success? ==>
      var v := EmbedText(raw.value, respond);
      && raw.Ok? && v.Ok? && accepts(v.value)
      && key in u.table && u.table == table[key := u.table[key]]
      && u.table[key].model == TEXT_EMBEDDING_MODEL && u.table[key].embedding == v.value
      && u.table[key].updatedAt == now
      && u.table[key].text == (if key in table then table[key].text else None)
      && u.table[key].createdAt == (if key in table then table[key].createdAt else now)
  {
    if raw.Err? then UpsertEmbeddings.TextUpsert(Failure(raw.error), None, table)
    else
      var v := EmbedText(raw.value, respond);
      if v.Err? then UpsertEmbeddings.TextUpsert(Failure(v.error), Some(PrepareInput(raw.value)), table)
      else if !accepts(v.value) then UpsertEmbeddings.TextUpsert(Failure(StoreWriteError), Some(PrepareInput(raw.value)), table)
      else UpsertEmbeddings.TextUpsert(Success, Some(PrepareInput(raw.value)),
                                       UpsertEmbeddingOnly(table, key, TEXT_EMBEDDING_MODEL, v.value, now))
  }

  /**
   * For a found artist, the alternate upsert resolves exactly when the provider answers with a
   * vector and the INSERT is accepted; it then writes the embedding-only row with that vector.
   */
  lemma DirectArtistSucceedsIff(raw: Result<string>, key: Id, table: map<Id, TextRow>,
                                respond: string -> Reply, accepts: Vector -> bool, now: int)
    requires raw.Ok?
    ensures var u := DirectArtistStep(raw, key, table, respond, accepts, now);
      var v := EmbedText(raw.value, respond);
      && (u.outcome == Success <==> v.Ok? && accepts(v.value))
      && (v.Ok? && accepts(v.value) ==> u.table == UpsertEmbeddingOnly(table, key, TEXT_EMBEDDING_MODEL, v.value, now))
  {
  }

  /** `upsertArtistTextEmbedding(artistId)` of lib/embeddings/artist.ts. */
  method UpsertArtistTextEmbedding(store: Store, artists: seq<Artist>, artistId: Id,
                                   respond: string -> Reply, accepts: Vector -> bool, now: int)
    returns (outcome: Outcome, sent: Option<string>)
    modifies store
    ensures UpsertEmbeddings.TextUpsert(outcome, sent, store.artistText)
      == DirectArtistStep(UpsertEmbeddings.ArtistCanonical(artists, artistId), artistId, old(store.artistText), respond, accepts, now)
    ensures store.artworkText == old(store.artworkText) && store.imageEmbeddings == old(store.imageEmbeddings)
    ensures store.imageBacklog == old(store.imageBacklog)
  {
    var canonical := UpsertEmbeddings.ArtistCanonical(artists, artistId);
    if canonical.Err? {
      return Failure(canonical.error), None;
    }
    sent := Some(PrepareInput(canonical.value));
    var v := EmbedText(canonical.value, respond);
    if v.Err? {
      return Failure(v.error), sent;
    }
    if !accepts(v.value) {
      return Failure(StoreWriteError), sent;
    }
    store.artistText := UpsertEmbeddingOnly(store.artistText, artistId, TEXT_EMBEDDING_MODEL, v.value, now);
    outcome := Success;
  }

  /**
   * Repeating the alternate upsert keeps the first insertion's created_at and never fills in
   * the text column, whatever the provider answers the second time.
   */
  lemma DirectUpsertKeepsFirstInsert(raw: Result<string>, key: Id, table: map<Id, TextRow>,
                                     respond1: string -> Reply, respond2: string -> Reply,
                                     accepts: Vector -> bool, now1: int, now2: int)
    requires key !in table
    requires DirectArtistStep(raw, key, table, respond1, accepts, now1).outcome.Success?
    ensures var t1 := DirectArtistStep(raw, key, table, respond1, accepts, now1).table;
      var t2 := DirectArtistStep(raw, key, t1, respond2, accepts, now2).table;
      key in t2 && t2[key].createdAt == now1 && t2[key].text == None && t2.Keys == t1.Keys
  {
  }

  /**
   * The two artist upserts disagree on what the provider sees: for an artist with a bio (and
   * a name short enough that the cut at 4000 characters falls after the first line), the
   * alternate one sends the canonical line break, while the normalizing one sends none.
   */
  lemma DirectSendsLineBreak(a: Artist, table: map<Id, TextRow>, respond: string -> Reply,
                             accepts: Vector -> bool, now: int)
    requires Truthy(a.bio) && |a.name| + 7 <= MAX_INPUT
    ensures var raw := CanonicalArtist.BuildArtistCanonicalText(Some(a));
      var direct := DirectArtistStep(raw, a.id, table, respond, accepts, now).sent;
      var normalized := UpsertEmbeddings.TextUpsertStep(raw, a.id, table, respond, accepts, now).sent;
      && direct.Some? && '\n' in direct.value
      && normalized.Some? && '\n' !in normalized.value
  {
    CanonicalArtist.ArtistTextShape(a);
    var text := CanonicalArtist.BuildArtistCanonicalText(Some(a)).value;
    var head := "Name: " + a.name + "\n";
    var tail := "Bio: " + a.bio.value;
    assert text == head + tail;
    // The direct path: `trim` keeps the head, since the text starts and the tail starts with a letter.
    assert TrimStart(text) == text;
    UpsertEmbeddings.TrimEndKeepsHead(head, tail);
    assert Trim(text) == head + TrimEnd(tail);
    var input := PrepareInput(text);
    assert |input| >= |head|;
    assert input[|head| - 1] == Trim(text)[|head| - 1] == '\n';
    // The normalizing path: the text is normalized, so it has no line terminator left.
    UpsertEmbeddings.ArtistTextNotBlank(a);
    var n := UpsertEmbeddings.Normalize(Some(text));
    UpsertEmbeddings.NormalizedSingleLine(n);
    TrimIdempotent(n);
    var sentN := PrepareInput(n);
    assert forall i :: 0 <= i < |sentN| ==> sentN[i] == n[i];
  }
}
