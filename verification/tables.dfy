/**
 * The three embedding tables the upserts write, as maps from their primary key to the row,
 * and the `INSERT ... ON CONFLICT (key) DO UPDATE SET ...` statements on them. Each
 * statement leaves exactly one row under its key and touches no other key (the new table
 * is the old one with that key's row replaced); what differs is
 * which columns an update overwrites and which it keeps.
 */
module Tables {
  import opened Wrappers
  import opened Records
  import EmbeddingText

  type Vector = EmbeddingText.Vector

  /**
   * A row of `artwork_embeddings_text` or `artist_embeddings_text`. `text` is None when the
   * writing statement did not name the column; `createdAt` is set once, at insertion.
   */
  datatype TextRow = TextRow(model: string, text: Option<string>, embedding: Vector, createdAt: int, updatedAt: int)

  /** A row of `artwork_image_embeddings`, keyed by the image's id. */
  datatype ImageRow = ImageRow(artworkId: Id, model: string, embedding: Vector, updatedAt: int)

  /**
   * The text upsert of lib/upsert-embeddings.ts: a conflict overwrites model, text, embedding
   * and updated_at; created_at, which the statement does not name, keeps its first value.
   */
  function UpsertText(table: map<Id, TextRow>, key: Id, model: string, text: string, v: Vector, now: int): (t: map<Id, TextRow>)
    ensures key in t && t == table[key := t[key]]
    ensures t[key].model == model && t[key].text == Some(text) && t[key].embedding == v && t[key].updatedAt == now
    ensures t[key].createdAt == if key in table then table[key].createdAt else now
  {
    var createdAt := if key in table then table[key].createdAt else now;
    table[key := TextRow(model, Some(text), v, createdAt, now)]
  }

  /**
   * The artist upsert of lib/embeddings/artist.ts: a conflict overwrites model, embedding and
   * updated_at; the text column is never written, and created_at keeps its first value.
   */
  function UpsertEmbeddingOnly(table: map<Id, TextRow>, key: Id, model: string, v: Vector, now: int): (t: map<Id, TextRow>)
    ensures key in t && t == table[key := t[key]]
    ensures t[key].model == model && t[key].embedding == v && t[key].updatedAt == now
    ensures t[key].text == if key in table then table[key].text else None
    ensures t[key].createdAt == if key in table then table[key].createdAt else now
  {
    if key in table then table[key := table[key].(model := model, embedding := v, updatedAt := now)]
    else table[key := TextRow(model, None, v, now, now)]
  }

  /**
   * The image upsert: a conflict overwrites model, embedding and updated_at, and keeps the
   * artwork id stored by the first insertion.
   */
  function UpsertImage(table: map<Id, ImageRow>, imageId: Id, artworkId: Id, model: string, v: Vector, now: int): (t: map<Id, ImageRow>)
    ensures imageId in t && t == table[imageId := t[imageId]]
    ensures t[imageId].model == model && t[imageId].embedding == v && t[imageId].updatedAt == now
    ensures t[imageId].artworkId == if imageId in table then table[imageId].artworkId else artworkId
  {
    if imageId in table then table[imageId := table[imageId].(model := model, embedding := v, updatedAt := now)]
    else table[imageId := ImageRow(artworkId, model, v, now)]
  }

  /** Two text upserts on one key: the second's columns win, and created_at is the first's. */
  lemma UpsertTextTwice(table: map<Id, TextRow>, key: Id, m1: string, x1: string, v1: Vector, n1: int,
                        m2: string, x2: string, v2: Vector, n2: int)
    ensures var once := UpsertText(table, key, m2, x2, v2, n2);
      var twice := UpsertText(UpsertText(table, key, m1, x1, v1, n1), key, m2, x2, v2, n2);
      && twice.Keys == once.Keys
      && twice[key] == once[key].(createdAt := if key in table then table[key].createdAt else n1)
      && (forall k :: k in twice && k != key ==> twice[k] == once[k])
  {
  }

  /** Repeating an image upsert with the same values changes nothing. */
  lemma UpsertImageIdempotent(table: map<Id, ImageRow>, imageId: Id, artworkId: Id, model: string, v: Vector, now: int)
    ensures var t := UpsertImage(table, imageId, artworkId, model, v, now);
      UpsertImage(t, imageId, artworkId, model, v, now) == t
  {
  }

  /** The embedding-only upsert never invents text: a key it inserts has no text. */
  lemma UpsertEmbeddingOnlyKeepsText(table: map<Id, TextRow>, key: Id, model: string, v: Vector, now: int)
    ensures var t := UpsertEmbeddingOnly(table, key, model, v, now);
      forall k :: k in t && t[k].text.Some? ==> k in table && t[k].text == table[k].text
  {
  }

  /**
   * The embedding tables. `imageBacklog` is the set of artwork ids present in
   * `artwork_embeddings_image`, which the backfill's image discovery reads and no modelled
   * code writes.
   */
  class Store {
    var artworkText: map<Id, TextRow>
    var artistText: map<Id, TextRow>
    var imageEmbeddings: map<Id, ImageRow>
    var imageBacklog: set<Id>

    constructor(artworkText: map<Id, TextRow>, artistText: map<Id, TextRow>,
                imageEmbeddings: map<Id, ImageRow>, imageBacklog: set<Id>)
      ensures this.artworkText == artworkText && this.artistText == artistText
      ensures this.imageEmbeddings == imageEmbeddings && this.imageBacklog == imageBacklog
    {
      this.artworkText := artworkText;
      this.artistText := artistText;
      this.imageEmbeddings := imageEmbeddings;
      this.imageBacklog := imageBacklog;
    }
  }
}
