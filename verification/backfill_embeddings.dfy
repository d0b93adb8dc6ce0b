/**
 * The embeddings backfill job (scripts/backfill-missing-embeddings.ts): discover the rows
 * that have no embedding yet, then drain them in windows of BATCH ids, counting how many
 * upserts resolved and how many rejected. The three kinds run one after the other.
 *
 * The image kind calls an upsert that does not exist (its definition in
 * lib/upsert-embeddings.ts is commented out), so its per-id action is the oracle
 * `imageAction`; it discovers artworks missing from `artwork_embeddings_image`, a table no
 * modelled code writes.
 */
module BackfillEmbeddings {
  import opened Wrappers
  import opened Seqs
  import opened Records
  import opened Tables
  import opened EmbeddingText
  import UpsertEmbeddings

  const BATCH: nat := 5
  const INCLUDE_ONLY_PUBLISHED := false

  /** `ids.slice(i, i + BATCH)` for i = 0, BATCH, 2 * BATCH, ... while i < ids.length. */
  function Windows<T>(s: seq<T>): (ws: seq<seq<T>>)
    ensures forall k :: 0 <= k < |ws| ==> 1 <= |ws[k]| <= BATCH
    decreases |s|
  {
    if s == [] then []
    else
      var hi := Min(BATCH, |s|);
      [s[..hi]] + Windows(s[hi..])
  }

  /** The windows, concatenated, are the ids: every id exactly once, in order. */
  lemma {:induction false} WindowsCover<T>(s: seq<T>)
    ensures Flatten(Windows(s)) == s
    decreases |s|
  {
    if s != [] {
      var hi := Min(BATCH, |s|);
      WindowsCover(s[hi..]);
      FlattenConcat([s[..hi]], Windows(s[hi..]));
      assert Flatten([s[..hi]]) == Flatten([]) + s[..hi];
      assert s[..hi] + s[hi..] == s;
    }
  }

  /** There are ceil(n / BATCH) windows. */
  lemma {:induction false} WindowsCount<T>(s: seq<T>)
    ensures |Windows(s)| == (|s| + BATCH - 1) / BATCH
    decreases |s|
  {
    if s != [] {
      WindowsCount(s[Min(BATCH, |s|)..]);
    }
  }

  /** Window `k` is the slice [k * BATCH, min(k * BATCH + BATCH, n)). */
  lemma {:induction false} WindowAt<T>(s: seq<T>, k: nat)
    requires k < |Windows(s)|
    ensures k * BATCH < |s|
    ensures Windows(s)[k] == s[k * BATCH..Min(k * BATCH + BATCH, |s|)]
    decreases |s|
  {
    var hi := Min(BATCH, |s|);
    if k > 0 {
      var rest := s[hi..];
      WindowAt(rest, k - 1);
      assert hi == BATCH;
      assert rest[(k - 1) * BATCH..Min((k - 1) * BATCH + BATCH, |rest|)]
        == s[k * BATCH..Min(k * BATCH + BATCH, |s|)];
    }
  }

  /** The three kinds of embedding the job fills in, in the order it runs them. */
  datatype Kind = ArtistTextKind | ArtworkTextKind | ArtworkImageKind

  /**
   * What the job reads but does not write: the entity rows, the provider oracles, the
   * database's acceptance of a vector, the image action, and the value of `NOW()`.
   */
  datatype Env = Env(artists: seq<Artist>, artworks: seq<Artwork>, images: seq<ArtworkImage>,
                     respond: string -> Reply, accepts: Vector -> bool,
                     imageAction: Id -> Outcome, now: int)

  /** The canonical text the text upsert of `kind` reads for `id`. */
  function Canonical(env: Env, kind: Kind, id: Id): Result<string>
    requires kind != ArtworkImageKind
  {
    if kind == ArtistTextKind then UpsertEmbeddings.ArtistCanonical(env.artists, id)
    else UpsertEmbeddings.ArtworkCanonical(env.artworks, id)
  }

  /** The text upsert of `kind` for `id`, against `table`. */
  function TextStep(env: Env, kind: Kind, id: Id, table: map<Id, TextRow>): UpsertEmbeddings.TextUpsert
    requires kind != ArtworkImageKind
  {
    UpsertEmbeddings.TextUpsertStep(Canonical(env, kind, id), id, table, env.respond, env.accepts, env.now)
  }

  /** Whether `fn(id)` resolves (it does not depend on the table). */
  predicate Succeeds(env: Env, kind: Kind, id: Id) {
    if kind == ArtworkImageKind then env.imageAction(id).Success?
    else TextStep(env, kind, id, map[]).outcome.Success?
  }

  /** Whether the text upsert of `kind` for `id` writes a row. */
  predicate Writes(env: Env, kind: Kind, id: Id)
    requires kind != ArtworkImageKind
  {
    var u := TextStep(env, kind, id, map[]);
    u.outcome.Success? && u.sent.Some?
  }

  /** The text table after the upserts of `kind` for `ids`, one after the other, each rejection caught. */
  function TableAfter(env: Env, kind: Kind, ids: seq<Id>, table: map<Id, TextRow>): (t: map<Id, TextRow>)
    requires kind != ArtworkImageKind
    ensures forall k :: k in t <==> k in table || (k in ids && Writes(env, kind, k))
  {
    if ids == [] then table
    else
      var init := ids[..|ids| - 1];
      var last := ids[|ids| - 1];
      var before := TableAfter(env, kind, init, table);
      UpsertEmbeddings.TextOutcomeIgnoresTable(Canonical(env, kind, last), last, before, map[],
                                               env.respond, env.accepts, env.now);
      UpsertEmbeddings.TextStepKeys(Canonical(env, kind, last), last, before, env.respond, env.accepts, env.now);
      assert forall k :: k in ids <==> k in init || k == last;
      TextStep(env, kind, last, before).table
  }

  /** `Succeeds` for one kind, as a function of the id. */
  function SucceedsFn(env: Env, kind: Kind): Id -> bool {
    (id: Id) => Succeeds(env, kind, id)
  }

  /** Number of ids whose action resolves. */
  function CountSucceeded(env: Env, kind: Kind, ids: seq<Id>): nat {
    Count(ids, SucceedsFn(env, kind))
  }

  /** Every action resolves exactly when the success counter reaches the number of ids. */
  lemma AllSucceedIff(env: Env, kind: Kind, ids: seq<Id>)
    ensures CountSucceeded(env, kind, ids) == |ids| <==> forall i :: 0 <= i < |ids| ==> Succeeds(env, kind, ids[i])
  {
    CountAll(ids, SucceedsFn(env, kind));
  }

  /** The per-item body of the window's `slice.map(async (id) => ...)`: run `fn(id)` and report whether it resolved. */
  method RunItem(store: Store, env: Env, kind: Kind, id: Id) returns (ok: bool)
    modifies store
    ensures ok == Succeeds(env, kind, id)
    ensures kind == ArtistTextKind ==> store.artistText == TextStep(env, kind, id, old(store.artistText)).table
    ensures kind != ArtistTextKind ==> store.artistText == old(store.artistText)
    ensures kind == ArtworkTextKind ==> store.artworkText == TextStep(env, kind, id, old(store.artworkText)).table
    ensures kind != ArtworkTextKind ==> store.artworkText == old(store.artworkText)
    ensures store.imageEmbeddings == old(store.imageEmbeddings) && store.imageBacklog == old(store.imageBacklog)
  {
    var outcome: Outcome;
    if kind == ArtistTextKind {
      UpsertEmbeddings.TextOutcomeIgnoresTable(Canonical(env, kind, id), id, store.artistText, map[],
                                               env.respond, env.accepts, env.now);
      var sent;
      outcome, sent := UpsertEmbeddings.UpsertArtistTextEmbedding(store, env.artists, id, env.respond, env.accepts, env.now);
    } else if kind == ArtworkTextKind {
      UpsertEmbeddings.TextOutcomeIgnoresTable(Canonical(env, kind, id), id, store.artworkText, map[],
                                               env.respond, env.accepts, env.now);
      var sent;
      outcome, sent := UpsertEmbeddings.UpsertArtworkTextEmbedding(store, env.artworks, id, env.respond, env.accepts, env.now);
    } else {
      outcome := env.imageAction(id);
    }
    ok := outcome.Success?;
  }

  /** The state a drain of `ids[..k]` leaves, from the tables `artistText0` and `artworkText0`. */
  ghost predicate DrainedUpTo(store: Store, env: Env, kind: Kind, ids: seq<Id>, k: nat,
                              artistText0: map<Id, TextRow>, artworkText0: map<Id, TextRow>)
    requires k <= |ids|
    reads store
  {
    && (kind == ArtistTextKind ==> store.artistText == TableAfter(env, kind, ids[..k], artistText0))
    && (kind != ArtistTextKind ==> store.artistText == artistText0)
    && (kind == ArtworkTextKind ==> store.artworkText == TableAfter(env, kind, ids[..k], artworkText0))
    && (kind != ArtworkTextKind ==> store.artworkText == artworkText0)
  }

  /** One more item of the drain: the success counter takes one step. */
  lemma CountStep(env: Env, kind: Kind, ids: seq<Id>, k: nat)
    requires k < |ids|
    ensures CountSucceeded(env, kind, ids[..k + 1])
      == CountSucceeded(env, kind, ids[..k]) + (if Succeeds(env, kind, ids[k]) then 1 else 0)
  {
    assert ids[..k + 1][..k] == ids[..k];
  }

  /** One more item of the drain: the table takes one upsert. */
  lemma TableStep(env: Env, kind: Kind, ids: seq<Id>, k: nat, t: map<Id, TextRow>)
    requires k < |ids| && kind != ArtworkImageKind
    ensures TableAfter(env, kind, ids[..k + 1], t) == TextStep(env, kind, ids[k], TableAfter(env, kind, ids[..k], t)).table
  {
    assert ids[..k + 1][..k] == ids[..k];
  }

  /** Runs item `k` of the drain: the drained prefix grows by one. */
  method DrainOne(store: Store, env: Env, kind: Kind, ids: seq<Id>, k: nat,
                  ghost artistText0: map<Id, TextRow>, ghost artworkText0: map<Id, TextRow>)
    returns (ok: bool)
    requires k < |ids|
    requires DrainedUpTo(store, env, kind, ids, k, artistText0, artworkText0)
    modifies store
    ensures ok == Succeeds(env, kind, ids[k])
    ensures DrainedUpTo(store, env, kind, ids, k + 1, artistText0, artworkText0)
    ensures store.imageEmbeddings == old(store.imageEmbeddings) && store.imageBacklog == old(store.imageBacklog)
  {
    if kind == ArtistTextKind {
      TableStep(env, kind, ids, k, artistText0);
    } else if kind == ArtworkTextKind {
      TableStep(env, kind, ids, k, artworkText0);
    }
    ok := RunItem(store, env, kind, ids[k]);
  }

  /**
   * The `await Promise.all(slice.map(...))` of one window `ids[lo..hi]`, run item by item:
   * each id runs once, a success increments `done` and a rejection `failed`.
   */
  method DrainWindow(store: Store, env: Env, kind: Kind, ids: seq<Id>, lo: nat, hi: nat,
                     done0: nat, failed0: nat, ghost artistText0: map<Id, TextRow>, ghost artworkText0: map<Id, TextRow>)
    returns (done: nat, failed: nat)
    requires lo <= hi <= |ids|
    requires done0 == CountSucceeded(env, kind, ids[..lo]) && done0 + failed0 == lo
    requires DrainedUpTo(store, env, kind, ids, lo, artistText0, artworkText0)
    modifies store
    ensures done == CountSucceeded(env, kind, ids[..hi]) && done + failed == hi
    ensures DrainedUpTo(store, env, kind, ids, hi, artistText0, artworkText0)
    ensures store.imageEmbeddings == old(store.imageEmbeddings) && store.imageBacklog == old(store.imageBacklog)
  {
    done, failed := done0, failed0;
    var slice := ids[lo..hi];
    var k := lo;
    while k < hi
      invariant lo <= k <= hi
      invariant done == CountSucceeded(env, kind, ids[..k]) && done + failed == k
      invariant DrainedUpTo(store, env, kind, ids, k, artistText0, artworkText0)
      invariant store.imageEmbeddings == old(store.imageEmbeddings) && store.imageBacklog == old(store.imageBacklog)
    {
      assert slice[k - lo] == ids[k];
      CountStep(env, kind, ids, k);
      var ok := DrainOne(store, env, kind, ids, k, artistText0, artworkText0);
      if ok {
        done := done + 1;
      } else {
        failed := failed + 1;
      }
      k := k + 1;
    }
  }

  /** The first `w` windows together are the first `min(5w, n)` ids. */
  lemma {:induction false} WindowsPrefix<T>(s: seq<T>, w: nat)
    requires w <= |Windows(s)|
    ensures Flatten(Windows(s)[..w]) == s[..Min(w * BATCH, |s|)]
  {
    var ws := Windows(s);
    if w == 0 {
      assert ws[..0] == [];
    } else {
      WindowsPrefix(s, w - 1);
      WindowAt(s, w - 1);
      assert ws[..w][..w - 1] == ws[..w - 1];
      assert s[..(w - 1) * BATCH] + s[(w - 1) * BATCH..Min(w * BATCH, |s|)] == s[..Min(w * BATCH, |s|)];
    }
  }

  /** While the first `w` windows leave ids over, there is a window `w`. */
  lemma WindowsBound<T>(s: seq<T>, w: nat)
    requires w <= |Windows(s)|
    ensures w * BATCH < |s| ==> w < |Windows(s)|
  {
    WindowsCount(s);
  }

  /**
   * `processInBatches(ids, fn, label)`: window after window, every id of a window runs and
   * the window is drained before the next starts; a rejection only increments `failed`.
   */
  method ProcessInBatches(store: Store, env: Env, kind: Kind, ids: seq<Id>) returns (done: nat, failed: nat)
    modifies store
    ensures done == CountSucceeded(env, kind, ids) && done + failed == |ids|
    ensures kind == ArtistTextKind ==> store.artistText == TableAfter(env, kind, ids, old(store.artistText))
    ensures kind != ArtistTextKind ==> store.artistText == old(store.artistText)
    ensures kind == ArtworkTextKind ==> store.artworkText == TableAfter(env, kind, ids, old(store.artworkText))
    ensures kind != ArtworkTextKind ==> store.artworkText == old(store.artworkText)
    ensures store.imageEmbeddings == old(store.imageEmbeddings) && store.imageBacklog == old(store.imageBacklog)
  {
    done, failed := 0, 0;
    var i := 0;
    ghost var w, j := 0, 0;
    WindowsBound(ids, 0);
    assert ids[..0] == [];
    while i < |ids|
      invariant i == w * BATCH && w <= |Windows(ids)| && j == Min(i, |ids|)
      invariant i < |ids| ==> w < |Windows(ids)|
      invariant Flatten(Windows(ids)[..w]) == ids[..j]
      invariant done == CountSucceeded(env, kind, ids[..j]) && done + failed == j
      invariant DrainedUpTo(store, env, kind, ids, j, old(store.artistText), old(store.artworkText))
      invariant store.imageEmbeddings == old(store.imageEmbeddings) && store.imageBacklog == old(store.imageBacklog)
      decreases |ids| - i
    {
      var hi := Min(i + BATCH, |ids|);
      done, failed := DrainWindow(store, env, kind, ids, i, hi, done, failed, old(store.artistText), old(store.artworkText));
      WindowsPrefix(ids, w + 1);
      WindowsBound(ids, w + 1);
      i, w, j := i + BATCH, w + 1, hi;
    }
    assert ids[..j] == ids;
  }

  /**
   * Rows kept by an anti-join, ordered by `createdAt` ascending: each kept row as often as
   * it is listed (once, for a table with a primary key) and no other row.
   */
  function AntiJoin<T(!new)>(rows: seq<T>, keep: T -> bool, createdAt: T -> int): (r: seq<T>)
    ensures forall i :: 0 <= i < |r| ==> r[i] in rows && keep(r[i])
    ensures forall i :: 0 <= i < |rows| && keep(rows[i]) ==> rows[i] in r
    ensures SortedBy(r, createdAt)
    ensures forall x :: multiset(r)[x] == if keep(x) then multiset(rows)[x] else 0
  {
    var kept := Filter(rows, keep);
    FilterMultiset(rows, keep);
    var r := SortByKey(kept, createdAt);
    forall i | 0 <= i < |r| ensures r[i] in kept {
      assert r[i] in multiset(r);
    }
    forall i | 0 <= i < |kept| ensures kept[i] in r {
      assert kept[i] in multiset(kept);
    }
    r
  }

  /** `aw.published = TRUE` is added to the queries only when INCLUDE_ONLY_PUBLISHED is set. */
  predicate PublishedFilter(aw: Artwork) {
    !INCLUDE_ONLY_PUBLISHED || aw.published
  }

  /** `EXISTS (SELECT 1 FROM "ArtworkImage" im WHERE im."artworkId" = aw.id)`. */
  predicate HasImage(images: seq<ArtworkImage>, artworkId: Id) {
    exists i :: 0 <= i < |images| && images[i].artworkId == artworkId
  }

  /** `getMissingArtistIds`: artists without an `artist_embeddings_text` row, oldest first. */
  function MissingArtistIds(artists: seq<Artist>, table: map<Id, TextRow>): seq<Id> {
    Map(AntiJoin(artists, (a: Artist) => a.id !in table, (a: Artist) => a.createdAt), (a: Artist) => a.id)
  }

  /** `getMissingArtworkTextIds`: artworks without an `artwork_embeddings_text` row, oldest first. */
  function MissingArtworkTextIds(artworks: seq<Artwork>, table: map<Id, TextRow>): seq<Id> {
    Map(AntiJoin(artworks, (aw: Artwork) => aw.id !in table && PublishedFilter(aw), (aw: Artwork) => aw.createdAt),
        (aw: Artwork) => aw.id)
  }

  /**
   * `getMissingArtworkImageIds`: artworks (not images) without an `artwork_embeddings_image`
   * row that have at least one image, oldest first.
   */
  function MissingImageArtworkIds(artworks: seq<Artwork>, images: seq<ArtworkImage>, backlog: set<Id>): seq<Id> {
    Map(AntiJoin(artworks, (aw: Artwork) => aw.id !in backlog && PublishedFilter(aw) && HasImage(images, aw.id),
                 (aw: Artwork) => aw.createdAt),
        (aw: Artwork) => aw.id)
  }

  /** The discovery query of a text kind. */
  function Discover(env: Env, kind: Kind, table: map<Id, TextRow>): seq<Id>
    requires kind != ArtworkImageKind
  {
    if kind == ArtistTextKind then MissingArtistIds(env.artists, table) else MissingArtworkTextIds(env.artworks, table)
  }

  /** The rows a text kind's discovery ranges over carry the id. */
  predicate HasRecord(env: Env, kind: Kind, id: Id)
    requires kind != ArtworkImageKind
  {
    if kind == ArtistTextKind then exists i :: 0 <= i < |env.artists| && env.artists[i].id == id
    else exists i :: 0 <= i < |env.artworks| && env.artworks[i].id == id
  }

  /** An id is discovered exactly when a listed row carries it and passes the anti-join. */
  lemma AntiJoinIds<T(!new)>(rows: seq<T>, keep: T -> bool, createdAt: T -> int, idOf: T -> Id, id: Id)
    ensures id in Map(AntiJoin(rows, keep, createdAt), idOf) <==>
      exists i :: 0 <= i < |rows| && idOf(rows[i]) == id && keep(rows[i])
  {
    var r := AntiJoin(rows, keep, createdAt);
    var ids := Map(r, idOf);
    if id in ids {
      var j :| 0 <= j < |ids| && ids[j] == id;
      var x := r[j];
      assert idOf(x) == id && keep(x);
      assert x in rows;
      var i :| 0 <= i < |rows| && rows[i] == x;
    }
    if exists i :: 0 <= i < |rows| && idOf(rows[i]) == id && keep(rows[i]) {
      var i :| 0 <= i < |rows| && idOf(rows[i]) == id && keep(rows[i]);
      var x := rows[i];
      assert x in r;
      var j :| 0 <= j < |r| && r[j] == x;
      assert ids[j] == idOf(x);
    }
  }

  /** `getMissingArtistIds` finds exactly the artists with no embedding row. */
  lemma MissingArtistIdsExact(artists: seq<Artist>, table: map<Id, TextRow>)
    ensures forall id ::
      id in MissingArtistIds(artists, table) <==> (exists i :: 0 <= i < |artists| && artists[i].id == id) && id !in table
  {
    forall id ensures
      id in MissingArtistIds(artists, table) <==> (exists i :: 0 <= i < |artists| && artists[i].id == id) && id !in table
    {
      var keep := (a: Artist) => a.id !in table;
      var idOf := (a: Artist) => a.id;
      AntiJoinIds(artists, keep, (a: Artist) => a.createdAt, idOf, id);
      if id in MissingArtistIds(artists, table) {
        var i :| 0 <= i < |artists| && idOf(artists[i]) == id && keep(artists[i]);
        assert artists[i].id == id && id !in table;
      }
      if id !in table && exists i :: 0 <= i < |artists| && artists[i].id == id {
        var i :| 0 <= i < |artists| && artists[i].id == id;
        assert idOf(artists[i]) == id && keep(artists[i]);
      }
    }
  }

  /** `getMissingArtworkTextIds` finds exactly the artworks with no embedding row (published or not). */
  lemma MissingArtworkTextIdsExact(artworks: seq<Artwork>, table: map<Id, TextRow>)
    ensures forall id ::
      id in MissingArtworkTextIds(artworks, table) <==> (exists i :: 0 <= i < |artworks| && artworks[i].id == id) && id !in table
  {
    forall id ensures
      id in MissingArtworkTextIds(artworks, table) <==> (exists i :: 0 <= i < |artworks| && artworks[i].id == id) && id !in table
    {
      var keep := (aw: Artwork) => aw.id !in table && PublishedFilter(aw);
      var idOf := (aw: Artwork) => aw.id;
      AntiJoinIds(artworks, keep, (aw: Artwork) => aw.createdAt, idOf, id);
      if id in MissingArtworkTextIds(artworks, table) {
        var i :| 0 <= i < |artworks| && idOf(artworks[i]) == id && keep(artworks[i]);
        assert artworks[i].id == id && id !in table;
      }
      if id !in table && exists i :: 0 <= i < |artworks| && artworks[i].id == id {
        var i :| 0 <= i < |artworks| && artworks[i].id == id;
        assert idOf(artworks[i]) == id && keep(artworks[i]);
      }
    }
  }

  /**
   * `getMissingArtworkImageIds` finds exactly the artworks with at least one image and no
   * `artwork_embeddings_image` row: it reads the backlog set and never the image table the
   * image upserts write.
   */
  lemma MissingImageArtworkIdsExact(artworks: seq<Artwork>, images: seq<ArtworkImage>, backlog: set<Id>)
    ensures forall id ::
      id in MissingImageArtworkIds(artworks, images, backlog) <==>
        (exists i :: 0 <= i < |artworks| && artworks[i].id == id) && id !in backlog && HasImage(images, id)
  {
    forall id ensures
      id in MissingImageArtworkIds(artworks, images, backlog) <==>
        (exists i :: 0 <= i < |artworks| && artworks[i].id == id) && id !in backlog && HasImage(images, id)
    {
      var keep := (aw: Artwork) => aw.id !in backlog && PublishedFilter(aw) && HasImage(images, aw.id);
      var idOf := (aw: Artwork) => aw.id;
      AntiJoinIds(artworks, keep, (aw: Artwork) => aw.createdAt, idOf, id);
      if id in MissingImageArtworkIds(artworks, images, backlog) {
        var i :| 0 <= i < |artworks| && idOf(artworks[i]) == id && keep(artworks[i]);
        assert artworks[i].id == id && id !in backlog && HasImage(images, id);
      }
      if id !in backlog && HasImage(images, id) && exists i :: 0 <= i < |artworks| && artworks[i].id == id {
        var i :| 0 <= i < |artworks| && artworks[i].id == id;
        assert idOf(artworks[i]) == id && keep(artworks[i]);
      }
    }
  }

  /** Text discovery finds exactly the ids that have a record and no embedding row. */
  lemma DiscoverExact(env: Env, kind: Kind, table: map<Id, TextRow>)
    requires kind != ArtworkImageKind
    ensures forall id :: id in Discover(env, kind, table) <==> HasRecord(env, kind, id) && id !in table
  {
    if kind == ArtistTextKind {
      MissingArtistIdsExact(env.artists, table);
    } else {
      MissingArtworkTextIdsExact(env.artworks, table);
    }
  }

  /** For an id with a record, the text upsert resolves exactly when it writes the row. */
  lemma SucceedsIffWrites(env: Env, kind: Kind, id: Id)
    requires kind != ArtworkImageKind && HasRecord(env, kind, id)
    ensures Succeeds(env, kind, id) <==> Writes(env, kind, id)
  {
    if kind == ArtistTextKind {
      UpsertEmbeddings.ArtistUpsertAsksProvider(env.artists, id, map[], env.respond, env.accepts, env.now);
      var i :| 0 <= i < |env.artists| && env.artists[i].id == id;
    } else {
      UpsertEmbeddings.ArtworkUpsertAsksProvider(env.artworks, id, map[], env.respond, env.accepts, env.now);
      var i :| 0 <= i < |env.artworks| && env.artworks[i].id == id;
    }
  }

  /**
   * After a text kind is drained, discovering again finds exactly the ids whose upsert
   * rejected: the backlog shrinks by every success and keeps every failure.
   */
  lemma RediscoverFindsFailures(env: Env, kind: Kind, table: map<Id, TextRow>)
    requires kind != ArtworkImageKind
    ensures var ids := Discover(env, kind, table);
      forall id :: id in Discover(env, kind, TableAfter(env, kind, ids, table)) <==> id in ids && !Succeeds(env, kind, id)
  {
    var ids := Discover(env, kind, table);
    var after := TableAfter(env, kind, ids, table);
    DiscoverExact(env, kind, table);
    DiscoverExact(env, kind, after);
    forall id | HasRecord(env, kind, id) ensures Succeeds(env, kind, id) <==> Writes(env, kind, id) {
      SucceedsIffWrites(env, kind, id);
    }
  }

  /** When every discovered upsert resolves, nothing of that kind is missing afterwards. */
  lemma AllSucceedNothingMissing(env: Env, kind: Kind, table: map<Id, TextRow>)
    requires kind != ArtworkImageKind
    requires var ids := Discover(env, kind, table); CountSucceeded(env, kind, ids) == |ids|
    ensures Discover(env, kind, TableAfter(env, kind, Discover(env, kind, table), table)) == []
  {
    var ids := Discover(env, kind, table);
    AllSucceedIff(env, kind, ids);
    RediscoverFindsFailures(env, kind, table);
    var again := Discover(env, kind, TableAfter(env, kind, ids, table));
    forall id | id in ids ensures Succeeds(env, kind, id) {
      var i :| 0 <= i < |ids| && ids[i] == id;
    }
    assert forall id :: id !in again;
    EmptyWhenNoMember(again);
  }

  /** How one kind went: the ids discovered and the final counters. */
  datatype Phase = Phase(ids: seq<Id>, done: nat, failed: nat)

  /**
   * `main`: artists, then artwork texts, then artwork images; each kind is discovered only
   * after the previous kind has been drained.
   */
  method RunBackfill(store: Store, env: Env) returns (artists: Phase, artworkTexts: Phase, images: Phase)
    modifies store
    ensures artists.ids == MissingArtistIds(env.artists, old(store.artistText))
    ensures store.artistText == TableAfter(env, ArtistTextKind, artists.ids, old(store.artistText))
    ensures artworkTexts.ids == MissingArtworkTextIds(env.artworks, old(store.artworkText))
    ensures store.artworkText == TableAfter(env, ArtworkTextKind, artworkTexts.ids, old(store.artworkText))
    ensures images.ids == MissingImageArtworkIds(env.artworks, env.images, old(store.imageBacklog))
    ensures store.imageEmbeddings == old(store.imageEmbeddings) && store.imageBacklog == old(store.imageBacklog)
    ensures artists.done == CountSucceeded(env, ArtistTextKind, artists.ids) && artists.done + artists.failed == |artists.ids|
    ensures artworkTexts.done == CountSucceeded(env, ArtworkTextKind, artworkTexts.ids)
    ensures artworkTexts.done + artworkTexts.failed == |artworkTexts.ids|
    ensures images.done == CountSucceeded(env, ArtworkImageKind, images.ids) && images.done + images.failed == |images.ids|
  {
    var artistIds := MissingArtistIds(env.artists, store.artistText);
    var d1, f1 := ProcessInBatches(store, env, ArtistTextKind, artistIds);
    artists := Phase(artistIds, d1, f1);

    var artworkTextIds := MissingArtworkTextIds(env.artworks, store.artworkText);
    var d2, f2 := ProcessInBatches(store, env, ArtworkTextKind, artworkTextIds);
    artworkTexts := Phase(artworkTextIds, d2, f2);

    var imageIds := MissingImageArtworkIds(env.artworks, env.images, store.imageBacklog);
    var d3, f3 := ProcessInBatches(store, env, ArtworkImageKind, imageIds);
    images := Phase(imageIds, d3, f3);
  }
}
