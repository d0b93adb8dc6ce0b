# artinvision-dashboard: embedding pipeline, backfill jobs and request gate, in Dafny

This project models the server-side core of the artinvision dashboard, a Next.js application
for museums, curators and artists:

- **Canonical texts** (`CanonicalArtwork`, `CanonicalArtist`). Each artwork or artist record
  becomes a short labelled text ("Title: …", "Description: …", …) that is sent for embedding.
- **Embedding upserts** (`EmbeddingText`, `Tables`, `UpsertEmbeddings`, `ArtistEmbedding`).
  - The text is whitespace-normalised, cut to the provider's 4000-character input, and
    embedded.
  - The vector is written with `INSERT … ON CONFLICT DO UPDATE` into one of three embedding
    tables.
  - There are two artist upserts. One normalises; the alternate one in
    `lib/embeddings/artist.ts` does not, and it keeps the stored text.
- **Embeddings backfill job** (`BackfillEmbeddings`).
  - It discovers artists and artworks that have no embedding row, oldest first.
  - It drains each list in windows of 5 and counts the upserts that resolved and the ones
    that rejected.
- **QR backfill job** (`BackfillQr`). It parses `--key=value` options, picks the target
  artworks and stores, for each one, the public URL of its QR image
  `qr/artworks/<id>.png`.
- **Request gate** (`Middleware`). It decides, from the path, the query, the `next`
  parameter and the session, whether a request passes or is redirected.

Shared modules:

- `Wrappers` holds Option, Result and Outcome, and the error kinds.
- `Strings` holds the JavaScript string operations: `\s`, `trim`, `join`, `split` and
  `filter(Boolean)`.
- `Seqs` holds filter, count, sort-by-key, take and flatten.
- `Records` holds the entity rows.

Database tables are maps from their primary key. The ORM reads are lookups or filters over
sequences of rows. The operations that change tables are methods on the `Tables.Store` and
`BackfillQr.QrStore` classes. Each method is proved equal to a pure step function, and the
properties are proved about that step function.

Parameters stand in for what the code cannot see:

- The text-embedding endpoint is an oracle `respond` from the prepared input to the reply.
- The image embedder is an oracle `embedImage`.
- `accepts` says whether the database accepts the INSERT of a vector.
- `now` is the value of `NOW()`.
- In the QR job, `uploads` says whether QR rendering and upload succeed for an id, and
  `number` is `Number(…)` on a text. The rows the fallback query reads (`artworks`) and
  the `qrCodeUrl` column the updates write are one table (`BackfillQr.SameTable`).

Where a description of the system and the code disagree, the model follows the code.

- A blank artist (empty name, no bio) still has the canonical text "Name: ", which
  normalises to "Name:". The normalising artist upsert therefore always calls the
  provider for an existing artist (`UpsertEmbeddings.ArtistUpsertAsksProvider`). It never
  takes the empty-text return for such an artist.
- The image discovery of the embeddings backfill and the image upsert use different tables.
  - Discovery (scripts/backfill-missing-embeddings.ts:42-51) looks for artworks missing from
    `artwork_embeddings_image`, keyed by artwork.
  - The live image upsert (lib/upsert-embeddings.ts:121-135) writes
    `artwork_image_embeddings`, keyed by image.
  - The function the job imports for the image step exists only as commented-out code
    (lib/upsert-embeddings.ts:43-72).
  - The model therefore keeps `artwork_embeddings_image` as a separate set of artwork ids
    (`Store.imageBacklog`) that no modelled code writes. The image step is an abstract
    per-id action `imageAction`.
- The QR job's start-up guard cannot detect a missing public base (see Findings).
  `BackfillQr.Run` keeps the guard as written; `BackfillQr.RunGuarded` has the one the
  error message describes.

## Model

| member | source | states |
|---|---|---|
| `CanonicalArtwork.Lines` | lib/canonical/artwork.ts:10-16 | Title, Description and Artist lines, then the "Artist bio" line only when the related artist's bio is non-empty, then the Category line: 5 lines with a bio, 4 without. The artist falls back to "Unknown" and the category to "Uncategorized". |
| `CanonicalArtwork.BuildArtworkCanonicalText` | lib/canonical/artwork.ts:3-18 | A missing artwork gives exactly the error "Artwork not found"; an existing one always gives a text. |
| `CanonicalArtwork.ArtworkTextEnds` | lib/canonical/artwork.ts:10-18 | The text starts with the Title line and ends with the Category line (no trailing separator). It is never empty. |
| `CanonicalArtwork.ArtworkTextLines` | lib/canonical/artwork.ts:10-18 | When no field holds a line break, splitting the text on "\n" gives back exactly the lines: the parts are joined by single "\n". |
| `CanonicalArtwork.ArtworkTextNoBio` | lib/canonical/artwork.ts:10-18 | Without an artist bio (no artist, no bio, or an empty one), the text is exactly the Title, Description, Artist and Category lines joined by "\n". The bio entry leaves no empty line. |
| `CanonicalArtist.Lines` | lib/canonical/artist.ts:6-7 | The Name line always comes first, even for an empty name. The Bio line is present iff the bio is non-empty. |
| `CanonicalArtist.BuildArtistCanonicalText` | lib/canonical/artist.ts:3-8 | A missing artist gives exactly "Artist not found"; an existing one always gives a text. |
| `CanonicalArtist.ArtistTextShape` | lib/canonical/artist.ts:6-8 | The text is "Name: "+name, followed by "\n" and "Bio: "+bio exactly when the bio is non-empty. |
| `CanonicalArtist.BlankArtistText` | lib/canonical/artist.ts:6-8 | An artist with an empty name and no bio has the non-empty text "Name: ". |
| `Records.Find` | lib/canonical/artwork.ts:4-7 | `findUnique` by primary key, for the artwork and the artist table alike: a row it finds is listed and has the id, and it finds none exactly when no listed row has the id. |
| `EmbeddingText.AsVectorLiteral` | lib/embeddings/text.ts:5-7 | The literal is bracketed by "'[" and "]'"; the empty vector gives "'[]'". |
| `EmbeddingText.VectorLiteralElements` | lib/embeddings/text.ts:6 | Splitting the bracketed body on "," gives back every rendered element, in order. |
| `EmbeddingText.VectorLiteralCommas` | lib/embeddings/text.ts:6 | With comma-free renderings, the literal holds exactly \|v\|-1 commas. |
| `EmbeddingText.PrepareInput` | lib/embeddings/text.ts:10 | The input is a prefix of the trimmed text and at most 4000 long. It is the whole trimmed text when that fits, and exactly 4000 characters otherwise. |
| `EmbeddingText.EmbedText` | lib/embeddings/text.ts:9-29 | A transport failure, a non-2xx answer (with its status and body) and a 2xx answer without `data[0]` each give their own error. Otherwise the result is the first entry's embedding. |
| `Tables.UpsertText` | lib/upsert-embeddings.ts:26-40 | Exactly one row under the key, holding the model, the text, the vector and `updated_at = now`. `created_at` keeps its first value. No other key changes. |
| `Tables.UpsertTextTwice` | lib/upsert-embeddings.ts:30-35 | Two upserts on one key: the second's columns win, and `created_at` is the first insertion's. |
| `Tables.UpsertEmbeddingOnly` | lib/embeddings/artist.ts:14-25 | Overwrites model, embedding and `updated_at`. The text is never written (none on insert), and `created_at` keeps its first value. No other key changes. |
| `Tables.UpsertEmbeddingOnlyKeepsText` | lib/embeddings/artist.ts:16-21 | Every text present after the statement was already there under the same key. |
| `Tables.UpsertImage` | lib/upsert-embeddings.ts:121-135 | On conflict, model, embedding and `updated_at` are overwritten, and the first stored `artwork_id` is kept. No other image row changes. |
| `Tables.UpsertImageIdempotent` | lib/upsert-embeddings.ts:126-130 | Repeating the same image upsert changes nothing. |
| `UpsertEmbeddings.Collapse` | lib/upsert-embeddings.ts:16 | `replace(/\s+/g, " ")`: empty iff the input is; every whitespace is a space, and no two are adjacent. |
| `UpsertEmbeddings.Normalize` | lib/upsert-embeddings.ts:15-17 | null/undefined give "". The output is trimmed, has only plain spaces as whitespace, and has no two adjacent whitespace characters. |
| `UpsertEmbeddings.NormalizeIsWordsJoined` | lib/upsert-embeddings.ts:16 | `normalize` equals the input's maximal non-whitespace runs joined by single spaces (independent definition). |
| `UpsertEmbeddings.NormalizeIdempotent` | lib/upsert-embeddings.ts:16 | Normalising twice is normalising once. |
| `UpsertEmbeddings.NormalizeEmptyIff` | lib/upsert-embeddings.ts:16 | The result is "" exactly when the input is all whitespace. |
| `UpsertEmbeddings.NormalizedSingleLine` | lib/upsert-embeddings.ts:16 | A normalised text has no line terminator: the canonical "\n" separators become spaces. |
| `UpsertEmbeddings.ArtworkTextNotBlank` | lib/upsert-embeddings.ts:21-23 | An existing artwork's canonical text never normalises to "". |
| `UpsertEmbeddings.ArtistTextNotBlank` | lib/upsert-embeddings.ts:162-164 | An existing artist's canonical text never normalises to "". |
| `UpsertEmbeddings.TextUpsertStep` | lib/upsert-embeddings.ts:19-41 | A failed read rejects with its error and sends nothing. Empty normalised text resolves without calling the provider and leaves the table alone. Otherwise the normalised text, cut and trimmed, is sent. A rejection (provider error, or `StoreWriteError`) leaves the table alone. A success writes `UpsertText(model, normalised text, vector)`. |
| `UpsertEmbeddings.TextUpsertSucceedsIff` | lib/upsert-embeddings.ts:24-40 | For non-empty normalised text, the upsert resolves exactly when the provider answers with a vector and the INSERT is accepted, and then the table is `UpsertText` with that vector under the key. |
| `UpsertEmbeddings.TextOutcomeIgnoresTable` | lib/upsert-embeddings.ts:19-41 | Whether the upsert resolves, and what it sends, do not depend on the table's contents. |
| `UpsertEmbeddings.TextStepKeys` | lib/upsert-embeddings.ts:26-40 | A text upsert adds the key exactly when it sent text and resolved. It never removes a key. |
| `UpsertEmbeddings.TextUpsertSucceeds` | lib/upsert-embeddings.ts:26-40 | After a success there is one row for the id, holding the text model, the normalised single-line text and the vector; other ids are unchanged. |
| `UpsertEmbeddings.ArtworkUpsertAsksProvider` | lib/upsert-embeddings.ts:21-24 | The provider is asked iff the artwork exists; a missing one rejects with "Artwork not found" and leaves the table. |
| `UpsertEmbeddings.ArtistUpsertAsksProvider` | lib/upsert-embeddings.ts:162-165 | The same for artists, even one with an empty name and no bio. |
| `UpsertEmbeddings.UpsertCanonicalText` | lib/upsert-embeddings.ts:22-40 | The imperative body: outcome, sent text and new table are those of `TextUpsertStep`; the other tables do not change. |
| `UpsertEmbeddings.UpsertArtworkTextEmbedding` | lib/upsert-embeddings.ts:19-41 | `upsertArtworkTextEmbedding` on the store: the artwork text table becomes the step's table; nothing else changes. |
| `UpsertEmbeddings.UpsertArtistTextEmbedding` | lib/upsert-embeddings.ts:160-182 | The same for the artist text table. |
| `UpsertEmbeddings.SingleImageStep` | lib/upsert-embeddings.ts:99-136 | An empty URL, a throwing embedder or an empty vector resolves and writes nothing. A rejected INSERT rejects with `StoreWriteError`. Otherwise the image row holds the image model and the vector, under the first stored artwork id. |
| `UpsertEmbeddings.UpsertSingleArtworkImageEmbedding` | lib/upsert-embeddings.ts:99-136 | The imperative body; its outcome and the new image table are those of `SingleImageStep`. |
| `UpsertEmbeddings.SingleImageKeepsOthers` | lib/upsert-embeddings.ts:121-135 | A single-image upsert leaves every other image row as it was. |
| `UpsertEmbeddings.ImagesOf` | lib/upsert-embeddings.ts:139-143 | Exactly the images of the artwork. |
| `UpsertEmbeddings.AllImagesTable` | lib/upsert-embeddings.ts:145-157 | Rows of ids that are not among the visited images are untouched. |
| `UpsertEmbeddings.AllImagesUntouched` | lib/upsert-embeddings.ts:145-157 | Images after position `from` that do not carry an id leave that id's row as it was after position `from`. |
| `UpsertEmbeddings.AllImagesWritesRow` | lib/upsert-embeddings.ts:145-157 | Failure isolation: with distinct image ids, an image whose upsert writes ends with its own vector and the image model, whatever the other images did. |
| `UpsertEmbeddings.AllImagesSkipsRow` | lib/upsert-embeddings.ts:145-157 | An image that is skipped or whose upsert fails leaves its row as it was. |
| `UpsertEmbeddings.UpsertAllArtworkImageEmbeddings` | lib/upsert-embeddings.ts:138-158 | The loop leaves the image table equal to `AllImagesTable` over the artwork's images; it never rejects. |
| `ArtistEmbedding.DirectArtistStep` | lib/embeddings/artist.ts:9-27 | The canonical text is sent as it is: trimmed and cut, with no normalisation and no empty check. A success writes the embedding-only row (model, vector, `updated_at = now`; text and `created_at` kept). A rejection leaves the table. |
| `ArtistEmbedding.DirectArtistSucceedsIff` | lib/embeddings/artist.ts:12-26 | For a found artist, the upsert resolves exactly when the provider answers with a vector and the INSERT is accepted, and then the table is the embedding-only upsert of that vector. |
| `ArtistEmbedding.UpsertArtistTextEmbedding` | lib/embeddings/artist.ts:9-27 | The imperative body, equal to `DirectArtistStep` on the artist text table. |
| `ArtistEmbedding.DirectUpsertKeepsFirstInsert` | lib/embeddings/artist.ts:15-26 | A second upsert keeps the first insertion's `created_at` and never fills in the text. |
| `ArtistEmbedding.DirectSendsLineBreak` | lib/embeddings/artist.ts:10-12 | For an artist with a bio, the alternate upsert sends the "\n" between the lines, while the normalising one sends none. |
| `BackfillEmbeddings.Windows` | scripts/backfill-missing-embeddings.ts:63-64 | Every window holds 1 to 5 ids. |
| `BackfillEmbeddings.WindowsCover` | scripts/backfill-missing-embeddings.ts:63-64 | The windows concatenated are the ids: each id once, in order. |
| `BackfillEmbeddings.WindowsCount` | scripts/backfill-missing-embeddings.ts:63 | There are ceil(n / 5) windows. |
| `BackfillEmbeddings.WindowAt` | scripts/backfill-missing-embeddings.ts:63-64 | Window k is `ids.slice(5k, 5k + 5)`. |
| `BackfillEmbeddings.WindowsPrefix` | scripts/backfill-missing-embeddings.ts:63-64 | The first w windows together are the first min(5w, n) ids. |
| `BackfillEmbeddings.TableAfter` | scripts/backfill-missing-embeddings.ts:54-81 | After the text upserts of a list, a key is in the table iff it was before or it is listed and its upsert writes. |
| `BackfillEmbeddings.AllSucceedIff` | scripts/backfill-missing-embeddings.ts:60-79 | `done` equals the number of ids iff every upsert resolved. |
| `BackfillEmbeddings.RunItem` | scripts/backfill-missing-embeddings.ts:66-77 | One item: reports whether `fn(id)` resolved and applies that upsert to its table only. |
| `BackfillEmbeddings.DrainWindow` | scripts/backfill-missing-embeddings.ts:65-78 | Draining one window adds its successes to `done` and its rejections to `failed`, and applies its upserts in order. |
| `BackfillEmbeddings.ProcessInBatches` | scripts/backfill-missing-embeddings.ts:54-81 | `done` is the number of ids whose upsert resolves, and `done + failed` is the number of ids. The table is the upserts applied in order; the other tables do not change. |
| `BackfillEmbeddings.AntiJoin` | scripts/backfill-missing-embeddings.ts:13-19 | The discovered rows are the listed rows that pass the anti-join, each as many times as it is listed and no other row, sorted by `createdAt` ascending. |
| `BackfillEmbeddings.AntiJoinIds` | scripts/backfill-missing-embeddings.ts:13-20 | An id is discovered exactly when a listed row carries it and passes the anti-join. |
| `BackfillEmbeddings.MissingArtistIdsExact` | scripts/backfill-missing-embeddings.ts:12-21 | An id is discovered iff an artist has it and it has no artist text row. |
| `BackfillEmbeddings.MissingArtworkTextIdsExact` | scripts/backfill-missing-embeddings.ts:23-36 | An id is discovered iff an artwork has it and it has no artwork text row (published or not). |
| `BackfillEmbeddings.MissingImageArtworkIdsExact` | scripts/backfill-missing-embeddings.ts:38-52 | An id is discovered iff an artwork has it, it has at least one image, and it is absent from `artwork_embeddings_image`. |
| `BackfillEmbeddings.DiscoverExact` | scripts/backfill-missing-embeddings.ts:12-36 | Text discovery of either kind finds exactly the records with no embedding row. |
| `BackfillEmbeddings.SucceedsIffWrites` | scripts/backfill-missing-embeddings.ts:66-70 | For an existing record, the upsert resolves iff it writes the row. |
| `BackfillEmbeddings.RediscoverFindsFailures` | scripts/backfill-missing-embeddings.ts:83-96 | After a kind is drained, discovering again finds exactly the ids whose upsert rejected. |
| `BackfillEmbeddings.AllSucceedNothingMissing` | scripts/backfill-missing-embeddings.ts:83-96 | If every upsert of a kind resolved, nothing of that kind is missing afterwards. |
| `BackfillEmbeddings.RunBackfill` | scripts/backfill-missing-embeddings.ts:83-107 | Artists, then artwork texts, then images. Each kind is discovered after the previous kind is drained, and its counters and table are as `ProcessInBatches` states. |
| `BackfillQr.ParseArg` | scripts/backfill-qr.ts:129-131 | Exactly the arguments starting with "--" are kept. |
| `BackfillQr.ParseArgRoundTrip` | scripts/backfill-qr.ts:129-131 | The argument is its key and value put back together. A text key is non-empty and free of "=". |
| `BackfillQr.ParseKeyValue` | scripts/backfill-qr.ts:129-130 | "--k=v" maps k to v, for a non-empty k before the first "=". v may contain "=". |
| `BackfillQr.ParseFlag` | scripts/backfill-qr.ts:129-131 | "--k" without "=" is the flag k (`true`). "--=x" is the flag "=x". |
| `BackfillQr.ParseLineBreak` | scripts/backfill-qr.ts:129-131 | For every non-empty key without "=" and every value holding a line terminator, "--k=v" fails the pattern and becomes the flag "k=v". |
| `BackfillQr.LastSetter` | scripts/backfill-qr.ts:128-132 | The index of the last argument that sets a key, or -1 (reference definition). |
| `BackfillQr.ArgsLastWins` | scripts/backfill-qr.ts:128-132 | A key is in the map iff some argument sets it, and it then holds the last such argument's value. |
| `BackfillQr.ParseArgs` | scripts/backfill-qr.ts:126-134 | The loop builds exactly that map. |
| `BackfillQr.ModeOf` | scripts/backfill-qr.ts:138 | The link path runs iff the mode value is the text "link". Everything else, including no mode, regenerates. |
| `BackfillQr.LimitOf` | scripts/backfill-qr.ts:139 | A missing or empty limit gives 200. A bare `--limit` gives `Number(true)` = 1. Otherwise the value is `Number` of the text. |
| `BackfillQr.IdsOf` | scripts/backfill-qr.ts:140-146 | An id list exists exactly when `--ids` carries a text value. A bare `--ids` flag or no `--ids` gives none. |
| `BackfillQr.IdList` | scripts/backfill-qr.ts:142-145 | Split on ",", trim, drop empties: each id is non-empty, trimmed and comma-free. |
| `BackfillQr.IdsRoundTrip` | scripts/backfill-qr.ts:140-146 | Trimmed, non-empty, comma-free ids come back from "--ids=" plus their comma join. |
| `BackfillQr.ExplicitTargets` | scripts/backfill-qr.ts:73-74 | A non-empty id list is the target list, as given. |
| `BackfillQr.FallbackTargets` | scripts/backfill-qr.ts:75-81 | Otherwise the targets are the `limit` oldest artworks with a null `qrCodeUrl`: every chosen row is pending, they come oldest first, none comes more often than the table holds it, and a pending artwork left out means `limit` rows were taken, none of them younger than it. If fewer than `limit` come back, every such artwork is among them. |
| `BackfillQr.PendingRowsSubset` | scripts/backfill-qr.ts:76-81 | The query returns no row more often than the table holds it. |
| `BackfillQr.PendingRowsOldest` | scripts/backfill-qr.ts:79-80 | A pending artwork the query leaves out means the query was cut at `limit`, and every returned row is at least as old. |
| `BackfillQr.QrKey` | scripts/backfill-qr.ts:97 | The key is "qr/artworks/" + id + ".png". |
| `BackfillQr.QrKeyInjective` | scripts/backfill-qr.ts:97 | The id can be read back from the key, so two artworks never share a key. |
| `BackfillQr.QrUrl` | scripts/backfill-qr.ts:63 | The URL is the public base, "/", then the key. |
| `BackfillQr.StripTrailingSlashes` | scripts/backfill-qr.ts:23 | `replace(/\/+$/, "")`: a prefix of the input with no trailing "/", and only slashes were removed. |
| `BackfillQr.PublicBase` | scripts/backfill-qr.ts:18-26 | QR_PUBLIC_BASE always contains "/". |
| `BackfillQr.GuardMissesPublicBase` | scripts/backfill-qr.ts:148 | The guard as written lets the job start with only S3_BUCKET_NAME_QR set; the public base is then "/undefined". |
| `BackfillQr.UndefinedBaseUrl` | scripts/backfill-qr.ts:98 | With only S3_BUCKET_NAME_QR set, the URL stored for every id is "/undefined/qr/artworks/<id>.png". |
| `BackfillQr.GuardedPublicBase` | scripts/backfill-qr.ts:148-153 | With the corrected guard passed, the base is the configured endpoint and bucket name. |
| `BackfillQr.ColumnAfter` | scripts/backfill-qr.ts:92-117 | The loop never adds or removes an artwork row; it only rewrites the `qrCodeUrl` column. |
| `BackfillQr.ColumnAfterContents` | scripts/backfill-qr.ts:92-117 | A target that is updated holds its QR URL in both modes; every other row keeps its value. |
| `BackfillQr.Backfill` | scripts/backfill-qr.ts:88-121 | `updated` counts the targets that exist and, in regenerate mode, whose QR upload succeeds. `updated + failed` is the number of targets, so one failure does not stop the loop. The column is `ColumnAfter`. |
| `BackfillQr.LinkFallbackUpdatesAll` | scripts/backfill-qr.ts:96-111 | When the query and the update read one table, link mode over the queried targets updates every target, and each goes from a null `qrCodeUrl` to its URL. |
| `BackfillQr.Proceed` | scripts/backfill-qr.ts:70-122 | `backfill` after the guard: the plan's targets go through the loop with the counts and column `Backfill` states; in link mode over the queried targets nothing fails. |
| `BackfillQr.Run` | scripts/backfill-qr.ts:136-157 | With the guard as written, which tests `!QR_PUBLIC_BASE` or `!QR_BUCKET`, it exits before any update exactly when the guard trips. Otherwise it runs the backfill of the parsed plan with the computed public base; in link mode over the queried targets nothing fails. |
| `BackfillQr.RunGuarded` | scripts/backfill-qr.ts:148-153 | With the guard its error message describes, it exits exactly when the public endpoint, the public bucket name or the upload bucket is missing. Past the guard, the base is the configured endpoint and bucket name, and the backfill runs as in `Run`. |
| `Middleware.RoleHome` | middleware.ts:115-119 | ARTIST goes to /artist, CURATOR to /curator, MUSEUM_ADMIN to /museum, and anything else to "/". |
| `Middleware.Gate` | middleware.ts:81-150 | A redirect goes only to "/", to the login page, to the `next` parameter, or to the role home. |
| `Middleware.GatePassIff` | middleware.ts:86-150 | Decision table: a request passes iff it is allowlisted, or it is not a logged-in auth-page visit and is public, an auth page, or a logged-in request whose role fits every area prefix. |
| `Middleware.AllowlistFirst` | middleware.ts:86-100 | Allowlisted paths pass whatever the session. |
| `Middleware.AuthPageBounce` | middleware.ts:107-122 | A logged-in visit to /auth/* redirects to a non-empty `next`, else to the role home. |
| `Middleware.PublicPasses` | middleware.ts:125 | Public pages and auth pages pass when not bounced. |
| `Middleware.LoginRequired` | middleware.ts:128-132 | Elsewhere, a visitor who is not logged in goes to /auth/login with `next` = pathname + search. |
| `Middleware.RoleGates` | middleware.ts:141-149 | A logged-in request passes iff its role fits the area prefix; otherwise it redirects to "/". |
| `Middleware.AreasDisjoint` | middleware.ts:141-149 | No path is in two areas, so the gates' order does not matter. |
| `Middleware.ArtisticIsGated` | middleware.ts:147-149 | The gates are prefix tests: "/artistic" is gated like "/artist". |
| `Middleware.RedirectsSettle` | middleware.ts:107-149 | Every redirect the gate picks itself lands on a page the gate lets through for the same visitor. |
| `Middleware.Middleware` | middleware.ts:153-155 | Paths the route matcher excludes never reach the gate, and pass. |
| `Middleware.UnmatchedSkipsLogin` | middleware.ts:153-155 | "/publications" needs a login at the gate, but the matcher excludes it ("public…"), so it passes unauthenticated. |

## Findings

| source | as written | input that shows it | evidently intended | confidence | as-written member | corrected member |
|---|---|---|---|---|---|---|
| scripts/backfill-qr.ts:148 | The guard tests `!QR_PUBLIC_BASE`, but QR_PUBLIC_BASE (lines 18-26) always contains "/". A missing endpoint gives "", and a missing bucket name is interpolated as "undefined". | Only `S3_BUCKET_NAME_QR` is set. The job starts, and every stored URL is "/undefined/qr/artworks/<id>.png". | The job stops when the public endpoint or the public bucket name is missing, as its error message says. | not executed | `BackfillQr.GuardMissesPublicBase` (the guard of `BackfillQr.Run`) | `BackfillQr.RunGuarded` (guard `BackfillQr.MissingEnv`; its base is stated by `BackfillQr.GuardedPublicBase`) |

## Left out

- HTTP calls are oracles:
  - the OpenAI request and its JSON parsing (lib/embeddings/text.ts:11-28);
  - `embedImageFromUrl` (lib/embeddings/image.ts is not part of this model);
  - QR rendering, S3 upload and the `URL` class of `makeQrTargetUrl` (scripts/backfill-qr.ts:36-62).
- SQL is not modelled as text: the statements become map updates and the queries become
  filters and sorts.
- Timestamps are the parameter `now`. Logging is left out.
- Tables.UpsertText: on insertion `created_at` is taken to be `now`. The INSERTs at
  lib/upsert-embeddings.ts:28 and :169 do not name the column, so its value is the column
  default, and the table definition is not part of this model; the model assumes that
  default is `NOW()`. (lib/embeddings/artist.ts:17 writes `NOW()` explicitly.)
- A failing INSERT is the `accepts` oracle.
- `Promise.all` runs a window's upserts concurrently. The model runs them one after the
  other. The counters only increase, so completion order is not observable in them.
- `String.prototype.slice(0, 4000)` counts UTF-16 code units. The model counts characters
  (Unicode scalar values), so the cut differs for texts with characters outside the Basic
  Multilingual Plane.
- JavaScript's rendering of numbers in `asVectorLiteral` is the parameter `show`.
- `Number(...)` of a limit text is the parameter `number`, which yields a natural number.
  NaN, fractions and negative values are not modelled.
- Sorting:
  - ties in `ORDER BY "createdAt"` are not ordered by the model in any database-specific
    way;
  - `UpsertEmbeddings.ImagesOf`: `orderBy: { id: "asc" }` is not modelled. The images are
    visited in the order the rows are listed, because the string collation of ids is not
    modelled.
- URL encoding of the `next` parameter, and the resolution of a redirect target against
  the request URL, are left out. The model keeps the target as the raw string.
- `Middleware.Matched` reads the matcher's negative lookahead as a test on the text after
  the leading "/". How Next.js compiles matchers beyond that is not modelled.
- The image backfill step (`upsertArtworkImageEmbedding`) exists only as commented-out
  code. It is the per-id oracle `imageAction`, and the table it would write is the
  separate set `Store.imageBacklog`.
- The prepared QR target URL (`NEXT_PUBLIC_QR_TARGET_BASE`, `?aid=`) is not modelled.
  Only whether rendering and upload succeed matters to the counters and the stored URL.
- The `process.exit` and `prisma.$disconnect` calls, and the catch of `run()`, are left
  out. A missing configuration is the `MissingEnvExit` result.
