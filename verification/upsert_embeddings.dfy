/**
 * The embedding upsert service (lib/upsert-embeddings.ts): whitespace normalisation, the
 * text upserts for artworks and artists, and the image upserts. The canonical-text read is
 * the lookup of the record in the entity rows; the text provider is the `respond` oracle of
 * EmbeddingText, the image provider (`embedImageFromUrl`) an oracle `embedImage`; `accepts`
 * says whether the database accepts a vector in the INSERT (a failed statement rejects);
 * `now` is the value of `NOW()`.
 */
module UpsertEmbeddings {
  import opened Wrappers
  import opened Strings
  import opened Seqs
  import opened Records
  import opened Tables
  import opened EmbeddingText
  import CanonicalArtwork
  import CanonicalArtist

  /** Every whitespace character is a plain space. */
  predicate OnlySpaces(s: string) {
    forall i :: 0 <= i < |s| && IsWhitespace(s[i]) ==> s[i] == ' '
  }

  /** No two whitespace characters are adjacent. */
  ghost predicate NoAdjacentWhitespace(s: string) {
    forall i, j :: 0 <= i < j < |s| && j == i + 1 ==> !(IsWhitespace(s[i]) && IsWhitespace(s[j]))
  }

  /** What `normalize` promises: trimmed, and every whitespace run reduced to one space. */
  ghost predicate IsNormalized(s: string) {
    IsTrimmed(s) && OnlySpaces(s) && NoAdjacentWhitespace(s)
  }

  /** `s.replace(/\s+/g, " ")`: each maximal whitespace run becomes one space. */
  function Collapse(s: string): (r: string)
    ensures |r| <= |s|
    ensures r == [] <==> s == []
    ensures s != [] ==> (IsWhitespace(r[0]) <==> IsWhitespace(s[0]))
    ensures OnlySpaces(r) && NoAdjacentWhitespace(r)
    decreases |s|
  {
    if s == [] then []
    else if IsWhitespace(s[0]) then
      var t := TrimStart(s);
      assert |t| < |s|;
      [' '] + Collapse(t)
    else [s[0]] + Collapse(s[1..])
  }

  /** `normalize`: `null` and `undefined` become "", then runs collapse and the ends are trimmed. */
  function Normalize(text: Option<string>): (r: string)
    ensures text.None? ==> r == ""
    ensures IsNormalized(r)
  {
    var c := Collapse(if text.Some? then text.value else "");
    var r := Trim(c);
    TrimIsSlice(c);
    SliceSpacing(c, |c| - |TrimStart(c)|, |c| - |TrimStart(c)| + |r|);
    r
  }

  /** Slicing keeps the spacing properties. */
  lemma SliceSpacing(s: string, i: nat, j: nat)
    requires i <= j <= |s|
    requires OnlySpaces(s) && NoAdjacentWhitespace(s)
    ensures OnlySpaces(s[i..j]) && NoAdjacentWhitespace(s[i..j])
  {
    var r := s[i..j];
    forall k | 0 <= k < |r| ensures r[k] == s[i + k] { }
  }

  /** A non-empty run of non-whitespace characters. */
  predicate IsWord(w: string) {
    w != [] && forall k :: 0 <= k < |w| ==> !IsWhitespace(w[k])
  }

  /** The maximal non-whitespace prefix of `s`. */
  function TakeWord(s: string): (w: string)
    ensures |w| <= |s| && w == s[..|w|]
    ensures forall k :: 0 <= k < |w| ==> !IsWhitespace(w[k])
    ensures |w| == |s| || IsWhitespace(s[|w|])
  {
    if s == [] || IsWhitespace(s[0]) then [] else [s[0]] + TakeWord(s[1..])
  }

  /** The words of `s`: its maximal runs of non-whitespace characters, in order. */
  function Words(s: string): (ws: seq<string>)
    ensures ws != [] ==> ws[0] != []
    decreases |s|
  {
    var t := TrimStart(s);
    if t == [] then []
    else
      var w := TakeWord(t);
      assert |w| >= 1;
      [w] + Words(t[|w|..])
  }

  lemma TrimStartIdempotent(s: string)
    ensures TrimStart(TrimStart(s)) == TrimStart(s)
  {
  }

  /** Collapsing and trimming the front commute. */
  lemma CollapseTrimStart(s: string)
    ensures TrimStart(Collapse(s)) == Collapse(TrimStart(s))
  {
    if s != [] && IsWhitespace(s[0]) {
      var t := TrimStart(s);
      TrimStartIdempotent(s);
      assert Collapse(s) == [' '] + Collapse(t);
      assert TrimStart(Collapse(s)) == TrimStart(Collapse(t));
    }
  }

  /** A whitespace-free prefix passes through `Collapse` unchanged. */
  lemma {:induction false} CollapseWord(w: string, rest: string)
    requires forall k :: 0 <= k < |w| ==> !IsWhitespace(w[k])
    ensures Collapse(w + rest) == w + Collapse(rest)
  {
    if w == [] {
      assert w + rest == rest;
    } else {
      assert (w + rest)[1..] == w[1..] + rest;
      CollapseWord(w[1..], rest);
      assert [w[0]] + (w[1..] + Collapse(rest)) == w + Collapse(rest);
    }
  }

  /** Trailing whitespace is trimmed away. */
  lemma {:induction false} TrimEndWhitespaceTail(x: string, y: string)
    requires forall k :: 0 <= k < |y| ==> IsWhitespace(y[k])
    ensures TrimEnd(x + y) == TrimEnd(x)
    decreases |y|
  {
    if y == [] {
      assert x + y == x;
    } else {
      assert (x + y)[..|x + y| - 1] == x + y[..|y| - 1];
      TrimEndWhitespaceTail(x, y[..|y| - 1]);
    }
  }

  /** Trimming the end of `x + y` leaves `x` alone when `y` begins with a non-whitespace character. */
  lemma {:induction false} TrimEndKeepsHead(x: string, y: string)
    requires y != [] && !IsWhitespace(y[0])
    ensures TrimEnd(x + y) == x + TrimEnd(y)
    decreases |y|
  {
    if IsWhitespace(y[|y| - 1]) {
      assert (x + y)[..|x + y| - 1] == x + y[..|y| - 1];
      TrimEndKeepsHead(x, y[..|y| - 1]);
    }
  }

  lemma CollapseSpace(s: string)
    requires s != [] && IsWhitespace(s[0])
    ensures Collapse(s) == [' '] + Collapse(TrimStart(s))
  {
  }

  lemma WordsOfWord(t: string)
    requires t != [] && !IsWhitespace(t[0])
    ensures Words(t) == [TakeWord(t)] + Words(t[|TakeWord(t)|..])
  {
    assert TrimStart(t) == t;
  }

  lemma WordsSkipsSpace(s: string)
    ensures Words(s) == Words(TrimStart(s))
  {
    TrimStartIdempotent(s);
  }

  /** The word that starts `t`, and what follows it. */
  function RestAfterWord(t: string): string {
    t[|TakeWord(t)|..]
  }

  lemma ConcatAssoc(a: string, b: string, c: string)
    ensures a + (b + c) == (a + b) + c
  {
  }

  lemma WordSplit(t: string)
    ensures t == TakeWord(t) + RestAfterWord(t)
  {
    var k := |TakeWord(t)|;
    assert t[..k] + t[k..] == t;
  }

  /** Collapsing a string of whitespace alone gives one space. */
  lemma CollapseBlank(rest: string)
    requires rest != [] && TrimStart(rest) == []
    ensures Collapse(rest) == " "
  {
    CollapseSpace(rest);
  }

  /** A word followed by nothing but whitespace collapses and end-trims to the word. */
  lemma CollapsedWordThenBlank(w: string, rest: string)
    requires forall k :: 0 <= k < |w| ==> !IsWhitespace(w[k])
    requires TrimStart(rest) == []
    ensures TrimEnd(Collapse(w + rest)) == TrimEnd(w)
  {
    CollapseWord(w, rest);
    if rest == [] {
      assert w + Collapse(rest) == w;
    } else {
      CollapseBlank(rest);
      TrimEndWhitespaceTail(w, " ");
    }
  }

  /** The case of `CollapsedWords` where `t` holds a single word. */
  lemma CollapsedLastWord(t: string)
    requires t != [] && !IsWhitespace(t[0])
    requires TrimStart(RestAfterWord(t)) == []
    ensures TrimEnd(Collapse(t)) == Join(Words(t), " ")
  {
    var w := TakeWord(t);
    var rest := RestAfterWord(t);
    WordSplit(t);
    CollapsedWordThenBlank(w, rest);
    WordsOfWord(t);
    WordsSkipsSpace(rest);
    assert Words(t) == [w];
  }

  /** The case of `CollapsedWords` where more words follow the first, given the claim for the rest. */
  lemma CollapsedMoreWords(t: string)
    requires t != [] && !IsWhitespace(t[0])
    requires TrimStart(RestAfterWord(t)) != []
    requires var u := TrimStart(RestAfterWord(t)); TrimEnd(Collapse(u)) == Join(Words(u), " ")
    ensures TrimEnd(Collapse(t)) == Join(Words(t), " ")
  {
    var w := TakeWord(t);
    var rest := RestAfterWord(t);
    var u := TrimStart(rest);
    WordSplit(t);
    CollapseWord(w, rest);
    WordsOfWord(t);
    WordsSkipsSpace(rest);
    CollapseSpace(rest);
    var cu := Collapse(u);
    assert cu != [] && !IsWhitespace(cu[0]);
    calc {
      Collapse(t);
      Collapse(w + rest);
      w + Collapse(rest);
      w + (" " + cu);
      { ConcatAssoc(w, " ", cu); }
      (w + " ") + cu;
    }
    TrimEndKeepsHead(w + " ", cu);
    var wu := Words(u);
    assert wu != [];
    assert ([w] + wu)[1..] == wu;
    assert Join([w] + wu, " ") == w + " " + Join(wu, " ");
  }

  /** The end-trimmed collapse of a string that starts with a word is its words joined by single spaces. */
  lemma {:induction false} CollapsedWords(t: string)
    requires t == [] || !IsWhitespace(t[0])
    ensures TrimEnd(Collapse(t)) == Join(Words(t), " ")
    decreases |t|
  {
    if t != [] {
      var u := TrimStart(RestAfterWord(t));
      if u == [] {
        CollapsedLastWord(t);
      } else {
        CollapsedWords(u);
        CollapsedMoreWords(t);
      }
    }
  }

  /** `normalize` is joining the words of its input with single spaces. */
  lemma NormalizeIsWordsJoined(s: string)
    ensures Normalize(Some(s)) == Join(Words(s), " ")
  {
    var t := TrimStart(s);
    CollapseTrimStart(s);
    CollapsedWords(t);
    TrimStartIdempotent(s);
    assert Words(s) == Words(t);
  }

  /** A normalized string is a fixed point of `Collapse`. */
  lemma {:induction false} CollapseNormalized(s: string)
    requires OnlySpaces(s) && NoAdjacentWhitespace(s)
    ensures Collapse(s) == s
  {
    if s != [] {
      assert OnlySpaces(s[1..]) && NoAdjacentWhitespace(s[1..]);
      CollapseNormalized(s[1..]);
      if IsWhitespace(s[0]) {
        assert TrimStart(s) == s[1..];
      }
    }
  }

  /** `normalize` is idempotent. */
  lemma NormalizeIdempotent(text: Option<string>)
    ensures Normalize(Some(Normalize(text))) == Normalize(text)
  {
    var r := Normalize(text);
    CollapseNormalized(r);
    TrimIdempotent(r);
  }

  /** `normalize` gives "" exactly for strings made only of whitespace. */
  lemma NormalizeEmptyIff(s: string)
    ensures Normalize(Some(s)) == "" <==> forall k :: 0 <= k < |s| ==> IsWhitespace(s[k])
  {
    NormalizeIsWordsJoined(s);
    var ws := Words(s);
    if ws != [] {
      JoinEnds(ws, " ");
      var t := TrimStart(s);
      assert t != [];
      TrimStartSlice(s);
      assert t[0] == s[|s| - |t|];
    } else {
      assert TrimStart(s) == [];
    }
  }

  /** A normalized string is a single line: the canonicalisers' "\n" separators became spaces. */
  lemma NormalizedSingleLine(s: string)
    requires IsNormalized(s)
    ensures forall i :: 0 <= i < |s| ==> !IsLineTerminator(s[i])
  {
  }

  /** The canonical text of an existing artwork or artist never normalizes to "". */
  lemma NormalizeStartsWithWord(s: string)
    requires s != [] && !IsWhitespace(s[0])
    ensures Normalize(Some(s)) != ""
  {
    NormalizeEmptyIff(s);
  }

  lemma ArtworkTextNotBlank(art: Artwork)
    ensures CanonicalArtwork.BuildArtworkCanonicalText(Some(art)).Ok?
    ensures Normalize(Some(CanonicalArtwork.BuildArtworkCanonicalText(Some(art)).value)) != ""
  {
    CanonicalArtwork.ArtworkTextEnds(art);
    var text := CanonicalArtwork.BuildArtworkCanonicalText(Some(art)).value;
    assert text[0] == ("Title: " + art.title)[0] == 'T';
    NormalizeStartsWithWord(text);
  }

  lemma ArtistTextNotBlank(a: Artist)
    ensures CanonicalArtist.BuildArtistCanonicalText(Some(a)).Ok?
    ensures Normalize(Some(CanonicalArtist.BuildArtistCanonicalText(Some(a)).value)) != ""
  {
    CanonicalArtist.ArtistTextShape(a);
    var text := CanonicalArtist.BuildArtistCanonicalText(Some(a)).value;
    assert text[0] == 'N';
    NormalizeStartsWithWord(text);
  }

  /** The canonical text of artwork `id`, or the "Artwork not found" error. */
  function ArtworkCanonical(artworks: seq<Artwork>, id: Id): Result<string> {
    CanonicalArtwork.BuildArtworkCanonicalText(FindArtwork(artworks, id))
  }

  /** The canonical text of artist `id`, or the "Artist not found" error. */
  function ArtistCanonical(artists: seq<Artist>, id: Id): Result<string> {
    CanonicalArtist.BuildArtistCanonicalText(FindArtist(artists, id))
  }

  /** What a text upsert did: how it settled, what it sent to the provider, and the table after it. */
  datatype TextUpsert = TextUpsert(outcome: Outcome, sent: Option<string>, table: map<Id, TextRow>)

  /**
   * The body shared by `upsertArtworkTextEmbedding` and `upsertArtistTextEmbedding`, given
   * the canonical text `raw`: normalize it, return before the provider when it is empty,
   * embed it, and upsert (model, text, vector) under `key`.
   */
  function TextUpsertStep(raw: Result<string>, key: Id, table: map<Id, TextRow>,
                          respond: string -> Reply, accepts: Vector -> bool, now: int): (u: TextUpsert)
    ensures raw.Err? ==> u == TextUpsert(Failure(raw.error), None, table)
    ensures raw.Ok? && Normalize(Some(raw.value)) == "" ==> u == TextUpsert(Success, None, table)
    ensures raw.Ok? && Normalize(Some(raw.value)) != "" ==> u.sent == Some(PrepareInput(Normalize(Some(raw.value))))
    ensures u.outcome.Failure? ==> u.table == table
    ensures u.outcome.Success? && u.sent.Some? ==>
      var v := EmbedText(Normalize(Some(raw.value)), respond);
      && v.Ok? && accepts(v.value)
      && u.table == UpsertText(table, key, TEXT_EMBEDDING_MODEL, Normalize(Some(raw.value)), v.value, now)
    ensures u.outcome.Failure? && raw.Ok? ==>
      var v := EmbedText(Normalize(Some(raw.value)), respond);
      u.outcome.error == if v.Err? then v.error else StoreWriteError
  {
    if raw.Err? then TextUpsert(Failure(raw.error), None, table)
    else
      var text := Normalize(Some(raw.value));
      if text == "" then TextUpsert(Success, None, table)
      else
        var v := EmbedText(text, respond);
        if v.Err? then TextUpsert(Failure(v.error), Some(PrepareInput(text)), table)
        else if !accepts(v.value) then TextUpsert(Failure(StoreWriteError), Some(PrepareInput(text)), table)
        else TextUpsert(Success, Some(PrepareInput(text)), UpsertText(table, key, TEXT_EMBEDDING_MODEL, text, v.value, now))
  }

  /**
   * Once the text is non-empty, the upsert resolves exactly when the provider answers with a
   * vector and the INSERT is accepted; it then writes that vector under `key`.
   */
  lemma TextUpsertSucceedsIff(raw: Result<string>, key: Id, table: map<Id, TextRow>,
                              respond: string -> Reply, accepts: Vector -> bool, now: int)
    requires raw.Ok? && Normalize(Some(raw.value)) != ""
    ensures var u := TextUpsertStep(raw, key, table, respond, accepts, now);
      var v := EmbedText(Normalize(Some(raw.value)), respond);
      && (u.outcome == Success <==> v.Ok? && accepts(v.value))
      && (v.Ok? && accepts(v.value) ==>
            u.table == UpsertText(table, key, TEXT_EMBEDDING_MODEL, Normalize(Some(raw.value)), v.value, now))
  {
  }

  /** Whether a text upsert resolves does not depend on what the table held. */
  lemma TextOutcomeIgnoresTable(raw: Result<string>, key: Id, t1: map<Id, TextRow>, t2: map<Id, TextRow>,
                                respond: string -> Reply, accepts: Vector -> bool, now: int)
    ensures TextUpsertStep(raw, key, t1, respond, accepts, now).outcome == TextUpsertStep(raw, key, t2, respond, accepts, now).outcome
    ensures TextUpsertStep(raw, key, t1, respond, accepts, now).sent == TextUpsertStep(raw, key, t2, respond, accepts, now).sent
  {
  }

  /** The keys after a text upsert: the old ones, and `key` once the upsert has sent and resolved. */
  lemma TextStepKeys(raw: Result<string>, key: Id, table: map<Id, TextRow>,
                     respond: string -> Reply, accepts: Vector -> bool, now: int)
    ensures var u := TextUpsertStep(raw, key, table, respond, accepts, now);
      forall k :: k in u.table <==> k in table || (k == key && u.outcome.Success? && u.sent.Some?)
  {
  }

  /**
   * A successful text upsert leaves exactly one row under `key`, holding the text model, the
   * normalized single-line text and the vector; every other key is untouched.
   */
  lemma TextUpsertSucceeds(raw: Result<string>, key: Id, table: map<Id, TextRow>,
                           respond: string -> Reply, accepts: Vector -> bool, now: int)
    requires raw.Ok? && Normalize(Some(raw.value)) != ""
    requires TextUpsertStep(raw, key, table, respond, accepts, now).outcome.Success?
    ensures var t := TextUpsertStep(raw, key, table, respond, accepts, now).table;
      && key in t && t[key].model == TEXT_EMBEDDING_MODEL
      && t[key].text == Some(Normalize(Some(raw.value)))
      && t[key].embedding == EmbedText(Normalize(Some(raw.value)), respond).value
      && t[key].updatedAt == now
      && t == table[key := t[key]]
      && forall i :: 0 <= i < |t[key].text.value| ==> !IsLineTerminator(t[key].text.value[i])
  {
    NormalizedSingleLine(Normalize(Some(raw.value)));
  }

  /** For an existing artwork the empty-text return is never taken: the provider is always asked. */
  lemma ArtworkUpsertAsksProvider(artworks: seq<Artwork>, id: Id, table: map<Id, TextRow>,
                                  respond: string -> Reply, accepts: Vector -> bool, now: int)
    ensures var u := TextUpsertStep(ArtworkCanonical(artworks, id), id, table, respond, accepts, now);
      (u.sent.Some? <==> FindArtwork(artworks, id).Some?)
      && (FindArtwork(artworks, id).None? ==> u == TextUpsert(Failure(NotFound("Artwork not found")), None, table))
  {
    var art := FindArtwork(artworks, id);
    if art.Some? {
      ArtworkTextNotBlank(art.value);
    }
  }

  /** For an existing artist, even one with an empty name and no bio, the provider is always asked. */
  lemma ArtistUpsertAsksProvider(artists: seq<Artist>, id: Id, table: map<Id, TextRow>,
                                 respond: string -> Reply, accepts: Vector -> bool, now: int)
    ensures var u := TextUpsertStep(ArtistCanonical(artists, id), id, table, respond, accepts, now);
      (u.sent.Some? <==> FindArtist(artists, id).Some?)
      && (FindArtist(artists, id).None? ==> u == TextUpsert(Failure(NotFound("Artist not found")), None, table))
  {
    var a := FindArtist(artists, id);
    if a.Some? {
      ArtistTextNotBlank(a.value);
    }
  }

  /** The two text-embedding tables. */
  datatype TextTable = ArtworkTextTable | ArtistTextTable

  function TableOf(store: Store, which: TextTable): map<Id, TextRow>
    reads store
  {
    if which == ArtworkTextTable then store.artworkText else store.artistText
  }

  /**
   * The body shared by the two text upserts, once the canonical text `raw` is read: every
   * early return leaves the store alone, and the single write replaces the `which` table.
   */
  method UpsertCanonicalText(store: Store, which: TextTable, raw: Result<string>, key: Id,
                             respond: string -> Reply, accepts: Vector -> bool, now: int)
    returns (outcome: Outcome, sent: Option<string>)
    modifies store
    ensures TextUpsert(outcome, sent, TableOf(store, which))
      == TextUpsertStep(raw, key, old(TableOf(store, which)), respond, accepts, now)
    ensures which == ArtworkTextTable ==> store.artistText == old(store.artistText)
    ensures which == ArtistTextTable ==> store.artworkText == old(store.artworkText)
    ensures store.imageEmbeddings == old(store.imageEmbeddings) && store.imageBacklog == old(store.imageBacklog)
  {
    if raw.Err? {
      return Failure(raw.error), None;
    }
    var text := Normalize(Some(raw.value));
    if text == "" {
      return Success, None;
    }
    sent := Some(PrepareInput(text));
    var v := EmbedText(text, respond);
    if v.Err? {
      return Failure(v.error), sent;
    }
    if !accepts(v.value) {
      return Failure(StoreWriteError), sent;
    }
    if which == ArtworkTextTable {
      store.artworkText := UpsertText(store.artworkText, key, TEXT_EMBEDDING_MODEL, text, v.value, now);
    } else {
      store.artistText := UpsertText(store.artistText, key, TEXT_EMBEDDING_MODEL, text, v.value, now);
    }
    outcome := Success;
  }

  /** `upsertArtworkTextEmbedding(artworkId)`; returns how it settled and what it sent to the provider. */
  method UpsertArtworkTextEmbedding(store: Store, artworks: seq<Artwork>, artworkId: Id,
                                    respond: string -> Reply, accepts: Vector -> bool, now: int)
    returns (outcome: Outcome, sent: Option<string>)
    modifies store
    ensures TextUpsert(outcome, sent, store.artworkText)
      == TextUpsertStep(ArtworkCanonical(artworks, artworkId), artworkId, old(store.artworkText), respond, accepts, now)
    ensures store.artistText == old(store.artistText) && store.imageEmbeddings == old(store.imageEmbeddings)
    ensures store.imageBacklog == old(store.imageBacklog)
  {
    var raw := ArtworkCanonical(artworks, artworkId);
    outcome, sent := UpsertCanonicalText(store, ArtworkTextTable, raw, artworkId, respond, accepts, now);
  }

  /** `upsertArtistTextEmbedding(artistId)` of lib/upsert-embeddings.ts. */
  method UpsertArtistTextEmbedding(store: Store, artists: seq<Artist>, artistId: Id,
                                   respond: string -> Reply, accepts: Vector -> bool, now: int)
    returns (outcome: Outcome, sent: Option<string>)
    modifies store
    ensures TextUpsert(outcome, sent, store.artistText)
      == TextUpsertStep(ArtistCanonical(artists, artistId), artistId, old(store.artistText), respond, accepts, now)
    ensures store.artworkText == old(store.artworkText) && store.imageEmbeddings == old(store.imageEmbeddings)
    ensures store.imageBacklog == old(store.imageBacklog)
  {
    var raw := ArtistCanonical(artists, artistId);
    outcome, sent := UpsertCanonicalText(store, ArtistTextTable, raw, artistId, respond, accepts, now);
  }

  /** The image embedding model of lib/embeddings/image.ts. */
  const IMAGE_EMBEDDING_MODEL := "clip-vit-base-patch32"

  /** The image path reaches the INSERT: a non-empty URL whose embedding succeeded with a non-empty vector. */
  predicate ReachesImageInsert(url: string, embedImage: string -> Result<Vector>) {
    url != "" && embedImage(url).Ok? && embedImage(url).value != []
  }

  /** What a single-image upsert did: how it settled and the image table after it. */
  datatype ImageUpsert = ImageUpsert(outcome: Outcome, table: map<Id, ImageRow>)

  /**
   * `upsertSingleArtworkImageEmbedding`: an empty URL, a provider failure (logged and
   * swallowed) or an empty vector resolve without writing; otherwise the row of `imageId`
   * is upserted, and only a failed INSERT rejects.
   */
  function SingleImageStep(table: map<Id, ImageRow>, artworkId: Id, imageId: Id, url: string,
                           embedImage: string -> Result<Vector>, accepts: Vector -> bool, now: int): (u: ImageUpsert)
    ensures !ReachesImageInsert(url, embedImage) ==> u == ImageUpsert(Success, table)
    ensures ReachesImageInsert(url, embedImage) && !accepts(embedImage(url).value) ==> u == ImageUpsert(Failure(StoreWriteError), table)
    ensures ReachesImageInsert(url, embedImage) && accepts(embedImage(url).value) ==>
      && u.outcome == Success
      && imageId in u.table && u.table == table[imageId := u.table[imageId]]
      && u.table[imageId].model == IMAGE_EMBEDDING_MODEL && u.table[imageId].embedding == embedImage(url).value
      && u.table[imageId].artworkId == (if imageId in table then table[imageId].artworkId else artworkId)
  {
    if url == "" then ImageUpsert(Success, table)
    else
      var v := embedImage(url);
      if v.Err? then ImageUpsert(Success, table)
      else if v.value == [] then ImageUpsert(Success, table)
      else if !accepts(v.value) then ImageUpsert(Failure(StoreWriteError), table)
      else ImageUpsert(Success, UpsertImage(table, imageId, artworkId, IMAGE_EMBEDDING_MODEL, v.value, now))
  }

  /** `upsertSingleArtworkImageEmbedding(artworkId, artworkImageId, imageUrl)`. */
  method UpsertSingleArtworkImageEmbedding(store: Store, artworkId: Id, imageId: Id, url: string,
                                           embedImage: string -> Result<Vector>, accepts: Vector -> bool, now: int)
    returns (outcome: Outcome)
    modifies store
    ensures ImageUpsert(outcome, store.imageEmbeddings)
      == SingleImageStep(old(store.imageEmbeddings), artworkId, imageId, url, embedImage, accepts, now)
    ensures store.artworkText == old(store.artworkText) && store.artistText == old(store.artistText)
    ensures store.imageBacklog == old(store.imageBacklog)
  {
    if url == "" {
      return Success;
    }
    var v := embedImage(url);
    if v.Err? {
      return Success;
    }
    if |v.value| == 0 {
      return Success;
    }
    if !accepts(v.value) {
      return Failure(StoreWriteError);
    }
    store.imageEmbeddings := UpsertImage(store.imageEmbeddings, imageId, artworkId, IMAGE_EMBEDDING_MODEL, v.value, now);
    outcome := Success;
  }

  /** `findMany({ where: { artworkId }, orderBy: { id: "asc" } })`: the artwork's images, in the order the rows are listed. */
  function ImagesOf(images: seq<ArtworkImage>, artworkId: Id): (r: seq<ArtworkImage>)
    ensures forall i :: 0 <= i < |r| ==> r[i] in images && r[i].artworkId == artworkId
    ensures forall i :: 0 <= i < |images| && images[i].artworkId == artworkId ==> images[i] in r
  {
    Filter(images, (img: ArtworkImage) => img.artworkId == artworkId)
  }

  /**
   * The image table after the `for ... of` loop of `upsertAllArtworkImageEmbeddings` over
   * `images`: each image with a URL goes through the single-image upsert, and a rejection is
   * caught, so it leaves the table as it was and the loop goes on. Keys that are not the id
   * of a visited image are untouched.
   */
  function AllImagesTable(images: seq<ArtworkImage>, artworkId: Id, table: map<Id, ImageRow>,
                          embedImage: string -> Result<Vector>, accepts: Vector -> bool, now: int): (t: map<Id, ImageRow>)
    ensures forall k :: (forall i :: 0 <= i < |images| ==> images[i].id != k) ==>
      (k in t <==> k in table) && (k in t ==> t[k] == table[k])
  {
    if images == [] then table
    else
      var before := AllImagesTable(images[..|images| - 1], artworkId, table, embedImage, accepts, now);
      var img := images[|images| - 1];
      if img.url != "" then SingleImageStep(before, artworkId, img.id, img.url, embedImage, accepts, now).table
      else before
  }

  /** Whether the image at `img` gets its row written by the loop. */
  predicate ImageWritten(img: ArtworkImage, embedImage: string -> Result<Vector>, accepts: Vector -> bool) {
    ReachesImageInsert(img.url, embedImage) && accepts(embedImage(img.url).value)
  }

  /** A single-image upsert touches no other image's row. */
  lemma SingleImageKeepsOthers(table: map<Id, ImageRow>, artworkId: Id, imageId: Id, url: string,
                               embedImage: string -> Result<Vector>, accepts: Vector -> bool, now: int, k: Id)
    requires k != imageId
    ensures var t := SingleImageStep(table, artworkId, imageId, url, embedImage, accepts, now).table;
      (k in t <==> k in table) && (k in t ==> t[k] == table[k])
  {
  }

  /** The row of `k` after the loop, when the images from index `from` on do not carry id `k`. */
  lemma {:induction false} AllImagesUntouched(images: seq<ArtworkImage>, artworkId: Id, table: map<Id, ImageRow>,
                                              embedImage: string -> Result<Vector>, accepts: Vector -> bool, now: int,
                                              from: nat, k: Id)
    requires from <= |images|
    requires forall j :: from <= j < |images| ==> images[j].id != k
    ensures var t := AllImagesTable(images, artworkId, table, embedImage, accepts, now);
      var s := AllImagesTable(images[..from], artworkId, table, embedImage, accepts, now);
      (k in t <==> k in s) && (k in t ==> t[k] == s[k])
    decreases |images|
  {
    if from < |images| {
      var n := |images|;
      var init := images[..n - 1];
      var img := images[n - 1];
      assert init[..from] == images[..from];
      AllImagesUntouched(init, artworkId, table, embedImage, accepts, now, from, k);
      var before := AllImagesTable(init, artworkId, table, embedImage, accepts, now);
      assert AllImagesTable(images, artworkId, table, embedImage, accepts, now)
        == if img.url != "" then SingleImageStep(before, artworkId, img.id, img.url, embedImage, accepts, now).table
           else before;
      SingleImageKeepsOthers(before, artworkId, img.id, img.url, embedImage, accepts, now, k);
    } else {
      assert images[..from] == images;
    }
  }

  /**
   * Failure isolation, for an image that gets written: with distinct image ids, its row after
   * the loop holds the image model and its own vector (under the artwork id first stored for
   * it), whatever happened to the images before and after it.
   */
  lemma AllImagesWritesRow(images: seq<ArtworkImage>, artworkId: Id, table: map<Id, ImageRow>,
                           embedImage: string -> Result<Vector>, accepts: Vector -> bool, now: int, i: nat)
    requires i < |images|
    requires forall a, b :: 0 <= a < b < |images| ==> images[a].id != images[b].id
    requires ImageWritten(images[i], embedImage, accepts)
    ensures var t := AllImagesTable(images, artworkId, table, embedImage, accepts, now);
      var img := images[i];
      && img.id in t && t[img.id].model == IMAGE_EMBEDDING_MODEL
      && t[img.id].embedding == embedImage(img.url).value && t[img.id].updatedAt == now
      && t[img.id].artworkId == (if img.id in table then table[img.id].artworkId else artworkId)
  {
    var img := images[i];
    var prefix := images[..i + 1];
    AllImagesUntouched(images, artworkId, table, embedImage, accepts, now, i + 1, img.id);
    assert prefix[..i] == images[..i];
    AllImagesUntouched(images[..i], artworkId, table, embedImage, accepts, now, 0, img.id);
    assert images[..i][..0] == [];
  }

  /**
   * Failure isolation, for an image that does not get written (no URL, a failing or empty
   * embedding, or a rejected INSERT): with distinct image ids, its row is what the table held.
   */
  lemma AllImagesSkipsRow(images: seq<ArtworkImage>, artworkId: Id, table: map<Id, ImageRow>,
                          embedImage: string -> Result<Vector>, accepts: Vector -> bool, now: int, i: nat)
    requires i < |images|
    requires forall a, b :: 0 <= a < b < |images| ==> images[a].id != images[b].id
    requires !ImageWritten(images[i], embedImage, accepts)
    ensures var t := AllImagesTable(images, artworkId, table, embedImage, accepts, now);
      var id := images[i].id;
      (id in t <==> id in table) && (id in t ==> t[id] == table[id])
  {
    var img := images[i];
    var prefix := images[..i + 1];
    AllImagesUntouched(images, artworkId, table, embedImage, accepts, now, i + 1, img.id);
    assert prefix[..i] == images[..i];
    AllImagesUntouched(images[..i], artworkId, table, embedImage, accepts, now, 0, img.id);
    assert images[..i][..0] == [];
  }

  /** One more image of the loop: the table takes one single-image upsert, or none without a URL. */
  lemma AllImagesStep(rows: seq<ArtworkImage>, k: nat, artworkId: Id, table: map<Id, ImageRow>,
                      embedImage: string -> Result<Vector>, accepts: Vector -> bool, now: int)
    requires k < |rows|
    ensures var before := AllImagesTable(rows[..k], artworkId, table, embedImage, accepts, now);
      AllImagesTable(rows[..k + 1], artworkId, table, embedImage, accepts, now)
        == if rows[k].url != "" then SingleImageStep(before, artworkId, rows[k].id, rows[k].url, embedImage, accepts, now).table
           else before
  {
    assert rows[..k + 1][..k] == rows[..k];
  }

  /**
   * `upsertAllArtworkImageEmbeddings(artworkId)`: visits the artwork's images in query order,
   * skips those without a URL, and catches every rejection, so it always resolves.
   */
  method UpsertAllArtworkImageEmbeddings(store: Store, images: seq<ArtworkImage>, artworkId: Id,
                                         embedImage: string -> Result<Vector>, accepts: Vector -> bool, now: int)
    modifies store
    ensures store.imageEmbeddings
      == AllImagesTable(ImagesOf(images, artworkId), artworkId, old(store.imageEmbeddings), embedImage, accepts, now)
    ensures store.artworkText == old(store.artworkText) && store.artistText == old(store.artistText)
    ensures store.imageBacklog == old(store.imageBacklog)
  {
    var rows := ImagesOf(images, artworkId);
    var k := 0;
    while k < |rows|
      invariant 0 <= k <= |rows|
      invariant store.imageEmbeddings
        == AllImagesTable(rows[..k], artworkId, old(store.imageEmbeddings), embedImage, accepts, now)
      invariant store.artworkText == old(store.artworkText) && store.artistText == old(store.artistText)
      invariant store.imageBacklog == old(store.imageBacklog)
    {
      var img := rows[k];
      AllImagesStep(rows, k, artworkId, old(store.imageEmbeddings), embedImage, accepts, now);
      if img.url != "" {
        var outcome := UpsertSingleArtworkImageEmbedding(store, artworkId, img.id, img.url, embedImage, accepts, now);
      }
      k := k + 1;
    }
    assert rows[..k] == rows;
  }
}
