/**
 * The QR backfill job (scripts/backfill-qr.ts): read `--key=value` options, pick the
 * artworks to process (the explicit `--ids`, else the oldest artworks without a QR code),
 * and give each one the public URL of its QR image "qr/artworks/<id>.png", counting how
 * many rows were updated and how many attempts failed.
 */
module BackfillQr {
  import opened Wrappers
  import opened Strings
  import opened Seqs
  import opened Records

  /* ------------------------------ options ------------------------------ */

  /** What `parseArgs` stores for a key: the text after "=", or `true` for a bare flag. */
  datatype ArgValue = Text(text: string) | Flag

  datatype Arg = Arg(key: string, value: ArgValue)

  /** Position of the first `c` in `s`. */
  function IndexOf(s: string, c: char): (r: Option<nat>)
    ensures r.Some? ==> r.value < |s| && s[r.value] == c && c !in s[..r.value]
    ensures r.None? ==> c !in s
  {
    if s == [] then None
    else if s[0] == c then Some(0)
    else match IndexOf(s[1..], c)
      case None => None
      case Some(i) =>
        assert s[..i + 1] == [s[0]] + s[1..][..i];
        Some(i + 1)
  }

  /**
   * One argument: `/^--([^=]+)=(.*)$/` splits "--k=v" at the first "=" when k is non-empty
   * and v holds no line terminator (`.` does not match one); any other argument starting
   * with "--" is a flag named by everything after the dashes; the rest are ignored.
   */
  function ParseArg(a: string): (r: Option<Arg>)
    ensures r.Some? <==> StartsWith(a, "--")
  {
    if !StartsWith(a, "--") then None
    else
      var body := a[2..];
      match IndexOf(body, '=')
      case Some(e) =>
        if e > 0 && forall j :: e < j < |body| ==> !IsLineTerminator(body[j]) then
          Some(Arg(body[..e], Text(body[e + 1..])))
        else Some(Arg(body, Flag))
      case None => Some(Arg(body, Flag))
  }

  /** The text an argument was parsed from, given back. */
  function Unparse(arg: Arg): string {
    match arg.value
    case Text(v) => "--" + arg.key + "=" + v
    case Flag => "--" + arg.key
  }

  /** Parsing loses nothing: the argument is its key and value put back together, and a text key is non-empty and free of "=". */
  lemma ParseArgRoundTrip(a: string)
    requires ParseArg(a).Some?
    ensures Unparse(ParseArg(a).value) == a
    ensures ParseArg(a).value.value.Text? ==> ParseArg(a).value.key != "" && '=' !in ParseArg(a).value.key
  {
    var body := a[2..];
    assert a == "--" + body;
    var e := IndexOf(body, '=');
    if e.Some? {
      assert body == body[..e.value] + "=" + body[e.value + 1..];
    }
  }

  /** "--k=v" maps k to v, even when v itself holds "=". */
  lemma ParseKeyValue(k: string, v: string)
    requires k != "" && '=' !in k
    requires forall j :: 0 <= j < |v| ==> !IsLineTerminator(v[j])
    ensures ParseArg("--" + k + "=" + v) == Some(Arg(k, Text(v)))
  {
    var a := "--" + k + "=" + v;
    var body := a[2..];
    assert body == k + "=" + v;
    assert body[..|k|] == k;
    assert body[|k|] == '=';
    assert body[|k| + 1..] == v;
    forall j | |k| < j < |body| ensures !IsLineTerminator(body[j]) {
      assert body[j] == v[j - |k| - 1];
    }
  }

  /** "--k" with no "=" is the flag k; "--=x" has an empty key, so it is the flag "=x". */
  lemma ParseFlag(k: string)
    requires '=' !in k
    ensures ParseArg("--" + k) == Some(Arg(k, Flag))
    ensures ParseArg("--=x") == Some(Arg("=x", Flag))
  {
    assert ("--" + k)[2..] == k;
    assert "--=x"[2..] == "=x";
    assert IndexOf("=x", '=') == Some(0);
  }

  /**
   * A value holding a line break does not match the pattern (`.` stops at it, and `$` must
   * follow): the whole text after the dashes, "=" included, names a flag.
   */
  lemma ParseLineBreak(k: string, v: string)
    requires k != "" && '=' !in k
    requires exists i :: 0 <= i < |v| && IsLineTerminator(v[i])
    ensures ParseArg("--" + k + "=" + v) == Some(Arg(k + "=" + v, Flag))
  {
    var a := "--" + k + "=" + v;
    var body := a[2..];
    assert body == k + "=" + v;
    assert body[..|k|] == k;
    assert body[|k|] == '=';
    var e := IndexOf(body, '=');
    assert e == Some(|k|);
    var i :| 0 <= i < |v| && IsLineTerminator(v[i]);
    assert body[|k| + 1 + i] == v[i];
  }

  /** The Map `parseArgs` builds: each argument in turn, a later key overwriting an earlier one. */
  function ArgsOf(argv: seq<string>): map<string, ArgValue> {
    if argv == [] then map[]
    else
      var before := ArgsOf(argv[..|argv| - 1]);
      match ParseArg(argv[|argv| - 1])
      case Some(arg) => before[arg.key := arg.value]
      case None => before
  }

  /** Whether argument `j` of `argv` sets `key`. */
  predicate Sets(argv: seq<string>, j: int, key: string)
    requires 0 <= j < |argv|
  {
    ParseArg(argv[j]).Some? && ParseArg(argv[j]).value.key == key
  }

  /** The last argument that sets `key`, or -1 when none does. */
  function LastSetter(argv: seq<string>, key: string): (j: int)
    ensures -1 <= j < |argv|
    ensures j >= 0 ==> Sets(argv, j, key)
    ensures forall l :: j < l < |argv| ==> !Sets(argv, l, key)
  {
    if argv == [] then -1
    else if Sets(argv, |argv| - 1, key) then |argv| - 1
    else
      var j := LastSetter(argv[..|argv| - 1], key);
      assert forall l :: 0 <= l < |argv| - 1 ==> Sets(argv[..|argv| - 1], l, key) == Sets(argv, l, key);
      j
  }

  /**
   * A key is present exactly when some argument sets it, and then it holds the value of
   * the last argument that does.
   */
  lemma {:induction false} ArgsLastWins(argv: seq<string>, key: string)
    ensures key in ArgsOf(argv) <==> LastSetter(argv, key) >= 0
    ensures key in ArgsOf(argv) ==> ArgsOf(argv)[key] == ParseArg(argv[LastSetter(argv, key)]).value.value
  {
    if argv != [] {
      ArgsLastWins(argv[..|argv| - 1], key);
    }
  }

  /** `parseArgs(argv)`: one pass over the arguments, filling the Map. */
  method ParseArgs(argv: seq<string>) returns (args: map<string, ArgValue>)
    ensures args == ArgsOf(argv)
    ensures forall key :: key in args <==> LastSetter(argv, key) >= 0
  {
    args := map[];
    var i := 0;
    while i < |argv|
      invariant 0 <= i <= |argv|
      invariant args == ArgsOf(argv[..i])
    {
      assert argv[..i + 1][..i] == argv[..i];
      var parsed := ParseArg(argv[i]);
      if parsed.Some? {
        args := args[parsed.value.key := parsed.value.value];
      }
      i := i + 1;
    }
    assert argv[..i] == argv;
    forall key ensures key in args <==> LastSetter(argv, key) >= 0 {
      ArgsLastWins(argv, key);
    }
  }

  /* ------------------------- run configuration ------------------------- */

  /** The two paths of the loop body; any mode text other than "link" regenerates. */
  datatype Mode = Regenerate | Link

  /** `(args.get("mode") as Mode) || "regenerate"`, as the loop reads it. */
  function ModeOf(args: map<string, ArgValue>): (m: Mode)
    ensures m == Link <==> "mode" in args && args["mode"] == Text("link")
  {
    if "mode" in args && args["mode"] == Text("link") then Link else Regenerate
  }

  const DEFAULT_LIMIT: nat := 200

  /**
   * `Number(args.get("limit") || 200)`. A missing or empty value gives 200, a bare `--limit`
   * is `Number(true)`, which is 1; `number` is the text-to-number conversion.
   */
  function LimitOf(args: map<string, ArgValue>, number: string -> nat): (n: nat)
    ensures "limit" !in args || args["limit"] == Text("") ==> n == DEFAULT_LIMIT
    ensures "limit" in args && args["limit"] == Flag ==> n == 1
    ensures "limit" in args && args["limit"].Text? && args["limit"].text != "" ==> n == number(args["limit"].text)
  {
    if "limit" !in args then DEFAULT_LIMIT
    else match args["limit"]
      case Flag => 1
      case Text(s) => if s == "" then DEFAULT_LIMIT else number(s)
  }

  predicate NonEmpty(s: string) { s != "" }

  /** `--ids`: only a text value counts; split on ",", trim each piece, drop the empty ones. */
  function IdsOf(args: map<string, ArgValue>): (ids: Option<seq<Id>>)
    ensures ids.Some? <==> "ids" in args && args["ids"].Text?
    ensures ids.Some? ==> forall i :: 0 <= i < |ids.value| ==>
      ids.value[i] != "" && IsTrimmed(ids.value[i]) && ',' !in ids.value[i]
  {
    if "ids" in args && args["ids"].Text? then Some(IdList(args["ids"].text)) else None
  }

  /** `text.split(",").map((s) => s.trim()).filter(Boolean)`: non-empty, trimmed, comma-free ids. */
  function IdList(text: string): (ids: seq<Id>)
    ensures forall i :: 0 <= i < |ids| ==> ids[i] != "" && IsTrimmed(ids[i]) && ',' !in ids[i]
  {
    var pieces := Split(text, ',');
    var trimmed := Map(pieces, Trim);
    SplitPiecesFree(text, ',');
    assert forall i :: 0 <= i < |trimmed| ==> ',' !in trimmed[i] && IsTrimmed(trimmed[i]) by {
      forall i | 0 <= i < |trimmed| ensures ',' !in trimmed[i] && IsTrimmed(trimmed[i]) {
        TrimKeepsAbsent(pieces[i], ',');
      }
    }
    Filter(trimmed, NonEmpty)
  }

  /** Ids already trimmed, non-empty and free of commas come back from "--ids=" + their join. */
  lemma IdsRoundTrip(parts: seq<Id>)
    requires |parts| >= 1
    requires forall i :: 0 <= i < |parts| ==> parts[i] != "" && IsTrimmed(parts[i]) && ',' !in parts[i]
    ensures IdsOf(map["ids" := Text(Join(parts, ","))]) == Some(parts)
  {
    SplitJoin(parts, ',');
    assert Split(Join(parts, ","), ',') == parts;
    forall i | 0 <= i < |parts| ensures Trim(parts[i]) == parts[i] {
      TrimIdempotent(parts[i]);
    }
    assert Map(parts, Trim) == parts;
    FilterAll(parts, NonEmpty);
  }

  /** What `run` hands to `backfill`. */
  datatype Plan = Plan(mode: Mode, limit: nat, ids: Option<seq<Id>>)

  function PlanOf(args: map<string, ArgValue>, number: string -> nat): Plan {
    Plan(ModeOf(args), LimitOf(args, number), IdsOf(args))
  }

  /* -------------------------- targets, keys, URLs ---------------------- */

  predicate MissingQr(aw: Artwork) { aw.qrCodeUrl.None? }

  function CreatedAt(aw: Artwork): int { aw.createdAt }

  function IdOf(aw: Artwork): Id { aw.id }

  /** `findMany({ where: { qrCodeUrl: null }, take: limit, orderBy: { createdAt: "asc" } })`. */
  function PendingRows(artworks: seq<Artwork>, limit: nat): seq<Artwork> {
    Take(SortByKey(Filter(artworks, MissingQr), CreatedAt), limit)
  }

  /** The targets: the explicit ids when there is at least one, else the pending rows. */
  function Targets(ids: Option<seq<Id>>, limit: nat, artworks: seq<Artwork>): seq<Id> {
    if ids.Some? && |ids.value| > 0 then ids.value else Map(PendingRows(artworks, limit), IdOf)
  }

  /**
   * Without explicit ids, the targets are the `limit` oldest artworks without a QR code, each
   * as often as it is listed: every chosen row is pending, they come oldest first, and a
   * pending artwork left out means the query was cut at `limit` and no chosen row is younger.
   */
  lemma FallbackTargets(ids: Option<seq<Id>>, limit: nat, artworks: seq<Artwork>)
    requires !(ids.Some? && |ids.value| > 0)
    ensures var rows := PendingRows(artworks, limit);
      && Targets(ids, limit, artworks) == Map(rows, IdOf)
      && |rows| <= limit
      && (forall i :: 0 <= i < |rows| ==> rows[i] in artworks && MissingQr(rows[i]))
      && SortedBy(rows, CreatedAt)
      && multiset(rows) <= multiset(artworks)
      && (forall a :: a in artworks && MissingQr(a) && a !in rows ==>
            |rows| == limit && forall i :: 0 <= i < |rows| ==> CreatedAt(rows[i]) <= CreatedAt(a))
  {
    var kept := Filter(artworks, MissingQr);
    var sorted := SortByKey(kept, CreatedAt);
    var rows := PendingRows(artworks, limit);
    forall i | 0 <= i < |rows| ensures rows[i] in artworks && MissingQr(rows[i]) {
      assert rows[i] == sorted[i];
      assert sorted[i] in multiset(sorted);
      assert sorted[i] in kept;
    }
    forall i, j | 0 <= i < j < |rows| ensures CreatedAt(rows[i]) <= CreatedAt(rows[j]) {
      assert rows[i] == sorted[i] && rows[j] == sorted[j];
    }
    PendingRowsSubset(artworks, limit);
    forall a | a in artworks && MissingQr(a) && a !in rows
      ensures |rows| == limit && forall i :: 0 <= i < |rows| ==> CreatedAt(rows[i]) <= CreatedAt(a)
    {
      PendingRowsOldest(artworks, limit, a);
    }
  }

  /** The query returns no row more often than the table holds it. */
  lemma PendingRowsSubset(artworks: seq<Artwork>, limit: nat)
    ensures multiset(PendingRows(artworks, limit)) <= multiset(artworks)
  {
    var kept := Filter(artworks, MissingQr);
    var sorted := SortByKey(kept, CreatedAt);
    TakeSubMultiset(sorted, limit);
    FilterSubMultiset(artworks, MissingQr);
    assert multiset(Take(sorted, limit)) <= multiset(kept);
  }

  /** A pending artwork the query leaves out is no older than any row it returns, and the query was cut. */
  lemma PendingRowsOldest(artworks: seq<Artwork>, limit: nat, a: Artwork)
    requires a in artworks && MissingQr(a) && a !in PendingRows(artworks, limit)
    ensures var rows := PendingRows(artworks, limit);
      |rows| == limit && forall i :: 0 <= i < |rows| ==> CreatedAt(rows[i]) <= CreatedAt(a)
  {
    var kept := Filter(artworks, MissingQr);
    var sorted := SortByKey(kept, CreatedAt);
    var rows := PendingRows(artworks, limit);
    var i0 :| 0 <= i0 < |artworks| && artworks[i0] == a;
    assert a in kept;
    assert a in multiset(sorted);
    var k :| 0 <= k < |sorted| && sorted[k] == a;
    assert k >= |rows|;
    forall i | 0 <= i < |rows| ensures CreatedAt(rows[i]) <= CreatedAt(a) {
      assert rows[i] == sorted[i];
    }
  }

  /** Explicit ids win over the query, in their given order. */
  lemma ExplicitTargets(ids: seq<Id>, limit: nat, artworks: seq<Artwork>)
    requires |ids| > 0
    ensures Targets(Some(ids), limit, artworks) == ids
  {
  }

  const KEY_PREFIX := "qr/artworks/"
  const KEY_SUFFIX := ".png"

  /** The object key of an artwork's QR image. */
  function QrKey(id: Id): (key: string)
    ensures StartsWith(key, KEY_PREFIX) && EndsWith(key, KEY_SUFFIX)
    ensures |key| == |KEY_PREFIX| + |id| + |KEY_SUFFIX|
  {
    KEY_PREFIX + id + KEY_SUFFIX
  }

  /** The key names its artwork: the id can be read back, so two artworks never share a key. */
  lemma QrKeyInjective(id1: Id, id2: Id)
    ensures QrKey(id1)[|KEY_PREFIX|..|QrKey(id1)| - |KEY_SUFFIX|] == id1
    ensures QrKey(id1) == QrKey(id2) ==> id1 == id2
  {
    assert QrKey(id1)[|KEY_PREFIX|..|QrKey(id1)| - |KEY_SUFFIX|] == id1;
    assert QrKey(id2)[|KEY_PREFIX|..|QrKey(id2)| - |KEY_SUFFIX|] == id2;
  }

  /** `${QR_PUBLIC_BASE}/${key}`, the URL both modes store. */
  function QrUrl(base: string, id: Id): (url: string)
    ensures StartsWith(url, base + "/" + KEY_PREFIX) && EndsWith(url, QrKey(id))
  {
    var key := QrKey(id);
    assert (base + "/" + key)[..|base + "/"| + |KEY_PREFIX|] == base + "/" + KEY_PREFIX;
    base + "/" + key
  }

  /* ----------------------------- environment --------------------------- */

  /** The environment variables the job reads (absent or a string). */
  datatype QrEnv = QrEnv(s3BucketName: Option<string>, publicBucketName: Option<string>,
                         s3BucketNameQr: Option<string>, publicBucketNameQr: Option<string>,
                         endpointQr: Option<string>, endpoint: Option<string>)

  /** A value interpolated into a template literal: `undefined` prints as "undefined". */
  function Interpolate(o: Option<string>): string {
    if o.Some? then o.value else "undefined"
  }

  /** `s.replace(/\/+$/, "")`: the trailing slashes removed. */
  function StripTrailingSlashes(s: string): (r: string)
    ensures |r| <= |s| && s[..|r|] == r
    ensures r == [] || r[|r| - 1] != '/'
    ensures forall i :: |r| <= i < |s| ==> s[i] == '/'
  {
    if s != [] && s[|s| - 1] == '/' then
      var r := StripTrailingSlashes(s[..|s| - 1]);
      assert s[..|s| - 1][..|r|] == s[..|r|];
      r
    else s
  }

  /** QR_BUCKET: the QR bucket variables, else the main bucket ones. */
  function QrBucket(env: QrEnv): Option<string> {
    Or(env.s3BucketNameQr, Or(env.publicBucketNameQr, Or(env.s3BucketName, env.publicBucketName)))
  }

  /** QR_PUBLIC_BASE: the endpoint without trailing slashes, "/", and the public bucket name. */
  function PublicBase(env: QrEnv): (base: string)
    ensures '/' in base
  {
    var endpoint := Or(env.endpointQr, Or(env.endpoint, Some("")));
    var prefix := StripTrailingSlashes(if endpoint.Some? then endpoint.value else "");
    var base := prefix + "/" + Interpolate(Or(env.publicBucketNameQr, env.publicBucketName));
    assert base[|prefix|] == '/';
    base
  }

  /** The start-up guard `!QR_PUBLIC_BASE || !QR_BUCKET`, as written. */
  predicate MissingEnvAsWritten(env: QrEnv) {
    PublicBase(env) == "" || !Truthy(QrBucket(env))
  }

  /**
   * As written, the guard never trips on the public base: with only S3_BUCKET_NAME_QR set
   * the job starts and its public base is "/undefined".
   */
  lemma GuardMissesPublicBase()
    ensures var env := QrEnv(None, None, Some("qr-bucket"), None, None, None);
      !MissingEnvAsWritten(env) && PublicBase(env) == "/undefined"
  {
    var env := QrEnv(None, None, Some("qr-bucket"), None, None, None);
    assert Or(env.endpointQr, Or(env.endpoint, Some(""))) == Some("");
    assert StripTrailingSlashes("") == "";
    assert Truthy(QrBucket(env));
  }

  /** With only S3_BUCKET_NAME_QR set, every URL the job stores points below "/undefined". */
  lemma UndefinedBaseUrl(id: Id)
    ensures var env := QrEnv(None, None, Some("qr-bucket"), None, None, None);
      QrUrl(PublicBase(env), id) == "/undefined/qr/artworks/" + id + ".png"
  {
    GuardMissesPublicBase();
  }

  /**
   * The guard as its own message describes it: the public endpoint, the public bucket name
   * and the upload bucket must all be set.
   */
  predicate MissingEnv(env: QrEnv) {
    !Truthy(Or(env.endpointQr, env.endpoint)) || !Truthy(Or(env.publicBucketNameQr, env.publicBucketName)) ||
    !Truthy(QrBucket(env))
  }

  /** When the corrected guard lets the job start, the base is the configured endpoint and bucket, never "undefined". */
  lemma GuardedPublicBase(env: QrEnv)
    requires !MissingEnv(env)
    ensures PublicBase(env) == StripTrailingSlashes(Or(env.endpointQr, env.endpoint).value) + "/"
                             + Or(env.publicBucketNameQr, env.publicBucketName).value
    ensures !MissingEnvAsWritten(env)
  {
  }

  /* ------------------------------ the loop ----------------------------- */

  /** The `qrCodeUrl` column of the Artwork table, by id. */
  class QrStore {
    var qrCodeUrl: map<Id, Option<string>>

    constructor(qrCodeUrl: map<Id, Option<string>>)
      ensures this.qrCodeUrl == qrCodeUrl
    {
      this.qrCodeUrl := qrCodeUrl;
    }
  }

  /**
   * Whether the body of the loop reaches `updated++` for `id`: in regenerate mode the QR
   * rendering and upload (`uploads`) must succeed, and `prisma.artwork.update` needs the row.
   */
  predicate Updates(mode: Mode, uploads: Id -> bool, rows: set<Id>, id: Id) {
    (mode == Link || uploads(id)) && id in rows
  }

  function UpdatesFn(mode: Mode, uploads: Id -> bool, rows: set<Id>): Id -> bool {
    (id: Id) => Updates(mode, uploads, rows, id)
  }

  /** The column after the loop has run over `targets`. */
  function ColumnAfter(mode: Mode, base: string, uploads: Id -> bool, column: map<Id, Option<string>>,
                       targets: seq<Id>): (c: map<Id, Option<string>>)
    ensures c.Keys == column.Keys
  {
    if targets == [] then column
    else
      var before := ColumnAfter(mode, base, uploads, column, targets[..|targets| - 1]);
      var id := targets[|targets| - 1];
      if Updates(mode, uploads, column.Keys, id) then before[id := Some(QrUrl(base, id))] else before
  }

  /**
   * After the loop every updated target holds its QR URL, in either mode, and every other
   * row keeps its value.
   */
  lemma {:induction false} ColumnAfterContents(mode: Mode, base: string, uploads: Id -> bool,
                                               column: map<Id, Option<string>>, targets: seq<Id>, id: Id)
    requires id in column
    ensures (id in targets && Updates(mode, uploads, column.Keys, id)) ==>
      ColumnAfter(mode, base, uploads, column, targets)[id] == Some(QrUrl(base, id))
    ensures !(id in targets && Updates(mode, uploads, column.Keys, id)) ==>
      ColumnAfter(mode, base, uploads, column, targets)[id] == column[id]
  {
    if targets != [] {
      var init := targets[..|targets| - 1];
      ColumnAfterContents(mode, base, uploads, column, init, id);
      assert targets == init + [targets[|targets| - 1]];
    }
  }

  /** `backfill(mode, limit, ids)` after the targets are chosen: one try/catch per target. */
  method Backfill(store: QrStore, mode: Mode, base: string, uploads: Id -> bool, targets: seq<Id>)
    returns (updated: nat, failed: nat)
    modifies store
    ensures updated == Count(targets, UpdatesFn(mode, uploads, old(store.qrCodeUrl).Keys))
    ensures updated + failed == |targets|
    ensures store.qrCodeUrl == ColumnAfter(mode, base, uploads, old(store.qrCodeUrl), targets)
  {
    ghost var column := store.qrCodeUrl;
    updated, failed := 0, 0;
    var i := 0;
    while i < |targets|
      invariant 0 <= i <= |targets|
      invariant updated == Count(targets[..i], UpdatesFn(mode, uploads, column.Keys))
      invariant updated + failed == i
      invariant store.qrCodeUrl == ColumnAfter(mode, base, uploads, column, targets[..i])
      invariant store.qrCodeUrl.Keys == column.Keys
    {
      var id := targets[i];
      assert targets[..i + 1][..i] == targets[..i];
      var reached := mode == Link || uploads(id);
      if reached && id in store.qrCodeUrl {
        store.qrCodeUrl := store.qrCodeUrl[id := Some(QrUrl(base, id))];
        updated := updated + 1;
      } else {
        failed := failed + 1;
      }
      i := i + 1;
    }
    assert targets[..i] == targets;
  }

  /**
   * The Artwork table read by the fallback query and the `qrCodeUrl` column the updates write
   * are one table: every listed artwork has its row, holding the value the query saw.
   */
  predicate SameTable(column: map<Id, Option<string>>, artworks: seq<Artwork>) {
    forall i :: 0 <= i < |artworks| ==> artworks[i].id in column && column[artworks[i].id] == artworks[i].qrCodeUrl
  }

  /** Link mode over the queried targets: the loop never reaches the catch. */
  predicate LinkFallback(plan: Plan) {
    plan.mode == Link && !(plan.ids.Some? && |plan.ids.value| > 0)
  }

  /**
   * In link mode every target the fallback query chose exists, so every update succeeds, and
   * each target goes from no QR code to its URL.
   */
  lemma LinkFallbackUpdatesAll(column: map<Id, Option<string>>, artworks: seq<Artwork>, limit: nat,
                               base: string, uploads: Id -> bool)
    requires SameTable(column, artworks)
    ensures var targets := Map(PendingRows(artworks, limit), IdOf);
      && Count(targets, UpdatesFn(Link, uploads, column.Keys)) == |targets|
      && forall i :: 0 <= i < |targets| ==>
           && targets[i] in column && column[targets[i]] == None
           && ColumnAfter(Link, base, uploads, column, targets)[targets[i]] == Some(QrUrl(base, targets[i]))
  {
    var rows := PendingRows(artworks, limit);
    var targets := Map(rows, IdOf);
    FallbackTargets(None, limit, artworks);
    forall i | 0 <= i < |targets| ensures targets[i] in column && column[targets[i]] == None {
      var j :| 0 <= j < |artworks| && artworks[j] == rows[i];
    }
    CountAll(targets, UpdatesFn(Link, uploads, column.Keys));
    forall i | 0 <= i < |targets|
      ensures ColumnAfter(Link, base, uploads, column, targets)[targets[i]] == Some(QrUrl(base, targets[i]))
    {
      ColumnAfterContents(Link, base, uploads, column, targets, targets[i]);
    }
  }

  /** How the run ended. */
  datatype RunResult = MissingEnvExit | Done(scanned: nat, updated: nat, failed: nat)

  /**
   * What `backfill(mode, limit, ids)` has done once `run` lets it start: the targets chosen
   * by the plan, the counts of the loop over them, and the column it leaves.
   */
  ghost predicate Ran(result: RunResult, before: map<Id, Option<string>>, after: map<Id, Option<string>>,
                      base: string, plan: Plan, artworks: seq<Artwork>, uploads: Id -> bool)
  {
    var targets := Targets(plan.ids, plan.limit, artworks);
    && result.Done? && result.scanned == |targets| && result.updated + result.failed == |targets|
    && result.updated == Count(targets, UpdatesFn(plan.mode, uploads, before.Keys))
    && after == ColumnAfter(plan.mode, base, uploads, before, targets)
  }

  /** `await backfill(mode, limit, ids)`: choose the targets, then run the loop over them. */
  method Proceed(store: QrStore, base: string, plan: Plan, artworks: seq<Artwork>, uploads: Id -> bool)
    returns (result: RunResult)
    requires SameTable(store.qrCodeUrl, artworks)
    modifies store
    ensures Ran(result, old(store.qrCodeUrl), store.qrCodeUrl, base, plan, artworks, uploads)
    ensures LinkFallback(plan) ==> result.Done? && result.failed == 0
  {
    var targets := Targets(plan.ids, plan.limit, artworks);
    if LinkFallback(plan) {
      LinkFallbackUpdatesAll(store.qrCodeUrl, artworks, plan.limit, base, uploads);
    }
    var updated, failed := Backfill(store, plan.mode, base, uploads, targets);
    result := Done(|targets|, updated, failed);
  }

  /**
   * `run()`: parse the options, stop on the guard as written, then run the backfill over the
   * chosen targets; `artworks` is the Artwork table the fallback query reads.
   */
  method Run(store: QrStore, env: QrEnv, argv: seq<string>, number: string -> nat,
             artworks: seq<Artwork>, uploads: Id -> bool) returns (result: RunResult)
    requires SameTable(store.qrCodeUrl, artworks)
    modifies store
    ensures MissingEnvAsWritten(env) <==> result == MissingEnvExit
    ensures MissingEnvAsWritten(env) ==> store.qrCodeUrl == old(store.qrCodeUrl)
    ensures !MissingEnvAsWritten(env) ==>
      Ran(result, old(store.qrCodeUrl), store.qrCodeUrl, PublicBase(env), PlanOf(ArgsOf(argv), number), artworks, uploads)
    ensures !MissingEnvAsWritten(env) && LinkFallback(PlanOf(ArgsOf(argv), number)) ==> result.Done? && result.failed == 0
  {
    var args := ParseArgs(argv);
    var plan := PlanOf(args, number);
    if MissingEnvAsWritten(env) {
      return MissingEnvExit;
    }
    result := Proceed(store, PublicBase(env), plan, artworks, uploads);
  }

  /**
   * `run()` with the guard its error message describes: it stops unless the public endpoint,
   * the public bucket name and the upload bucket are all set, so the base it hands on is the
   * configured one.
   */
  method RunGuarded(store: QrStore, env: QrEnv, argv: seq<string>, number: string -> nat,
                    artworks: seq<Artwork>, uploads: Id -> bool) returns (result: RunResult)
    requires SameTable(store.qrCodeUrl, artworks)
    modifies store
    ensures MissingEnv(env) <==> result == MissingEnvExit
    ensures MissingEnv(env) ==> store.qrCodeUrl == old(store.qrCodeUrl)
    ensures !MissingEnv(env) ==>
      && PublicBase(env) == StripTrailingSlashes(Or(env.endpointQr, env.endpoint).value) + "/"
                            + Or(env.publicBucketNameQr, env.publicBucketName).value
      && Ran(result, old(store.qrCodeUrl), store.qrCodeUrl, PublicBase(env), PlanOf(ArgsOf(argv), number), artworks, uploads)
    ensures !MissingEnv(env) && LinkFallback(PlanOf(ArgsOf(argv), number)) ==> result.Done? && result.failed == 0
  {
    var args := ParseArgs(argv);
    var plan := PlanOf(args, number);
    if MissingEnv(env) {
      return MissingEnvExit;
    }
    GuardedPublicBase(env);
    result := Proceed(store, PublicBase(env), plan, artworks, uploads);
  }
}
