/**
 * The text-embedding provider client (lib/embeddings/text.ts): the vector literal that is
 * spliced into SQL, the input preparation, and the handling of the provider's answer.
 * The HTTP request itself is an oracle `respond` from the prepared input to the reply.
 */
module EmbeddingText {
  import opened Wrappers
  import opened Strings
  import opened Seqs

  /** An embedding: the numbers of `number[]`, taken as reals. */
  type Vector = seq<real>

  const TEXT_EMBEDDING_MODEL := "text-embedding-3-small"

  /** The provider's input limit, in characters. */
  const MAX_INPUT: nat := 4000

  /** `asVectorLiteral`: the elements, each rendered by `show` (JavaScript's number-to-string), joined by commas. */
  function AsVectorLiteral(v: Vector, show: real -> string): (lit: string)
    ensures StartsWith(lit, "'[") && EndsWith(lit, "]'")
    ensures v == [] ==> lit == "'[]'"
  {
    "'[" + Join(Map(v, show), ",") + "]'"
  }

  /** The elements' renderings, between the brackets. */
  function LiteralBody(lit: string): string
    requires |lit| >= 4
  {
    lit[2..|lit| - 2]
  }

  /** Splitting the bracketed body on commas gives back every rendered element, in order. */
  lemma VectorLiteralElements(v: Vector, show: real -> string)
    requires |v| >= 1
    requires forall i :: 0 <= i < |v| ==> ',' !in show(v[i])
    ensures Split(LiteralBody(AsVectorLiteral(v, show)), ',') == Map(v, show)
  {
    var lit := AsVectorLiteral(v, show);
    var body := Join(Map(v, show), ",");
    assert lit == "'[" + body + "]'";
    assert LiteralBody(lit) == body;
    SplitJoin(Map(v, show), ',');
  }

  /** When no rendering holds a comma, the literal holds exactly |v| - 1 of them. */
  lemma VectorLiteralCommas(v: Vector, show: real -> string)
    requires |v| >= 1
    requires forall i :: 0 <= i < |v| ==> ',' !in show(v[i])
    ensures Occurrences(AsVectorLiteral(v, show), ',') == |v| - 1
  {
    var body := Join(Map(v, show), ",");
    JoinSeparators(Map(v, show), ',');
    OccurrencesConcat("'[", body, ',');
    OccurrencesConcat("'[" + body, "]'", ',');
    assert Occurrences("'[", ',') == 0;
    assert Occurrences("]'", ',') == 0;
  }

  /** `text.trim().slice(0, 4000)`. */
  function PrepareInput(text: string): (input: string)
    ensures |input| <= MAX_INPUT
    ensures |input| <= |Trim(text)| && input == Trim(text)[..|input|]
    ensures |Trim(text)| <= MAX_INPUT ==> input == Trim(text)
    ensures |Trim(text)| > MAX_INPUT ==> |input| == MAX_INPUT
  {
    var t := Trim(text);
    t[..Min(MAX_INPUT, |t|)]
  }

  /** What the embeddings endpoint answered, once the JSON body is parsed. */
  datatype Reply =
    | TransportFailure
    | Reply(status: int, body: string, data: seq<Vector>)
  {
    /** `Response.ok`: a 2xx status. */
    predicate Ok() requires Reply? { 200 <= status <= 299 }
  }

  /** `embedText`: the first `data` entry of a 2xx answer; a non-2xx answer throws with its status and body. */
  function EmbedText(text: string, respond: string -> Reply): (r: Result<Vector>)
    ensures var reply := respond(PrepareInput(text));
      && (reply.TransportFailure? <==> r == Err(ProviderUnavailable))
      && (reply.Reply? && !reply.Ok() ==> r == Err(ProviderError(reply.status, reply.body)))
      && (reply.Reply? && reply.Ok() && reply.data == [] ==> r == Err(MalformedResponse))
      && (r.Ok? <==> reply.Reply? && reply.Ok() && |reply.data| > 0)
      && (r.Ok? ==> r.value == reply.data[0])
  {
    var reply := respond(PrepareInput(text));
    if reply.TransportFailure? then Err(ProviderUnavailable)
    else if !reply.Ok() then Err(ProviderError(reply.status, reply.body))
    else if |reply.data| == 0 then Err(MalformedResponse)
    else Ok(reply.data[0])
  }
}
