/**
 * The reply handling of verifyClaim in services/geminiService.ts: the
 * API key check, the user prompt, the extraction of the JSON text from
 * the model's reply and the collapse of every parse failure into one
 * error. The network call and JSON.parse are parameters.
 */
module GeminiService {
  import opened Wrappers
  import opened JsString
  import opened FenceRegex

  // ---------------------------------------------------------------------
  // Extraction of the JSON text

  /**
   * The text handed to JSON.parse: the trimmed reply, or the body of its
   * first fenced block when that body is non-empty.
   */
  function Extract(reply: string): (r: string)
    ensures r == [] || (!IsSpace(r[0]) && !IsSpace(r[|r| - 1]))
    ensures r == [] <==> AllSpace(reply)
    ensures !HasFencePair(Trim(reply)) ==> r == Trim(reply)
  {
    var t := Trim(reply);
    RegexMatchFacts(t);
    match RegexMatch(t)
    case None => t
    case Some(m) =>
      if m.bodyStart < m.bodyEnd then t[m.bodyStart..m.bodyEnd] else t
  }

  /**
   * The extracted text as the regex describes it: for the leftmost
   * match of the trimmed reply, its body when non-empty, else the whole
   * trimmed reply.
   */
  lemma ExtractIsDescribed(reply: string, m: Match)
    requires IsLeftmostMatch(Trim(reply), m)
    ensures Extract(reply) ==
      if m.bodyStart < m.bodyEnd then Trim(reply)[m.bodyStart..m.bodyEnd] else Trim(reply)
  {
    LeftmostMatchComplete(Trim(reply), m);
    ExtractOfMatch(reply, m);
  }

  /** Whitespace around the reply never reaches the parser. */
  lemma ExtractIgnoresPadding(w1: string, reply: string, w2: string)
    requires AllSpace(w1) && AllSpace(w2)
    ensures Extract(w1 + reply + w2) == Extract(reply)
  {
    TrimPadded(w1, reply, w2);
  }

  /** When the regex captures a non-empty body, that body is the extracted text. */
  lemma ExtractOfMatch(reply: string, m: Match)
    requires RegexMatch(Trim(reply)) == Some(m)
    ensures Extract(reply) ==
      if m.bodyStart < m.bodyEnd then Trim(reply)[m.bodyStart..m.bodyEnd] else Trim(reply)
  {
  }

  /** Trimming a fenced reply trims the text before and after the block. */
  lemma TrimFenced(pre: string, tag: string, payload: string, rest: string)
    ensures var i := SkipSpace(pre, 0);
      var j := BackSkipSpace(rest, |rest|, 0);
      Trim(pre + Block(tag, payload) + rest) == FencedReply(pre[i..], tag, payload, rest[..j])
  {
    var mid := Block(tag, payload);
    BacktickIsNotSpace();
    assert mid[0] == '`' && mid[|mid| - 1] == '`';
    TrimAround(pre, mid, rest);
  }

  /**
   * A fenced payload is cut out of the reply: a json tag is dropped,
   * any other tag word stays in front of it, and whatever follows the
   * block, a second fenced block included, is ignored.
   */
  lemma ExtractFenced(pre: string, tag: string, payload: string, rest: string)
    requires WellFenced(pre, tag, payload)
    ensures Extract(pre + Block(tag, payload) + rest) ==
      if TagRemainder(tag) == [] then payload else TagRemainder(tag) + "\n" + payload
  {
    var reply := pre + Block(tag, payload) + rest;
    var pre' := pre[SkipSpace(pre, 0)..];
    var rest' := rest[..BackSkipSpace(rest, |rest|, 0)];
    TrimFenced(pre, tag, payload, rest);
    assert WellFenced(pre', tag, payload);
    FencedBlockMatch(pre', tag, payload, rest');
    ExtractOfMatch(reply, FencedMatch(pre', tag, payload));
  }

  /** A reply that is nothing but a fenced block. */
  lemma ExtractBlock(tag: string, payload: string)
    requires WellFenced([], tag, payload)
    ensures Extract(Block(tag, payload)) ==
      if TagRemainder(tag) == [] then payload else TagRemainder(tag) + "\n" + payload
  {
    assert [] + Block(tag, payload) + [] == Block(tag, payload);
    ExtractFenced([], tag, payload, []);
  }

  /** A payload that can stand inside a block: visible at both ends, with no fence in it. */
  predicate Payload(payload: string) {
    payload != [] && !IsSpace(payload[0]) && !IsSpace(payload[|payload| - 1]) && NoFence(payload)
  }

  lemma TagWellFenced(tag: string, payload: string)
    requires tag == "json" || tag == "JSON"
    requires Payload(payload)
    ensures WellFenced([], tag, payload)
    ensures TagRemainder(tag) == if tag == "json" then [] else tag
  {
  }

  /** A tag in capitals is not the json group, so it stays in the extracted text. */
  lemma ExtractKeepsUppercaseTag(payload: string)
    requires Payload(payload)
    ensures Extract(Block("JSON", payload)) == "JSON\n" + payload
  {
    TagWellFenced("JSON", payload);
    ExtractBlock("JSON", payload);
  }

  /** Fencing a payload as json and leaving it bare give the parser the same text. */
  lemma ExtractRoundTrip(payload: string)
    requires Payload(payload)
    ensures Extract(Block("json", payload)) == payload
    ensures Extract(payload) == payload
  {
    TagWellFenced("json", payload);
    ExtractBlock("json", payload);
    TrimOfTrimmed(payload);
    NoFenceNoPair(payload);
  }

  /** A fenced block with nothing but whitespace inside: the whole trimmed reply is kept. */
  lemma ExtractEmptyBlock(tag: string, ws: string)
    requires tag == [] || tag == "json"
    requires AllSpace(ws)
    ensures Extract(EmptyBlock(tag, ws)) == EmptyBlock(tag, ws)
  {
    var t := EmptyBlock(tag, ws);
    BacktickIsNotSpace();
    TrimOfTrimmed(t);
    EmptyBlockMatch(tag, ws);
    ExtractOfMatch(t, RegexMatch(t).value);
  }

  /**
   * The regex looks for fences anywhere, inside JSON strings too: a bare
   * JSON object whose string value holds a fence pair is cut down to the
   * text between the fences, which is no longer the object.
   */
  lemma FenceInsideJsonString()
    ensures Extract("{\"a\":\"```x```\"}") == "x"
  {
    var t := "{\"a\":\"```x```\"}";
    InlineFenceTrimmed(t);
    InlineFenceMatch(t);
    ExtractIsDescribed(t, Match(6, false, 9, 10, 10));
  }

  lemma InlineFenceTrimmed(t: string)
    requires t == "{\"a\":\"```x```\"}"
    ensures Trim(t) == t
  {
    TrimOfTrimmed(t);
  }

  /** The fence pair inside the string value is the leftmost match, with body x. */
  lemma InlineFenceMatch(t: string)
    requires t == "{\"a\":\"```x```\"}"
    ensures IsLeftmostMatch(t, Match(6, false, 9, 10, 10))
  {
    BacktickIsNotSpace();
  }

  // ---------------------------------------------------------------------
  // verifyClaim

  /** `!process.env.API_KEY`: the key is falsy when unset or empty. */
  predicate ApiKeySet(apiKey: Option<string>): (isSet: bool)
    ensures !isSet <==> apiKey == None || apiKey == Some("")
  {
    apiKey.Some? && apiKey.value != ""
  }

  const PromptHead: string :=
    "Fact-check the following claim and respond ONLY with the JSON object as specified in the system instructions. Do not provide any other text or explanation. Claim: \""

  /** The request text: the claim quoted verbatim, without trimming or escaping. */
  function UserPrompt(claim: string): (p: string)
    ensures |p| == |PromptHead| + |claim| + 1
    ensures StartsWith(p, PromptHead) && p[|p| - 1] == '"'
    ensures p[|PromptHead|..|p| - 1] == claim
  {
    PromptHead + claim + "\""
  }

  /** The errors verifyClaim raises. */
  datatype ServiceError =
    | MissingApiKey
    | Upstream(detail: string)   // an error of the client call, passed through
    | Unparseable

  function ErrorMessage(e: ServiceError): (msg: string)
    ensures e.MissingApiKey? ==> msg == "API_KEY environment variable is not set."
    ensures e.Unparseable? ==> msg == "Could not parse the AI's response as valid JSON."
    ensures e.Upstream? ==> msg == e.detail
  {
    match e
    case MissingApiKey => "API_KEY environment variable is not set."
    case Upstream(d) => d
    case Unparseable => "Could not parse the AI's response as valid JSON."
  }

  /** What the model call gives back: an error, or a response whose text may be absent. */
  datatype Reply = Rejected(detail: string) | Responded(text: Option<string>)

  /**
   * The try block: an absent text or text that JSON.parse refuses
   * becomes the one parse error; a parsed value is returned as it is,
   * with no check of its fields.
   */
  function ParseReply<V>(text: Option<string>, parse: string -> Option<V>): (r: Result<V, ServiceError>)
    ensures r.Failure? ==> r.error == Unparseable
    ensures r.Success? <==> text.Some? && parse(Extract(text.value)).Some?
    ensures r.Success? ==> parse(Extract(text.value)) == Some(r.value)
  {
    match text
    case None => Failure(Unparseable)
    case Some(s) =>
      match parse(Extract(s))
      case None => Failure(Unparseable)
      case Some(v) => Success(v)
  }

  /**
   * verifyClaim: the key check comes first, so without a key no request
   * is made; then the call, whose own errors pass through; then the
   * reply handling.
   */
  function VerifyClaim<V>(apiKey: Option<string>, claim: string, call: string -> Reply,
                          parse: string -> Option<V>): (r: Result<V, ServiceError>)
    ensures !ApiKeySet(apiKey) <==> r == Failure(MissingApiKey)
    ensures (r.Failure? && r.error.Upstream?) <==>
      ApiKeySet(apiKey) && call(UserPrompt(claim)).Rejected?
    ensures r.Success? ==>
      && ApiKeySet(apiKey)
      && call(UserPrompt(claim)).Responded?
      && call(UserPrompt(claim)).text.Some?
      && parse(Extract(call(UserPrompt(claim)).text.value)) == Some(r.value)
    ensures ApiKeySet(apiKey) && call(UserPrompt(claim)).Rejected? ==>
      r == Failure(Upstream(call(UserPrompt(claim)).detail))
    ensures ApiKeySet(apiKey) && call(UserPrompt(claim)).Responded? ==>
      r == ParseReply(call(UserPrompt(claim)).text, parse)
  {
    if !ApiKeySet(apiKey) then Failure(MissingApiKey)
    else
      match call(UserPrompt(claim))
      case Rejected(d) => Failure(Upstream(d))
      case Responded(text) => ParseReply(text, parse)
  }

  /** A reply with no backtick that JSON.parse refuses ends in the parse error. */
  lemma ProseReplyUnparseable<V>(text: string, parse: string -> Option<V>)
    requires NoBacktick(text)
    requires parse(Trim(text)) == None
    ensures ParseReply(Some(text), parse) == Failure(Unparseable)
  {
    NoBacktickNoPair(Trim(text));
  }

  /** Whether the model fences its JSON or not makes no difference to verifyClaim. */
  lemma VerifyClaimFenceTransparent<V>(apiKey: Option<string>, claim: string,
                                       fenced: string -> Reply, bare: string -> Reply,
                                       parse: string -> Option<V>, payload: string)
    requires Payload(payload)
    requires fenced(UserPrompt(claim)) == Responded(Some(Block("json", payload)))
    requires bare(UserPrompt(claim)) == Responded(Some(payload))
    ensures VerifyClaim(apiKey, claim, fenced, parse) == VerifyClaim(apiKey, claim, bare, parse)
  {
    ExtractRoundTrip(payload);
  }
}
