/**
 * How a requirement travels in a 424 challenge (src/http.ts, src/http-client.ts, src/transport.ts):
 * in the HUMAN-REQUIRED header as base64url of canonical JSON, or in the problem body.
 */
module Transport {
  import opened Basics
  import opened Base64Url
  import opened CanonicalJson
  import opened CanonicalJsonLaws
  import opened CanonicalJsonText
  import opened CanonicalBytes

  const ABSOLUTE_MAX := 65_536
  const INTEROP_ENVELOPE := 8_192

  /** UTF-8, the number reader, the key order, and the requirement schema as a predicate on meanings. */
  datatype Codec = Codec(
    utf8: Utf8,
    num: Reader,
    less: Order,
    schema: Tree -> bool)

  ghost predicate Sound(c: Codec) {
    && Lawful(c.num) && StrictTotal(c.less) && IsUtf8(c.utf8)
    && (forall t :: c.schema(t) ==> DependencyOf(t).Some?)
  }

  // The dependencyId that the schema requires: 1 to 200 characters.
  function DependencyOf(t: Tree): Option<string> {
    if t.TObj? && "dependencyId" in t.members && t.members["dependencyId"].TStr? && 0 < |t.members["dependencyId"].s| <= 200
    then Some(t.members["dependencyId"].s) else None
  }

  datatype Mode = InHeader | InBody

  datatype Problem = Problem(dependencyId: string, mode: Mode, requirement: Option<Tree>)

  datatype Challenge = Challenge(header: Option<string>, body: Problem)

  function Encoded(c: Codec, v: Value): Option<string> {
    var text := Canonical(c.less, v);
    if text.None? then None else Some(Encode(c.utf8.encode(text.value)))
  }

  // The same bytes after a byte order mark.
  function MarkedHeader(c: Codec, v: Value): Option<string> {
    var text := Canonical(c.less, v);
    if text.None? then None else Some(Encode(MARK + c.utf8.encode(text.value)))
  }

  predicate CarriesMark(header: string) { Decode(header).Some? && MARK <= Decode(header).value }

  // selectRequirementTransportMode; None where it throws.
  function SelectMode(length: nat): Option<Mode> {
    if length > ABSOLUTE_MAX then None else if length > INTEROP_ENVELOPE then Some(InBody) else Some(InHeader)
  }

  // None where the source throws.
  function HumanRequiredResponse(c: Codec, v: Value): Option<Challenge> {
    var encoded, dependencyId := Encoded(c, v), DependencyOf(TreeOf(v));
    if encoded.None? || dependencyId.None? || SelectMode(|encoded.value|).None? then None
    else if SelectMode(|encoded.value|).value == InHeader then
      Some(Challenge(encoded, Problem(dependencyId.value, InHeader, None)))
    else Some(Challenge(None, Problem(dependencyId.value, InBody, Some(TreeOf(v)))))
  }

  // parseHumanRequiredProblem
  predicate ProblemValid(c: Codec, p: Problem) {
    && 0 < |p.dependencyId| <= 200
    && (p.requirement.Some? ==> c.schema(p.requirement.value))
    && (p.mode == InHeader ==> p.requirement.None?)
    && (p.mode == InBody ==> p.requirement.Some? && DependencyOf(p.requirement.value) == Some(p.dependencyId))
  }

  function DecodeHeader(c: Codec, header: string): Option<Tree> {
    if header == "" || |header| > ABSOLUTE_MAX then None
    else
      var bytes := Decode(header);
      var v := if bytes.None? then None else ParseCanonicalBytes(c.utf8, c.less, c.num, bytes.value);
      if v.None? || !c.schema(TreeOf(v.value)) then None else Some(TreeOf(v.value))
  }

  function RequirementFromChallenge(c: Codec, header: Option<string>, body: Option<Problem>): Option<Tree> {
    if body.Some? && !ProblemValid(c, body.value) then None
    else if header.Some? && header.value != "" then
      if |header.value| > INTEROP_ENVELOPE then None
      else
        var requirement := DecodeHeader(c, header.value);
        if requirement.Some? && body.Some?
           && (body.value.mode != InHeader || Some(body.value.dependencyId) != DependencyOf(requirement.value)) then None
        else requirement
    else if body.Some? && body.value.mode == InBody then body.value.requirement
    else None
  }

  // Either header decodes to the requirement.
  lemma DecodeEncoded(c: Codec, v: Value, header: string)
    requires Sound(c) && WellFormed(c.num, v) && Plain(v) && c.schema(TreeOf(v))
    requires |header| <= ABSOLUTE_MAX && (Some(header) == Encoded(c, v) || Some(header) == MarkedHeader(c, v))
    ensures DecodeHeader(c, header) == Some(TreeOf(v)) && header != ""
  {
    var text := Canonical(c.less, v).value;
    var bytes := if Some(header) == Encoded(c, v) then c.utf8.encode(text) else MARK + c.utf8.encode(text);
    CanonicalBytesParse(c.utf8, c.num, c.less, v, bytes);
    DecodeEncode(bytes);
  }

  // The marked header is four characters longer, and only it decodes to bytes with a mark.
  lemma HeadersOf(c: Codec, v: Value)
    requires Sound(c) && WellFormed(c.num, v) && Plain(v)
    ensures Encoded(c, v).Some? && MarkedHeader(c, v).Some?
    ensures |MarkedHeader(c, v).value| == |Encoded(c, v).value| + 4
    ensures !CarriesMark(Encoded(c, v).value) && CarriesMark(MarkedHeader(c, v).value)
  {
    ParseCanonicalText(c.num, c.less, v);
    var text := Canonical(c.less, v).value;
    CanonicalBytesParse(c.utf8, c.num, c.less, v, c.utf8.encode(text));
    JsonHasNoMark(c.num, text);
    DecodeEncode(c.utf8.encode(text));
    DecodeEncode(MARK + c.utf8.encode(text));
  }

  /**
   * Every valid requirement whose encoding fits the absolute maximum comes back from its own
   * challenge with the same meaning; it is in the header exactly up to the interoperability
   * envelope; and beyond the maximum there is no challenge.
   */
  lemma ChallengeRoundTrip(c: Codec, v: Value)
    requires Sound(c) && WellFormed(c.num, v) && Plain(v) && c.schema(TreeOf(v))
    ensures Encoded(c, v).Some?
    ensures var r, length := HumanRequiredResponse(c, v), |Encoded(c, v).value|;
            && (r.Some? <==> length <= 65_536)
            && (r.Some? ==>
                  && (r.value.header.Some? <==> length <= 8_192)
                  && RequirementFromChallenge(c, r.value.header, Some(r.value.body)) == Some(TreeOf(v)))
  {
    ParseCanonicalText(c.num, c.less, v);
    if |Encoded(c, v).value| <= ABSOLUTE_MAX { DecodeEncoded(c, v, Encoded(c, v).value); }
  }

  /** A header that a client accepts is the encoding of the requirement it yields, bare or after a byte order mark. */
  lemma AcceptedHeaderIsCanonical(c: Codec, header: string, body: Option<Problem>) returns (v: Value)
    requires Sound(c) && header != "" && RequirementFromChallenge(c, Some(header), body).Some?
    ensures RequirementFromChallenge(c, Some(header), body) == Some(TreeOf(v)) && c.schema(TreeOf(v))
    ensures (Encoded(c, v) == Some(header) || MarkedHeader(c, v) == Some(header))
            && |header| <= 8_192 && WellFormed(c.num, v) && Plain(v)
  {
    EncodeDecode(header);
    v := AcceptedBytes(c, Decode(header).value);
  }

  lemma AcceptedBytes(c: Codec, bytes: seq<Byte>) returns (v: Value)
    requires Sound(c) && ParseCanonicalBytes(c.utf8, c.less, c.num, bytes).Some?
    ensures ParseCanonicalBytes(c.utf8, c.less, c.num, bytes) == Some(v) && WellFormed(c.num, v) && Plain(v)
    ensures Canonical(c.less, v).Some?
    ensures var coded := c.utf8.encode(Canonical(c.less, v).value); bytes == coded || bytes == MARK + coded
  {
    var text := DecodeText(c.utf8, bytes).value;
    v := Parse(c.num, text).value;
    DecodesExactly(c.utf8, bytes, text);
    ParsedWellFormed(c.num, text);
    NormalFormMeans(c.num, c.less, v);
  }

  /** Two headers that a client accepts as the same requirement are equal exactly when both or neither carry the mark. */
  lemma HeadersDetermine(c: Codec, h1: string, b1: Option<Problem>, h2: string, b2: Option<Problem>)
    requires Sound(c) && h1 != "" && h2 != ""
    requires RequirementFromChallenge(c, Some(h1), b1).Some?
    requires RequirementFromChallenge(c, Some(h1), b1) == RequirementFromChallenge(c, Some(h2), b2)
    ensures h1 == h2 <==> (CarriesMark(h1) <==> CarriesMark(h2))
  {
    var v := AcceptedHeaderIsCanonical(c, h1, b1);
    var w := AcceptedHeaderIsCanonical(c, h2, b2);
    CanonicalTextIsMeaning(c.num, c.less, v, w);
    HeadersOf(c, v);
  }

  /** The mark is a second header for every requirement that still fits with it. */
  lemma MarkedHeaderAccepted(c: Codec, v: Value)
    requires Sound(c) && WellFormed(c.num, v) && Plain(v) && c.schema(TreeOf(v))
    ensures Encoded(c, v).Some? && MarkedHeader(c, v).Some? && MarkedHeader(c, v) != Encoded(c, v)
    ensures RequirementFromChallenge(c, MarkedHeader(c, v), None)
            == if |Encoded(c, v).value| <= 8_188 then Some(TreeOf(v)) else None
  {
    HeadersOf(c, v);
    var header := MarkedHeader(c, v).value;
    if |header| <= INTEROP_ENVELOPE { DecodeEncoded(c, v, header); }
  }

  /** A challenge that carries both forms, or a body about another dependency, is refused. */
  lemma ConflictRefused(c: Codec, v: Value, p: Problem)
    requires Sound(c) && WellFormed(c.num, v) && Plain(v) && c.schema(TreeOf(v))
    requires Encoded(c, v).Some? && |Encoded(c, v).value| <= INTEROP_ENVELOPE
    ensures RequirementFromChallenge(c, Encoded(c, v), Some(p)) ==
              if ProblemValid(c, p) && p.mode == InHeader && Some(p.dependencyId) == DependencyOf(TreeOf(v)) then Some(TreeOf(v)) else None
  {
    DecodeEncoded(c, v, Encoded(c, v).value);
  }
}
