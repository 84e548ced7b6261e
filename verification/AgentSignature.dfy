/**
 * Agent request signatures (src/agent.ts): the Signature-Input text that the signer writes, the
 * parser that reads it back with regular-expression searches, and the signature base of section
 * 2.5 of RFC 9421.
 */
module AgentSignature {
  import opened Basics
  import D = Decimal
  import F = Framing

  // ---------------------------------------------------------------- quoting

  predicate Printable(s: string) { forall i :: 0 <= i < |s| ==> ' ' <= s[i] <= '~' }

  predicate QuoteFree(s: string) { '\"' !in s }

  predicate Clean(s: string) { '\"' !in s && '\\' !in s }

  function Escape(s: string): string
    decreases |s|
  {
    if s == "" then "" else (if s[0] == '\"' || s[0] == '\\' then ['\\', s[0]] else [s[0]]) + Escape(s[1..])
  }

  // None where quoted() throws.
  function Quoted(s: string): Option<string> {
    if Printable(s) then Some("\"" + Escape(s) + "\"") else None
  }

  lemma {:induction false} EscapeClean(s: string)
    ensures |Escape(s)| >= |s|
    ensures Escape(s) == s <==> Clean(s)
    ensures QuoteFree(s) ==> QuoteFree(Escape(s))
    ensures !Clean(s) ==> |Escape(s)| > |s|
    decreases |s|
  {
    if s != "" {
      EscapeClean(s[1..]);
      assert s == [s[0]] + s[1..];
      if s[0] != '\"' && s[0] != '\\' { assert Escape(s)[1..] == Escape(s[1..]); }
    }
  }

  // ---------------------------------------------------------------- the parameter text

  const AGENT_TAG := "x424-agent"

  lemma AgentTag()
    ensures AGENT_TAG != "" && AGENT_TAG[0] == 'x' && QuoteFree(AGENT_TAG) && Clean(AGENT_TAG) && '\n' !in AGENT_TAG
  {
  }

  datatype Algorithm = Ed25519 | Eip191 | Erc1271

  function AlgorithmText(a: Algorithm): string {
    match a case Ed25519 => "ed25519" case Eip191 => "eip191" case Erc1271 => "erc1271"
  }

  function AlgorithmOf(t: string): Option<Algorithm> {
    if t == "ed25519" then Some(Ed25519) else if t == "eip191" then Some(Eip191) else if t == "erc1271" then Some(Erc1271) else None
  }

  function StringField(name: string, body: string, rest: string): string { ";" + (name + "=\"" + (body + "\"" + rest)) }

  function IntegerField(name: string, n: nat, rest: string): string { ";" + (name + "=" + (D.Text(n) + rest)) }

  // What follows the component list; x and y are the key ID and the nonce as written between quotes.
  function ParamsText(created: nat, expires: nat, x: string, algorithm: string, y: string): string {
    TimesText(created, expires, StringTail(x, algorithm, y))
  }

  function TimesText(created: nat, expires: nat, rest: string): string {
    IntegerField("created", created, IntegerField("expires", expires, rest))
  }

  function StringFields(names: seq<string>, bodies: seq<string>): string
    requires |names| == |bodies|
    decreases |names|
  {
    if names == [] then "" else StringField(names[0], bodies[0], StringFields(names[1..], bodies[1..]))
  }

  const TAIL_NAMES := ["keyid", "alg", "nonce", "tag"]

  function Bodies(x: string, algorithm: string, y: string): (r: seq<string>)
    ensures |r| == 4
  {
    [x, algorithm, y, AGENT_TAG]
  }

  function StringTail(x: string, algorithm: string, y: string): string {
    StringFields(TAIL_NAMES, Bodies(x, algorithm, y))
  }

  lemma TailUnfolds(x: string, alg: string, y: string)
    ensures StringTail(x, alg, y) == StringField("keyid", x, StringField("alg", alg, StringField("nonce", y, TAG_FIELD)))
  {
    var bodies := [x, alg, y, AGENT_TAG];
    assert TAIL_NAMES[1..] == ["alg", "nonce", "tag"] && bodies[1..] == [alg, y, AGENT_TAG];
    assert ["alg", "nonce", "tag"][1..] == ["nonce", "tag"] && [alg, y, AGENT_TAG][1..] == [y, AGENT_TAG];
    assert ["nonce", "tag"][1..] == ["tag"] && [y, AGENT_TAG][1..] == [AGENT_TAG];
    assert StringFields(["tag"], [AGENT_TAG]) == TAG_FIELD;
    assert StringFields(["nonce", "tag"], [y, AGENT_TAG]) == StringField("nonce", y, TAG_FIELD);
    assert StringFields(["alg", "nonce", "tag"], [alg, y, AGENT_TAG]) == StringField("alg", alg, StringField("nonce", y, TAG_FIELD));
  }

  const TAG_FIELD := StringField("tag", AGENT_TAG, "")

  // ---------------------------------------------------------------- the searches

  function IndexOf(s: string, c: char): (i: nat)
    ensures i <= |s| && c !in s[..i] && (i < |s| ==> s[i] == c)
    decreases |s|
  {
    if s == "" || s[0] == c then 0
    else
      var i := IndexOf(s[1..], c) + 1;
      assert s[..i] == [s[0]] + s[1..][..i-1];
      i
  }

  predicate FieldEnds(s: string) { s == "" || s[0] == ';' }

  // name="([^"]*)" followed by a semicolon or the end.
  function StringHere(s: string, name: string): Option<string> {
    var head := name + "=\"";
    if !(head <= s) then None
    else
      var rest := s[|head|..];
      var q := IndexOf(rest, '\"');
      if q < |rest| && FieldEnds(rest[q+1..]) then Some(rest[..q]) else None
  }

  function DigitRun(s: string): (i: nat)
    ensures i <= |s| && D.Digits(s[..i]) && (i < |s| ==> !('0' <= s[i] <= '9'))
    decreases |s|
  {
    if s == "" || !('0' <= s[0] <= '9') then 0
    else
      var i := DigitRun(s[1..]) + 1;
      assert s[..i] == [s[0]] + s[1..][..i-1];
      i
  }

  // name=([0-9]+) followed by a semicolon or the end.
  function IntegerHere(s: string, name: string): Option<nat> {
    var head := name + "=";
    if !(head <= s) then None
    else
      var rest := s[|head|..];
      var n := DigitRun(rest);
      if n > 0 && FieldEnds(rest[n..]) then Some(D.NumberOf(rest[..n])) else None
  }

  // The leftmost match that begins at the start of the text or after a semicolon.
  function FindString(s: string, name: string, atStart: bool): Option<string>
    decreases |s|
  {
    if atStart && StringHere(s, name).Some? then StringHere(s, name)
    else if s == "" then None
    else if s[0] == ';' && StringHere(s[1..], name).Some? then StringHere(s[1..], name)
    else FindString(s[1..], name, false)
  }

  function FindInteger(s: string, name: string, atStart: bool): Option<nat>
    decreases |s|
  {
    if atStart && IntegerHere(s, name).Some? then IntegerHere(s, name)
    else if s == "" then None
    else if s[0] == ';' && IntegerHere(s[1..], name).Some? then IntegerHere(s[1..], name)
    else FindInteger(s[1..], name, false)
  }

  // ---------------------------------------------------------------- what the searches find

  predicate Name(s: string) { s != "" && forall i :: 0 <= i < |s| ==> 'a' <= s[i] <= 'z' }

  lemma {:induction false} SkipPlain(a: string, s: string, name: string)
    requires ';' !in a
    ensures FindString(a + s, name, false) == FindString(s, name, false)
    decreases |a|
  {
    if a == "" { assert a + s == s; }
    else {
      assert (a + s)[1..] == a[1..] + s;
      SkipPlain(a[1..], s, name);
    }
  }

  lemma NoHead(name: string, s: string)
    requires Name(name) && s != "" && s[0] == ';'
    ensures StringHere(s, name).None? && IntegerHere(s, name).None?
  {
    assert (name + "=\"")[0] == name[0] && (name + "=")[0] == name[0];
  }

  lemma {:induction false} QuoteIndex(body: string, rest: string)
    requires QuoteFree(body)
    ensures IndexOf(body + "\"" + rest, '\"') == |body|
    decreases |body|
  {
    if body == "" { assert body + "\"" + rest == "\"" + rest; }
    else {
      assert (body + "\"" + rest)[1..] == body[1..] + "\"" + rest;
      QuoteIndex(body[1..], rest);
    }
  }

  // A field matches its own name.
  lemma FieldMatches(name: string, body: string, rest: string, atStart: bool)
    requires Name(name) && QuoteFree(body) && FieldEnds(rest)
    ensures FindString(StringField(name, body, rest), name, atStart) == Some(body)
  {
    var s := StringField(name, body, rest);
    var head, after := name + "=\"", body + "\"" + rest;
    NoHead(name, s);
    assert s[1..] == head + after && (head + after)[|head|..] == after;
    QuoteIndex(body, rest);
    assert after[|body| + 1..] == rest && after[..|body|] == body;
  }

  // A field of another name does not match where it begins.
  lemma OtherName(name: string, other: string, x: string)
    requires Name(name) && Name(other) && name != other
    ensures StringHere(other + "=" + x, name).None? && IntegerHere(other + "=" + x, name).None?
  {
    var s, head := other + "=" + x, name + "=";
    if |name| < |other| { assert s[|name|] == other[|name|] && head[|name|] == '='; }
    else if |other| < |name| { assert s[|other|] == '=' && head[|other|] == name[|other|]; }
    else { assert s[..|name|] == other && head[..|name|] == name; }
    assert !(head <= s);
    assert (name + "=\"")[..|head|] == head;
  }

  // Nor does anything inside a quoted body, whatever it looks like: a match would have to end the
  // body with name= and then find a value that begins with a separator.
  lemma NothingInside(name: string, x: string, other: string, body: string, more: string)
    requires Name(name) && QuoteFree(x) && Name(other) && body != "" && 'a' <= body[0] <= 'z'
    ensures StringHere(x + "\"" + StringField(other, body, more), name).None?
  {
    var rest := StringField(other, body, more);
    var s, head := x + "\"" + rest, name + "=\"";
    assert forall k :: 0 <= k < |x| ==> s[k] == x[k];
    if |x| > |name| + 1 { assert s[|name| + 1] == x[|name| + 1] && head[|name| + 1] == '\"'; }
    else if |x| < |name| { assert s[|x|] == '\"' && head[|x|] == name[|x|]; }
    else if |x| == |name| { assert s[|x|] == '\"' && head[|x|] == '='; }
    else {
      assert s[|head|..] == rest;
      var before, after := ";" + other + "=", body + "\"" + more;
      assert rest == before + "\"" + after;
      QuoteIndex(before, after);
      assert rest[|before| + 1..] == after && after[0] == body[0];
    }
  }

  lemma {:induction false} SkipBody(name: string, x: string, other: string, body: string, more: string)
    requires Name(name) && QuoteFree(x) && Name(other) && body != "" && 'a' <= body[0] <= 'z'
    ensures FindString(x + "\"" + StringField(other, body, more), name, false) == FindString(StringField(other, body, more), name, false)
    decreases |x|
  {
    var rest := StringField(other, body, more);
    if x == "" { assert ("\"" + rest)[1..] == rest && x + "\"" + rest == "\"" + rest; }
    else {
      assert (x + "\"" + rest)[1..] == x[1..] + "\"" + rest;
      NothingInside(name, x[1..], other, body, more);
      SkipBody(name, x[1..], other, body, more);
    }
  }

  // So a search passes over fields of other names.
  lemma PassString(name: string, field: string, x: string, other: string, body: string, more: string, atStart: bool)
    requires Name(name) && Name(field) && name != field && QuoteFree(x) && Name(other) && body != "" && 'a' <= body[0] <= 'z'
    ensures FindString(StringField(field, x, StringField(other, body, more)), name, atStart)
            == FindString(StringField(other, body, more), name, false)
  {
    var rest := StringField(other, body, more);
    var s, tail := StringField(field, x, rest), x + "\"" + rest;
    NoHead(name, s);
    assert s[1..] == field + "=" + ("\"" + tail) && s[1..] == (field + "=\"") + tail;
    OtherName(name, field, "\"" + tail);
    SkipPlain(field + "=\"", tail, name);
    SkipBody(name, x, other, body, more);
  }

  lemma PassInteger(name: string, field: string, n: nat, rest: string, atStart: bool)
    requires Name(name) && Name(field) && name != field
    ensures FindString(IntegerField(field, n, rest), name, atStart) == FindString(rest, name, false)
  {
    var s := IntegerField(field, n, rest);
    NoHead(name, s);
    assert s[1..] == field + "=" + (D.Text(n) + rest) && s[1..] == (field + "=" + D.Text(n)) + rest;
    OtherName(name, field, D.Text(n) + rest);
    SkipPlain(field + "=" + D.Text(n), rest, name);
  }

  lemma {:induction false} SkipPlainInteger(a: string, s: string, name: string)
    requires ';' !in a
    ensures FindInteger(a + s, name, false) == FindInteger(s, name, false)
    decreases |a|
  {
    if a == "" { assert a + s == s; }
    else {
      assert (a + s)[1..] == a[1..] + s;
      SkipPlainInteger(a[1..], s, name);
    }
  }

  lemma PassIntegerForInteger(name: string, field: string, n: nat, rest: string, atStart: bool)
    requires Name(name) && Name(field) && name != field
    ensures FindInteger(IntegerField(field, n, rest), name, atStart) == FindInteger(rest, name, false)
  {
    var s := IntegerField(field, n, rest);
    NoHead(name, s);
    assert s[1..] == field + "=" + (D.Text(n) + rest) && s[1..] == (field + "=" + D.Text(n)) + rest;
    OtherName(name, field, D.Text(n) + rest);
    SkipPlainInteger(field + "=" + D.Text(n), rest, name);
  }

  lemma {:induction false} RunOfDigits(d: string, rest: string)
    requires D.Digits(d) && (rest == "" || !('0' <= rest[0] <= '9'))
    ensures DigitRun(d + rest) == |d|
    decreases |d|
  {
    if d == "" { assert d + rest == rest; }
    else {
      assert (d + rest)[1..] == d[1..] + rest;
      RunOfDigits(d[1..], rest);
    }
  }

  lemma IntegerMatches(name: string, n: nat, rest: string, atStart: bool)
    requires Name(name) && FieldEnds(rest)
    ensures FindInteger(IntegerField(name, n, rest), name, atStart) == Some(n)
  {
    var s := IntegerField(name, n, rest);
    var head, after := name + "=", D.Text(n) + rest;
    NoHead(name, s);
    assert s[1..] == head + after && (head + after)[|head|..] == after;
    RunOfDigits(D.Text(n), rest);
    assert after[|D.Text(n)|..] == rest && after[..|D.Text(n)|] == D.Text(n);
    D.NumberOfText(n);
  }

  // An algorithm name holds no separator, so nothing can match inside it.
  lemma PassAlg(name: string, alg: string, f3: string)
    requires Name(name) && name != "alg" && (forall i :: 0 <= i < |alg| ==> alg[i] != ';')
    ensures FindString(StringField("alg", alg, f3), name, false) == FindString(f3, name, false)
  {
    var s := StringField("alg", alg, f3);
    NoHead(name, s);
    assert s[1..] == "alg" + "=" + ("\"" + (alg + "\"" + f3)) && s[1..] == ("alg=\"" + alg + "\"") + f3;
    OtherName(name, "alg", "\"" + (alg + "\"" + f3));
    SkipPlain("alg=\"" + alg + "\"", f3, name);
  }

  // What all algorithm names have in common.
  predicate AlgorithmName(s: string) { s != "" && 'a' <= s[0] <= 'z' && QuoteFree(s) && ';' !in s }

  lemma AlgorithmNames(a: Algorithm)
    ensures AlgorithmName(AlgorithmText(a)) && AlgorithmOf(AlgorithmText(a)) == Some(a)
  {
  }

  lemma FoundAlg(x: string, alg: string, f3: string, atStart: bool)
    requires QuoteFree(x) && FieldEnds(f3) && AlgorithmName(alg)
    ensures FindString(StringField("keyid", x, StringField("alg", alg, f3)), "alg", atStart) == Some(alg)
  {
    PassString("alg", "keyid", x, "alg", alg, f3, atStart);
    FieldMatches("alg", alg, f3, false);
  }

  lemma FoundLater(name: string, x: string, alg: string, f3: string, atStart: bool)
    requires Name(name) && name != "keyid" && name != "alg" && QuoteFree(x) && AlgorithmName(alg)
    ensures FindString(StringField("keyid", x, StringField("alg", alg, f3)), name, atStart) == FindString(f3, name, false)
  {
    PassString(name, "keyid", x, "alg", alg, f3, atStart);
    PassAlg(name, alg, f3);
  }

  lemma FoundLast(name: string, before: string, y: string, body: string)
    requires Name(name) && Name(before) && name != before && QuoteFree(y) && QuoteFree(body) && body != "" && 'a' <= body[0] <= 'z'
    ensures FindString(StringField(before, y, StringField(name, body, "")), name, false) == Some(body)
  {
    PassString(name, before, y, name, body, "", false);
    FieldMatches(name, body, "", false);
  }

  lemma FoundTag(y: string)
    requires QuoteFree(y)
    ensures FindString(StringField("nonce", y, StringField("tag", AGENT_TAG, "")), "tag", false) == Some(AGENT_TAG)
  {
    AgentTag();
    FoundLast("tag", "nonce", y, AGENT_TAG);
  }

  lemma NonceInTail(x: string, alg: string, y: string, atStart: bool)
    requires QuoteFree(x) && QuoteFree(y) && AlgorithmName(alg)
    ensures FindString(StringTail(x, alg, y), "nonce", atStart) == Some(y)
  {
    TailUnfolds(x, alg, y);
    FoundLater("nonce", x, alg, StringField("nonce", y, TAG_FIELD), atStart);
    FieldMatches("nonce", y, TAG_FIELD, false);
  }

  lemma TagInTail(x: string, alg: string, y: string, atStart: bool)
    requires QuoteFree(x) && QuoteFree(y) && AlgorithmName(alg)
    ensures FindString(StringTail(x, alg, y), "tag", atStart) == Some(AGENT_TAG)
  {
    TailUnfolds(x, alg, y);
    FoundLater("tag", x, alg, StringField("nonce", y, TAG_FIELD), atStart);
    FoundTag(y);
  }

  lemma NamesInTail(x: string, alg: string, y: string, atStart: bool)
    requires QuoteFree(x) && QuoteFree(y) && AlgorithmName(alg)
    ensures FindString(StringTail(x, alg, y), "keyid", atStart) == Some(x) && FindString(StringTail(x, alg, y), "alg", atStart) == Some(alg)
  {
    TailUnfolds(x, alg, y);
    var f3 := StringField("nonce", y, TAG_FIELD);
    FieldMatches("keyid", x, StringField("alg", alg, f3), atStart);
    FoundAlg(x, alg, f3, atStart);
  }

  lemma CreatedFound(created: nat, expires: nat, x: string, alg: string, y: string)
    ensures FindInteger(ParamsText(created, expires, x, alg, y), "created", true) == Some(created)
  {
    IntegerMatches("created", created, IntegerField("expires", expires, StringTail(x, alg, y)), true);
  }

  lemma ExpiresFound(created: nat, expires: nat, x: string, alg: string, y: string)
    ensures FindInteger(ParamsText(created, expires, x, alg, y), "expires", true) == Some(expires)
  {
    var tail := StringTail(x, alg, y);
    PassIntegerForInteger("expires", "created", created, IntegerField("expires", expires, tail), true);
    IntegerMatches("expires", expires, tail, false);
  }

  lemma PassTwoIntegers(name: string, f1: string, n1: nat, f2: string, n2: nat, tail: string)
    requires Name(name) && Name(f1) && Name(f2) && name != f1 && name != f2
    ensures FindString(IntegerField(f1, n1, IntegerField(f2, n2, tail)), name, true) == FindString(tail, name, false)
  {
    PassInteger(name, f1, n1, IntegerField(f2, n2, tail), true);
    PassInteger(name, f2, n2, tail, false);
  }

  lemma AfterTimes(created: nat, expires: nat, tail: string, name: string)
    requires Name(name) && name != "created" && name != "expires"
    ensures FindString(TimesText(created, expires, tail), name, true) == FindString(tail, name, false)
  {
    PassTwoIntegers(name, "created", created, "expires", expires, tail);
  }

  // The fields that parseParameters reads out of a parameter text.
  datatype Fields = Fields(
    created: Option<nat>, expires: Option<nat>, keyId: Option<string>, algorithm: Option<string>,
    nonce: Option<string>, tag: Option<string>)

  function FieldsOf(t: string): Fields {
    Fields(FindInteger(t, "created", true), FindInteger(t, "expires", true), FindString(t, "keyid", true),
           FindString(t, "alg", true), FindString(t, "nonce", true), FindString(t, "tag", true))
  }

  /** What the searches find in a parameter text: exactly what stands between the quotes. */
  lemma FoundInParams(created: nat, expires: nat, x: string, alg: string, y: string)
    requires QuoteFree(x) && QuoteFree(y) && AlgorithmName(alg)
    ensures FieldsOf(ParamsText(created, expires, x, alg, y))
            == Fields(Some(created), Some(expires), Some(x), Some(alg), Some(y), Some(AGENT_TAG))
  {
    CreatedFound(created, expires, x, alg, y);
    ExpiresFound(created, expires, x, alg, y);
    KeyIdFound(created, expires, x, alg, y);
    AlgorithmFound(created, expires, x, alg, y);
    NonceFound(created, expires, x, alg, y);
    TagFound(created, expires, x, alg, y);
  }

  lemma KeyIdFound(created: nat, expires: nat, x: string, alg: string, y: string)
    requires QuoteFree(x) && QuoteFree(y) && AlgorithmName(alg)
    ensures FindString(ParamsText(created, expires, x, alg, y), "keyid", true) == Some(x)
  {
    AfterTimes(created, expires, StringTail(x, alg, y), "keyid");
    NamesInTail(x, alg, y, false);
  }

  lemma AlgorithmFound(created: nat, expires: nat, x: string, alg: string, y: string)
    requires QuoteFree(x) && QuoteFree(y) && AlgorithmName(alg)
    ensures FindString(ParamsText(created, expires, x, alg, y), "alg", true) == Some(alg)
  {
    AfterTimes(created, expires, StringTail(x, alg, y), "alg");
    NamesInTail(x, alg, y, false);
  }

  lemma NonceFound(created: nat, expires: nat, x: string, alg: string, y: string)
    requires QuoteFree(x) && QuoteFree(y) && AlgorithmName(alg)
    ensures FindString(ParamsText(created, expires, x, alg, y), "nonce", true) == Some(y)
  {
    AfterTimes(created, expires, StringTail(x, alg, y), "nonce");
    NonceInTail(x, alg, y, false);
  }

  lemma TagFound(created: nat, expires: nat, x: string, alg: string, y: string)
    requires QuoteFree(x) && QuoteFree(y) && AlgorithmName(alg)
    ensures FindString(ParamsText(created, expires, x, alg, y), "tag", true) == Some(AGENT_TAG)
  {
    AfterTimes(created, expires, StringTail(x, alg, y), "tag");
    TagInTail(x, alg, y, false);
  }

  // ---------------------------------------------------------------- signing and parsing

  datatype Parameters = Parameters(
    components: seq<string>, created: nat, expires: nat, keyId: string, algorithm: Algorithm, nonce: string, serialized: string)

  function Joined(lines: seq<string>, sep: string): string
    decreases |lines|
  {
    if |lines| == 0 then "" else if |lines| == 1 then lines[0] else lines[0] + sep + Joined(lines[1..], sep)
  }

  predicate ComponentChar(c: char) { ' ' <= c <= '~' && c != '\"' && c != '\\' && c != '(' && c != ')' }

  predicate Component(s: string) { s != "" && forall i :: 0 <= i < |s| ==> ComponentChar(s[i]) }

  function QuotedAll(components: seq<string>): (r: seq<string>)
    ensures |r| == |components|
    decreases |components|
  {
    if components == [] then [] else ["\"" + Escape(components[0]) + "\""] + QuotedAll(components[1..])
  }

  function ComponentList(components: seq<string>): string { Joined(QuotedAll(components), " ") }

  function Serialized(components: seq<string>, created: nat, expires: nat, keyId: string, algorithm: Algorithm, nonce: string): string {
    "(" + (ComponentList(components) + (")" + ParamsText(created, expires, Escape(keyId), AlgorithmText(algorithm), Escape(nonce))))
  }

  /** The Signature-Input parameters that the signer writes; None where it throws. `now` is in milliseconds. */
  function SignParameters(components: seq<string>, keyId: string, algorithm: Algorithm, nonce: string, now: nat, lifetime: int): Option<Parameters> {
    if !(1 <= lifetime <= 60) || !Printable(keyId) || !Printable(nonce) then None
    else
      var created := now / 1_000;
      Some(Parameters(components, created, created + lifetime, keyId, algorithm, nonce,
                      Serialized(components, created, created + lifetime, keyId, algorithm, nonce)))
  }

  // Leftmost "([^"\\]+)" matches, one after another.
  function MatchAll(s: string): seq<string>
    decreases |s|
  {
    if s == "" then []
    else if s[0] == '\"' then
      var rest := s[1..];
      var q := IndexOf(rest, '\"');
      if 0 < q < |rest| && '\\' !in rest[..q] then [rest[..q]] + MatchAll(rest[q+1..]) else MatchAll(rest)
    else MatchAll(s[1..])
  }

  // parseParameters, once the component list and the parameters have been cut apart.
  function ParseParts(list: string, params: string, serialized: string): Option<Parameters> {
    var components := MatchAll(list);
    var f := FieldsOf(params);
    if components == [] || (exists c :: c in components && !Printable(c)) || ComponentList(components) != list then None
    else if f.algorithm.None? || AlgorithmOf(f.algorithm.value).None? || f.tag != Some(AGENT_TAG) then None
    else if f.created.None? || f.expires.None? || f.keyId.None? || f.nonce.None? then None
    else Some(Parameters(components, f.created.value, f.expires.value, f.keyId.value,
                         AlgorithmOf(f.algorithm.value).value, f.nonce.value, serialized))
  }

  /** parseParameters, on the value after the label; None where it throws. */
  function ParseParameters(serialized: string): Option<Parameters> {
    var listEnd := IndexOf(serialized, ')');
    if listEnd == |serialized| || listEnd < 1 || serialized[0] != '(' then None
    else ParseParts(serialized[1..listEnd], serialized[listEnd + 1..], serialized)
  }

  lemma MatchOne(c: string, tail: string)
    requires c != "" && Clean(c)
    ensures MatchAll("\"" + (c + "\"" + tail)) == [c] + MatchAll(tail)
  {
    var rest := c + "\"" + tail;
    assert ("\"" + rest)[1..] == rest;
    QuoteIndex(c, tail);
    assert rest[..|c|] == c && rest[|c| + 1..] == tail;
  }

  lemma {:induction false} MatchesList(components: seq<string>)
    requires forall c :: c in components ==> Component(c)
    ensures MatchAll(ComponentList(components)) == components
    decreases |components|
  {
    if components != [] {
      var c, more := components[0], components[1..];
      assert c in components && forall x :: x in more ==> x in components;
      assert components == [c] + more;
      MatchesList(more);
      var list := ComponentList(more);
      var tail := if more == [] then "" else " " + list;
      ListOf(c, more, tail);
      MatchOne(c, tail);
      MatchSpace(list);
    }
  }

  // A character that no component can contain is not in the list either.
  lemma {:induction false} ListLacks(components: seq<string>, x: char)
    requires (forall c :: c in components ==> Component(c)) && !ComponentChar(x) && x != '\"'
    ensures x !in ComponentList(components)
    decreases |components|
  {
    if components != [] {
      var c, more := components[0], components[1..];
      assert c in components && forall d :: d in more ==> d in components;
      assert components == [c] + more;
      ListLacks(more, x);
      ListOf(c, more, if more == [] then "" else " " + ComponentList(more));
      assert x !in c;
    }
  }

  lemma MatchSpace(list: string)
    ensures MatchAll(" " + list) == MatchAll(list)
  {
    assert (" " + list)[1..] == list;
  }

  lemma ListOf(c: string, more: seq<string>, tail: string)
    requires Clean(c) && tail == if more == [] then "" else " " + ComponentList(more)
    ensures ComponentList([c] + more) == "\"" + (c + "\"" + tail)
  {
    EscapeClean(c);
    var q := "\"" + Escape(c) + "\"";
    assert ([c] + more)[1..] == more;
    assert QuotedAll([c] + more) == [q] + QuotedAll(more);
    assert ([q] + QuotedAll(more))[1..] == QuotedAll(more);
    assert Joined([q] + QuotedAll(more), " ") == q + tail;
  }

  lemma {:induction false} IndexAt(body: string, c: char, rest: string)
    requires c !in body
    ensures IndexOf(body + ([c] + rest), c) == |body|
    decreases |body|
  {
    if body == "" { assert body + ([c] + rest) == [c] + rest; }
    else {
      assert (body + ([c] + rest))[1..] == body[1..] + ([c] + rest);
      IndexAt(body[1..], c, rest);
    }
  }

  lemma ClosingParen(list: string, params: string)
    requires ')' !in list
    ensures var s := "(" + (list + (")" + params)); IndexOf(s, ')') == |list| + 1 && s[1..|list| + 1] == list && s[|list| + 2..] == params
  {
    IndexAt("(" + list, ')', params);
    assert "(" + (list + (")" + params)) == ("(" + list) + ([')'] + params);
  }

  predicate Covered(components: seq<string>) { components != [] && forall c :: c in components ==> Component(c) }

  lemma PartsRead(components: seq<string>, created: nat, expires: nat, x: string, algorithm: Algorithm, y: string, serialized: string)
    requires Covered(components) && QuoteFree(x) && QuoteFree(y)
    ensures ParseParts(ComponentList(components), ParamsText(created, expires, x, AlgorithmText(algorithm), y), serialized)
            == Some(Parameters(components, created, expires, x, algorithm, y, serialized))
  {
    MatchesList(components);
    AlgorithmNames(algorithm);
    FoundInParams(created, expires, x, AlgorithmText(algorithm), y);
  }

  // parseParameters reads what stands between the quotes, whatever it contains but a quote.
  lemma ParseSerialized(components: seq<string>, created: nat, expires: nat, keyId: string, algorithm: Algorithm, nonce: string)
    requires Covered(components) && QuoteFree(keyId) && QuoteFree(nonce)
    ensures var s := Serialized(components, created, expires, keyId, algorithm, nonce);
            ParseParameters(s) == Some(Parameters(components, created, expires, Escape(keyId), algorithm, Escape(nonce), s))
  {
    var params := ParamsText(created, expires, Escape(keyId), AlgorithmText(algorithm), Escape(nonce));
    ListLacks(components, ')');
    ClosingParen(ComponentList(components), params);
    EscapeClean(keyId);
    EscapeClean(nonce);
    PartsRead(components, created, expires, Escape(keyId), algorithm, Escape(nonce),
              Serialized(components, created, expires, keyId, algorithm, nonce));
  }

  // A parsed key ID or nonce never holds a quote.
  lemma {:induction false} FoundIsQuoteFree(s: string, name: string, atStart: bool)
    ensures FindString(s, name, atStart).Some? ==> QuoteFree(FindString(s, name, atStart).value)
    decreases |s|
  {
    if s != "" { FoundIsQuoteFree(s[1..], name, false); }
  }

  /**
   * The verifier recovers exactly what was signed, even when a key ID or nonce contains text like
   * ;name=, if and only if neither contains a quote or a backslash.
   */
  lemma SignedParametersRecovered(components: seq<string>, keyId: string, algorithm: Algorithm, nonce: string, now: nat, lifetime: int)
    requires Covered(components) && SignParameters(components, keyId, algorithm, nonce, now, lifetime).Some?
    ensures var p := SignParameters(components, keyId, algorithm, nonce, now, lifetime);
            ParseParameters(p.value.serialized) == p <==> Clean(keyId) && Clean(nonce)
  {
    var p := SignParameters(components, keyId, algorithm, nonce, now, lifetime).value;
    if QuoteFree(keyId) && QuoteFree(nonce) { RecoveredEscaped(components, p.created, p.expires, keyId, algorithm, nonce); }
    else { ParsedIsQuoteFree(p.serialized); }
  }

  lemma RecoveredEscaped(components: seq<string>, created: nat, expires: nat, keyId: string, algorithm: Algorithm, nonce: string)
    requires Covered(components) && QuoteFree(keyId) && QuoteFree(nonce)
    ensures var s := Serialized(components, created, expires, keyId, algorithm, nonce);
            ParseParameters(s) == Some(Parameters(components, created, expires, keyId, algorithm, nonce, s)) <==> Clean(keyId) && Clean(nonce)
  {
    ParseSerialized(components, created, expires, keyId, algorithm, nonce);
    EscapeClean(keyId);
    EscapeClean(nonce);
  }

  lemma ParsedIsQuoteFree(serialized: string)
    ensures var p := ParseParameters(serialized); p.Some? ==> QuoteFree(p.value.keyId) && QuoteFree(p.value.nonce)
  {
    var listEnd := IndexOf(serialized, ')');
    if listEnd < |serialized| {
      FoundIsQuoteFree(serialized[listEnd + 1..], "keyid", true);
      FoundIsQuoteFree(serialized[listEnd + 1..], "nonce", true);
    }
  }

  // ---------------------------------------------------------------- the signature base

  /** A request as the signer sees it; header values are trimmed, as Headers.get returns them. */
  datatype Request = Request(httpMethod: string, url: string, headers: map<string, string>, hasBody: bool)

  function Lower(s: string): string {
    seq(|s|, i requires 0 <= i < |s| => if 'A' <= s[i] <= 'Z' then s[i] - 'A' + 'a' else s[i])
  }

  function SignatureComponents(r: Request): seq<string> {
    ["@method", "@target-uri"]
    + (if r.hasBody then ["content-digest"] else [])
    + (if "human-proof" in r.headers then ["human-proof"] else [])
    + (if "payment-signature" in r.headers then ["payment-signature"] else [])
  }

  predicate OneLine(s: string) { '\n' !in s && '\r' !in s }

  function ComponentValue(r: Request, component: string): Option<string> {
    if component == "@method" then Some(Lower(r.httpMethod))
    else if component == "@target-uri" then Some(r.url)
    else if component !in r.headers || !OneLine(r.headers[component]) then None
    else Some(r.headers[component])
  }

  function Line(component: string, value: string): string { "\"" + (Escape(component) + ("\"" + (": " + value))) }

  // signatureBase, before UTF-8; None where it throws.
  function SignatureBase(r: Request, components: seq<string>, serialized: string): Option<string>
    decreases |components|
  {
    if components == [] then Some("\"@signature-params\": " + serialized)
    else
      var value := ComponentValue(r, components[0]);
      var rest := SignatureBase(r, components[1..], serialized);
      if value.None? || rest.None? || !Printable(components[0]) then None
      else Some(Line(components[0], value.value) + ("\n" + rest.value))
  }

  const PARAMS_LINE := "\"@signature-params\": "

  // Everything that goes on one line is on one line.
  ghost predicate Signable(r: Request, serialized: string) { OneLine(r.httpMethod) && OneLine(r.url) && '\n' !in serialized }

  lemma LowerOneLine(s: string)
    requires OneLine(s)
    ensures OneLine(Lower(s))
  {
    forall i | 0 <= i < |s| ensures Lower(s)[i] != '\n' && Lower(s)[i] != '\r' { assert s[i] in s; }
  }

  lemma LineIsOneLine(r: Request, component: string)
    requires OneLine(r.httpMethod) && OneLine(r.url) && Component(component) && ComponentValue(r, component).Some?
    ensures '\n' !in Line(component, ComponentValue(r, component).value)
    ensures Line(component, ComponentValue(r, component).value) == "\"" + (component + ("\"" + (": " + ComponentValue(r, component).value)))
  {
    ComponentOneLine(component);
    ValueOneLine(r, component);
    PlainLine(component, ComponentValue(r, component).value);
  }

  lemma ComponentOneLine(component: string)
    requires Component(component)
    ensures '\n' !in component && Escape(component) == component
  {
    EscapeClean(component);
    forall i | 0 <= i < |component| ensures component[i] != '\n' {}
  }

  lemma ValueOneLine(r: Request, component: string)
    requires OneLine(r.httpMethod) && OneLine(r.url) && ComponentValue(r, component).Some?
    ensures '\n' !in ComponentValue(r, component).value
  {
    LowerOneLine(r.httpMethod);
  }

  lemma PlainLine(component: string, value: string)
    requires '\n' !in component && '\n' !in value && Escape(component) == component
    ensures '\n' !in Line(component, value) && Line(component, value) == "\"" + (component + ("\"" + (": " + value)))
  {
  }

  lemma BaseHasLines(r: Request, components: seq<string>, serialized: string)
    requires '\n' !in serialized && SignatureBase(r, components, serialized).Some?
    ensures '\n' in SignatureBase(r, components, serialized).value <==> components != []
  {
    if components != [] {
      var line := Line(components[0], ComponentValue(r, components[0]).value);
      var rest := SignatureBase(r, components[1..], serialized).value;
      assert (line + ("\n" + rest))[|line|] == '\n';
    }
  }

  lemma LineDetermines(c: string, v: string, d: string, u: string)
    requires Clean(c) && Clean(d)
    requires "\"" + (c + ("\"" + (": " + v))) == "\"" + (d + ("\"" + (": " + u)))
    ensures c == d && v == u
  {
    var x, y := ": " + v, ": " + u;
    assert ("\"" + (c + ("\"" + x)))[1..] == c + ['\"'] + x && ("\"" + (d + ("\"" + y)))[1..] == d + ['\"'] + y;
    F.FirstCut(c, x, d, y, '\"');
    assert x[2..] == v && y[2..] == u;
  }

  /** Equal signature bases cover the same components with the same values and the same parameters. */
  lemma {:induction false} BaseDetermines(r1: Request, cs1: seq<string>, s1: string, r2: Request, cs2: seq<string>, s2: string)
    requires Signable(r1, s1) && Signable(r2, s2)
    requires (forall c :: c in cs1 ==> Component(c)) && (forall c :: c in cs2 ==> Component(c))
    requires SignatureBase(r1, cs1, s1).Some? && SignatureBase(r1, cs1, s1) == SignatureBase(r2, cs2, s2)
    ensures cs1 == cs2 && s1 == s2 && forall c :: c in cs1 ==> ComponentValue(r1, c) == ComponentValue(r2, c)
    decreases |cs1|
  {
    BaseHasLines(r1, cs1, s1);
    BaseHasLines(r2, cs2, s2);
    if cs1 != [] && cs2 != [] {
      var c1, c2, more1, more2 := cs1[0], cs2[0], cs1[1..], cs2[1..];
      assert c1 in cs1 && c2 in cs2 && (forall c :: c in more1 ==> c in cs1) && (forall c :: c in more2 ==> c in cs2);
      LineIsOneLine(r1, c1);
      LineIsOneLine(r2, c2);
      var v1, v2 := ComponentValue(r1, c1).value, ComponentValue(r2, c2).value;
      CutLine(Line(c1, v1), SignatureBase(r1, more1, s1).value, Line(c2, v2), SignatureBase(r2, more2, s2).value);
      LineDetermines(c1, v1, c2, v2);
      BaseDetermines(r1, more1, s1, r2, more2, s2);
      assert cs1 == [c1] + more1 && cs2 == [c2] + more2;
    } else {
      assert (PARAMS_LINE + s1)[|PARAMS_LINE|..] == s1 && (PARAMS_LINE + s2)[|PARAMS_LINE|..] == s2;
    }
  }

  lemma CutLine(a: string, x: string, b: string, y: string)
    requires '\n' !in a && '\n' !in b && a + ("\n" + x) == b + ("\n" + y)
    ensures a == b && x == y
  {
    assert a + ("\n" + x) == a + ['\n'] + x && b + ("\n" + y) == b + ['\n'] + y;
    F.FirstCut(a, x, b, y, '\n');
  }

  predicate KnownName(c: string) {
    c == "@method" || c == "@target-uri" || c == "content-digest" || c == "human-proof" || c == "payment-signature"
  }

  lemma KnownNames(c: string)
    requires KnownName(c)
    ensures Component(c)
  {
    if c == "@method" { assert Component("@method"); }
    else if c == "@target-uri" { assert Component("@target-uri"); }
    else if c == "content-digest" { assert Component("content-digest"); }
    else if c == "human-proof" { assert Component("human-proof"); }
    else { assert Component("payment-signature"); }
  }

  lemma RequiredComponents(r: Request)
    ensures Covered(SignatureComponents(r)) && SignatureComponents(r)[0] == "@method" && SignatureComponents(r)[1] == "@target-uri"
  {
    forall c | c in SignatureComponents(r) ensures Component(c) {
      assert KnownName(c);
      KnownNames(c);
    }
  }

  lemma SerializedOneLine(components: seq<string>, keyId: string, algorithm: Algorithm, nonce: string, now: nat, lifetime: int)
    requires SignParameters(components, keyId, algorithm, nonce, now, lifetime).Some? && Covered(components)
    ensures '\n' !in SignParameters(components, keyId, algorithm, nonce, now, lifetime).value.serialized
  {
    ListLacks(components, '\n');
    EscapeOneLine(keyId);
    EscapeOneLine(nonce);
    var p := SignParameters(components, keyId, algorithm, nonce, now, lifetime).value;
    ParamsOneLine(p.created, p.expires, Escape(keyId), AlgorithmText(algorithm), Escape(nonce));
  }

  lemma {:induction false} EscapeOneLine(s: string)
    requires Printable(s)
    ensures '\n' !in Escape(s)
    decreases |s|
  {
    if s != "" { EscapeOneLine(s[1..]); }
  }

  lemma ParamsOneLine(created: nat, expires: nat, x: string, alg: string, y: string)
    requires '\n' !in x && '\n' !in alg && '\n' !in y
    ensures '\n' !in ParamsText(created, expires, x, alg, y)
  {
    assert '\n' !in D.Text(created) && '\n' !in D.Text(expires);
    AgentTag();
    assert '\n' !in StringField("tag", AGENT_TAG, "");
    assert '\n' !in StringField("nonce", y, TAG_FIELD);
    assert '\n' !in StringField("alg", alg, StringField("nonce", y, TAG_FIELD));
    TailUnfolds(x, alg, y);
    assert '\n' !in StringTail(x, alg, y);
    assert '\n' !in IntegerField("expires", expires, StringTail(x, alg, y));
  }

  // ---------------------------------------------------------------- the serialized text determines its parts

  lemma EscapeBegins(a: string, x: string)
    ensures (Escape(a) + ("\"" + x))[0] == '\"' <==> a == ""
  {
  }

  // An escaped text and the quote that closes it can be cut off in one way only.
  lemma {:induction false} EscapeCut(a: string, x: string, b: string, y: string)
    requires Escape(a) + ("\"" + x) == Escape(b) + ("\"" + y)
    ensures a == b && x == y
    decreases |a|
  {
    EscapeBegins(a, x);
    EscapeBegins(b, y);
    if a == "" {
      assert (Escape(a) + ("\"" + x))[1..] == x && (Escape(b) + ("\"" + y))[1..] == y;
    } else {
      var s, t := Escape(a) + ("\"" + x), Escape(b) + ("\"" + y);
      EscapeTail(a, x);
      EscapeTail(b, y);
      assert a[0] == b[0];
      EscapeCut(a[1..], x, b[1..], y);
      assert a == [a[0]] + a[1..] && b == [b[0]] + b[1..];
    }
  }

  lemma EscapeTail(a: string, x: string)
    requires a != ""
    ensures var s, special := Escape(a) + ("\"" + x), a[0] == '\"' || a[0] == '\\';
            && |s| > (if special then 2 else 1)
            && (s[0] == '\\' <==> special) && s[if special then 1 else 0] == a[0]
            && s[if special then 2 else 1..] == Escape(a[1..]) + ("\"" + x)
  {
    var head := if a[0] == '\"' || a[0] == '\\' then ['\\', a[0]] else [a[0]];
    var tail := Escape(a[1..]) + ("\"" + x);
    assert Escape(a) + ("\"" + x) == head + tail;
    assert (head + tail)[|head|..] == tail;
  }

  lemma StringFieldIs(name: string, body: string, x: string)
    ensures StringField(name, body, x) == (";" + name + "=\"") + (body + ("\"" + x))
  {
  }

  lemma SameAfter(head: string, s: string, t: string)
    requires head + s == head + t
    ensures s == t
  {
    assert (head + s)[|head|..] == s && (head + t)[|head|..] == t;
  }

  lemma FieldBodies(name: string, a: string, x: string, b: string, y: string)
    requires StringField(name, a, x) == StringField(name, b, y)
    ensures a + ("\"" + x) == b + ("\"" + y)
  {
    StringFieldIs(name, a, x);
    StringFieldIs(name, b, y);
    SameAfter(";" + name + "=\"", a + ("\"" + x), b + ("\"" + y));
  }

  lemma StringFieldCut(name: string, a: string, x: string, b: string, y: string)
    requires StringField(name, Escape(a), x) == StringField(name, Escape(b), y)
    ensures a == b && x == y
  {
    FieldBodies(name, Escape(a), x, Escape(b), y);
    EscapeCut(a, x, b, y);
  }

  lemma IntegerFieldCut(name: string, m: nat, x: string, n: nat, y: string)
    requires x != "" && x[0] == ';' && y != "" && y[0] == ';'
    requires IntegerField(name, m, x) == IntegerField(name, n, y)
    ensures m == n && x == y
  {
    var i := |name| + 2;
    assert IntegerField(name, m, x)[i..] == D.Text(m) + x && IntegerField(name, n, y)[i..] == D.Text(n) + y;
    assert x == [';'] + x[1..] && y == [';'] + y[1..];
    assert D.Text(m) + x == D.Text(m) + [';'] + x[1..] && D.Text(n) + y == D.Text(n) + [';'] + y[1..];
    F.FirstCut(D.Text(m), x[1..], D.Text(n), y[1..], ';');
    D.NumberOfText(m);
    D.NumberOfText(n);
  }

  lemma TimesDetermine(c1: nat, e1: nat, x: string, c2: nat, e2: nat, y: string)
    requires x != "" && x[0] == ';' && y != "" && y[0] == ';' && TimesText(c1, e1, x) == TimesText(c2, e2, y)
    ensures c1 == c2 && e1 == e2 && x == y
  {
    IntegerFieldCut("created", c1, IntegerField("expires", e1, x), c2, IntegerField("expires", e2, y));
    IntegerFieldCut("expires", e1, x, e2, y);
  }

  predicate Escaped(bodies: seq<string>, values: seq<string>)
    decreases |bodies|
  {
    |bodies| == |values|
    && (bodies != [] ==> bodies[0] == Escape(values[0]) && Escaped(bodies[1..], values[1..]))
  }

  lemma EscapedMore(value: string, bodies: seq<string>, values: seq<string>)
    requires Escaped(bodies, values)
    ensures Escaped([Escape(value)] + bodies, [value] + values)
  {
    assert ([Escape(value)] + bodies)[1..] == bodies && ([value] + values)[1..] == values;
  }

  lemma {:induction false} FieldsDetermine(names: seq<string>, xs: seq<string>, vs: seq<string>, ys: seq<string>, ws: seq<string>)
    requires |names| == |xs| == |ys| && Escaped(xs, vs) && Escaped(ys, ws) && StringFields(names, xs) == StringFields(names, ys)
    ensures vs == ws
    decreases |names|
  {
    if names != [] {
      StringFieldCut(names[0], vs[0], StringFields(names[1..], xs[1..]), ws[0], StringFields(names[1..], ys[1..]));
      FieldsDetermine(names[1..], xs[1..], vs[1..], ys[1..], ws[1..]);
      assert vs == [vs[0]] + vs[1..] && ws == [ws[0]] + ws[1..];
    }
  }

  lemma FieldsBegin(names: seq<string>, bodies: seq<string>)
    requires |names| == |bodies| && names != []
    ensures StringFields(names, bodies) != "" && StringFields(names, bodies)[0] == ';'
  {
  }

  lemma RestDetermines(list: string, c1: nat, e1: nat, c2: nat, e2: nat,
                       names: seq<string>, xs: seq<string>, vs: seq<string>, ys: seq<string>, ws: seq<string>)
    requires names != [] && |names| == |xs| == |ys| && Escaped(xs, vs) && Escaped(ys, ws)
    requires "(" + (list + (")" + TimesText(c1, e1, StringFields(names, xs)))) == "(" + (list + (")" + TimesText(c2, e2, StringFields(names, ys))))
    ensures c1 == c2 && e1 == e2 && vs == ws
  {
    AfterList(list, TimesText(c1, e1, StringFields(names, xs)), TimesText(c2, e2, StringFields(names, ys)));
    FieldsBegin(names, xs);
    FieldsBegin(names, ys);
    TimesDetermine(c1, e1, StringFields(names, xs), c2, e2, StringFields(names, ys));
    FieldsDetermine(names, xs, vs, ys, ws);
  }

  /** Escaping loses nothing: the serialized text determines every parameter, quotes and backslashes included. */
  lemma SerializedDetermines(cs: seq<string>, c1: nat, e1: nat, k1: string, a1: Algorithm, n1: string,
                             c2: nat, e2: nat, k2: string, a2: Algorithm, n2: string)
    requires Serialized(cs, c1, e1, k1, a1, n1) == Serialized(cs, c2, e2, k2, a2, n2)
    ensures c1 == c2 && e1 == e2 && k1 == k2 && a1 == a2 && n1 == n2
  {
    var g1, g2 := AlgorithmText(a1), AlgorithmText(a2);
    var vs, ws := Bodies(k1, g1, n1), Bodies(k2, g2, n2);
    var xs, ys := Bodies(Escape(k1), g1, Escape(n1)), Bodies(Escape(k2), g2, Escape(n2));
    BodiesEscape(k1, a1, n1);
    BodiesEscape(k2, a2, n2);
    RestDetermines(ComponentList(cs), c1, e1, c2, e2, TAIL_NAMES, xs, vs, ys, ws);
    BodiesDetermine(k1, a1, n1, k2, a2, n2);
  }

  lemma EscapesToItself(s: string)
    requires Clean(s)
    ensures Escape(s) == s
  {
    EscapeClean(s);
  }

  lemma BodiesEscape(k: string, a: Algorithm, n: string)
    ensures Escaped(Bodies(Escape(k), AlgorithmText(a), Escape(n)), Bodies(k, AlgorithmText(a), n))
  {
    AgentTag();
    EscapesToItself(AGENT_TAG);
    AlgorithmEscapes(a);
    FourEscape(k, AlgorithmText(a), n, AGENT_TAG);
  }

  lemma FourEscape(k: string, g: string, n: string, t: string)
    ensures Escaped([Escape(k), Escape(g), Escape(n), Escape(t)], [k, g, n, t])
  {
    EscapedMore(t, [], []);
    EscapedMore(n, [Escape(t)] + [], [t] + []);
    EscapedMore(g, [Escape(n)] + ([Escape(t)] + []), [n] + ([t] + []));
    EscapedMore(k, [Escape(g)] + ([Escape(n)] + ([Escape(t)] + [])), [g] + ([n] + ([t] + [])));
    FourOf(Escape(k), Escape(g), Escape(n), Escape(t));
    FourOf(k, g, n, t);
  }

  lemma FourOf(k: string, g: string, n: string, t: string)
    ensures [k] + ([g] + ([n] + ([t] + []))) == [k, g, n, t]
  {
  }

  lemma BodiesDetermine(k1: string, a1: Algorithm, n1: string, k2: string, a2: Algorithm, n2: string)
    requires Bodies(k1, AlgorithmText(a1), n1) == Bodies(k2, AlgorithmText(a2), n2)
    ensures k1 == k2 && a1 == a2 && n1 == n2
  {
    var vs, ws := Bodies(k1, AlgorithmText(a1), n1), Bodies(k2, AlgorithmText(a2), n2);
    assert vs[0] == ws[0] && vs[1] == ws[1] && vs[2] == ws[2];
    AlgorithmNames(a1);
    AlgorithmNames(a2);
  }

  lemma AlgorithmEscapes(a: Algorithm)
    ensures Escape(AlgorithmText(a)) == AlgorithmText(a)
  {
    EscapeClean(AlgorithmText(a));
  }

  lemma AfterList(list: string, p: string, q: string)
    requires "(" + (list + (")" + p)) == "(" + (list + (")" + q))
    ensures p == q
  {
    var n := |list| + 2;
    assert ("(" + (list + (")" + p)))[n..] == p && ("(" + (list + (")" + q)))[n..] == q;
  }

  /**
   * A signature for one request and one set of parameters never fits another: equal bases mean
   * equal lowercased method, target URI, covered headers, and parameters.
   */
  lemma SignatureFitsOneRequest(r1: Request, k1: string, a1: Algorithm, n1: string, t1: nat, l1: int,
                                r2: Request, k2: string, a2: Algorithm, n2: string, t2: nat, l2: int)
    requires OneLine(r1.httpMethod) && OneLine(r1.url) && OneLine(r2.httpMethod) && OneLine(r2.url)
    requires SignedBase(r1, k1, a1, n1, t1, l1).Some?
    requires SignedBase(r1, k1, a1, n1, t1, l1) == SignedBase(r2, k2, a2, n2, t2, l2)
    ensures Lower(r1.httpMethod) == Lower(r2.httpMethod) && r1.url == r2.url
    ensures SignatureComponents(r1) == SignatureComponents(r2)
    ensures forall c :: c in SignatureComponents(r1) ==> ComponentValue(r1, c) == ComponentValue(r2, c)
    ensures k1 == k2 && a1 == a2 && n1 == n2 && t1 / 1_000 == t2 / 1_000 && l1 == l2
  {
    RequiredComponents(r1);
    RequiredComponents(r2);
    CoveredFitsOne(r1, SignatureComponents(r1), k1, a1, n1, t1, l1, r2, SignatureComponents(r2), k2, a2, n2, t2, l2);
  }

  // What signX424AgentRequest signs over these components; None where it throws.
  function BaseOver(r: Request, cs: seq<string>, keyId: string, algorithm: Algorithm, nonce: string, now: nat, lifetime: int): Option<string> {
    var p := SignParameters(cs, keyId, algorithm, nonce, now, lifetime);
    if p.None? then None else SignatureBase(r, cs, p.value.serialized)
  }

  function SignedBase(r: Request, keyId: string, algorithm: Algorithm, nonce: string, now: nat, lifetime: int): Option<string> {
    BaseOver(r, SignatureComponents(r), keyId, algorithm, nonce, now, lifetime)
  }

  lemma CoveredFitsOne(r1: Request, cs1: seq<string>, k1: string, a1: Algorithm, n1: string, t1: nat, l1: int,
                       r2: Request, cs2: seq<string>, k2: string, a2: Algorithm, n2: string, t2: nat, l2: int)
    requires OneLine(r1.httpMethod) && OneLine(r1.url) && OneLine(r2.httpMethod) && OneLine(r2.url)
    requires Covered(cs1) && Covered(cs2) && cs1[0] == "@method" && |cs1| > 1 && cs1[1] == "@target-uri"
    requires BaseOver(r1, cs1, k1, a1, n1, t1, l1).Some? && BaseOver(r1, cs1, k1, a1, n1, t1, l1) == BaseOver(r2, cs2, k2, a2, n2, t2, l2)
    ensures Lower(r1.httpMethod) == Lower(r2.httpMethod) && r1.url == r2.url && cs1 == cs2
    ensures forall c :: c in cs1 ==> ComponentValue(r1, c) == ComponentValue(r2, c)
    ensures k1 == k2 && a1 == a2 && n1 == n2 && t1 / 1_000 == t2 / 1_000 && l1 == l2
  {
    var p1, p2 := SignParameters(cs1, k1, a1, n1, t1, l1).value, SignParameters(cs2, k2, a2, n2, t2, l2).value;
    SerializedOneLine(cs1, k1, a1, n1, t1, l1);
    SerializedOneLine(cs2, k2, a2, n2, t2, l2);
    BaseDetermines(r1, cs1, p1.serialized, r2, cs2, p2.serialized);
    SameParameters(cs1, k1, a1, n1, t1, l1, k2, a2, n2, t2, l2);
    assert cs1[0] in cs1 && cs1[1] in cs1;
  }

  lemma SameParameters(cs: seq<string>, k1: string, a1: Algorithm, n1: string, t1: nat, l1: int,
                       k2: string, a2: Algorithm, n2: string, t2: nat, l2: int)
    requires SignParameters(cs, k1, a1, n1, t1, l1).Some? && SignParameters(cs, k2, a2, n2, t2, l2).Some?
    requires SignParameters(cs, k1, a1, n1, t1, l1).value.serialized == SignParameters(cs, k2, a2, n2, t2, l2).value.serialized
    ensures k1 == k2 && a1 == a2 && n1 == n2 && t1 / 1_000 == t2 / 1_000 && l1 == l2
  {
    SerializedDetermines(cs, t1 / 1_000, t1 / 1_000 + l1, k1, a1, n1, t2 / 1_000, t2 / 1_000 + l2, k2, a2, n2);
  }

  /** Two requests that differ only in the case of their method have one base, and no others do. */
  lemma MethodCaseIsLost(r: Request, other: string, keyId: string, algorithm: Algorithm, nonce: string, now: nat, lifetime: int)
    requires OneLine(r.httpMethod) && OneLine(r.url) && OneLine(other) && SignedBase(r, keyId, algorithm, nonce, now, lifetime).Some?
    ensures SignedBase(r.(httpMethod := other), keyId, algorithm, nonce, now, lifetime) == SignedBase(r, keyId, algorithm, nonce, now, lifetime)
            <==> Lower(other) == Lower(r.httpMethod)
  {
    var r2 := r.(httpMethod := other);
    var serialized := SignParameters(SignatureComponents(r), keyId, algorithm, nonce, now, lifetime).value.serialized;
    if Lower(other) == Lower(r.httpMethod) {
      SameLines(r, r2, SignatureComponents(r), serialized);
    } else if SignedBase(r2, keyId, algorithm, nonce, now, lifetime) == SignedBase(r, keyId, algorithm, nonce, now, lifetime) {
      SignatureFitsOneRequest(r, keyId, algorithm, nonce, now, lifetime, r2, keyId, algorithm, nonce, now, lifetime);
    }
  }

  lemma {:induction false} SameLines(r: Request, r2: Request, components: seq<string>, serialized: string)
    requires Lower(r.httpMethod) == Lower(r2.httpMethod) && r2 == r.(httpMethod := r2.httpMethod)
    ensures SignatureBase(r2, components, serialized) == SignatureBase(r, components, serialized)
    decreases |components|
  {
    if components != [] { SameLines(r, r2, components[1..], serialized); }
  }
}
