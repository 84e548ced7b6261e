/**
 * Agent requests end to end (src/agent.ts): the texts that are signed, written out, and the
 * verifier, which accepts what the signer signed within its time and nothing that was not signed.
 */
module AgentVerification {
  import opened Basics
  import D = Decimal
  import opened AgentSignature

  // ---------------------------------------------------------------- the signed texts

  lemma FieldText(name: string, body: string, rest: string)
    ensures StringField(name, body, rest) == ";" + name + "=\"" + body + "\"" + rest
  {
  }

  lemma NumberText(name: string, n: nat, rest: string)
    ensures IntegerField(name, n, rest) == ";" + name + "=" + D.Text(n) + rest
  {
  }

  // Key ID, algorithm, nonce and tag, in this order.
  lemma TailText(x: string, g: string, y: string)
    ensures StringTail(x, g, y) == ";keyid=\"" + x + "\"" + (";alg=\"" + g + "\"" + (";nonce=\"" + y + "\"" + ";tag=\"x424-agent\""))
  {
    TailUnfolds(x, g, y);
    TagText();
    FieldText("nonce", y, TAG_FIELD);
    FieldText("alg", g, StringField("nonce", y, TAG_FIELD));
    FieldText("keyid", x, StringField("alg", g, StringField("nonce", y, TAG_FIELD)));
    Heads();
  }

  lemma TagText()
    ensures TAG_FIELD == ";tag=\"x424-agent\""
  {
  }

  lemma Heads()
    ensures ";" + "keyid" + "=\"" == ";keyid=\"" && ";" + "alg" + "=\"" == ";alg=\"" && ";" + "nonce" + "=\"" == ";nonce=\""
  {
  }

  /** What the signer writes: the component list, the second of signing, that second and the lifetime, and the four strings. */
  lemma SignedText(cs: seq<string>, keyId: string, algorithm: Algorithm, nonce: string, now: nat, lifetime: int)
    ensures var p := SignParameters(cs, keyId, algorithm, nonce, now, lifetime);
            && (p.Some? <==> 1 <= lifetime <= 60 && Printable(keyId) && Printable(nonce))
            && (p.Some? ==>
                  p.value.serialized == "(" + ComponentList(cs) + ");created=" + D.Text(now / 1_000) + ";expires=" + D.Text(now / 1_000 + lifetime)
                                        + (";keyid=\"" + Escape(keyId) + "\"" + (";alg=\"" + AlgorithmText(algorithm) + "\""
                                           + (";nonce=\"" + Escape(nonce) + "\"" + ";tag=\"x424-agent\""))))
  {
    var p := SignParameters(cs, keyId, algorithm, nonce, now, lifetime);
    if p.Some? {
      TailText(Escape(keyId), AlgorithmText(algorithm), Escape(nonce));
      Opening(ComponentList(cs), p.value.created, p.value.expires, StringTail(Escape(keyId), AlgorithmText(algorithm), Escape(nonce)));
    }
  }

  lemma Opening(list: string, created: nat, expires: nat, tail: string)
    ensures "(" + (list + (")" + TimesText(created, expires, tail)))
            == "(" + list + ");created=" + D.Text(created) + ";expires=" + D.Text(expires) + tail
  {
    NumberText("expires", expires, tail);
    NumberText("created", created, IntegerField("expires", expires, tail));
  }

  lemma {:induction false} EscapeJoin(a: string, b: string)
    ensures Escape(a + b) == Escape(a) + Escape(b)
    decreases |a|
  {
    if a == "" {
      assert a + b == b;
    } else {
      assert (a + b)[1..] == a[1..] + b;
      EscapeJoin(a[1..], b);
    }
  }

  /** A quote or a backslash is written after a backslash; every other character stands for itself. */
  lemma EscapeText(a: string, c: char, b: string)
    ensures Escape(a + [c] + b) == Escape(a) + (if c == '\"' || c == '\\' then ['\\', c] else [c]) + Escape(b)
    ensures Escape("") == ""
  {
    EscapeJoin(a + [c], b);
    EscapeJoin(a, [c]);
    OneEscaped(c);
  }

  lemma OneEscaped(c: char)
    ensures Escape([c]) == if c == '\"' || c == '\\' then ['\\', c] else [c]
  {
    assert [c][1..] == "" && Escape("") == "";
  }

  /** Lowercasing takes each capital to its small letter and leaves every other character. */
  lemma LowerText(s: string, i: nat)
    requires i < |s|
    ensures |Lower(s)| == |s|
    ensures forall n :: 0 <= n < 26 && s[i] == "ABCDEFGHIJKLMNOPQRSTUVWXYZ"[n] ==> Lower(s)[i] == "abcdefghijklmnopqrstuvwxyz"[n]
    ensures s[i] !in "ABCDEFGHIJKLMNOPQRSTUVWXYZ" ==> Lower(s)[i] == s[i]
  {
    forall n | 0 <= n < 26 ensures "abcdefghijklmnopqrstuvwxyz"[n] == 'a' + n as char && "ABCDEFGHIJKLMNOPQRSTUVWXYZ"[n] == 'A' + n as char {
      Letters(n);
    }
    if 'A' <= s[i] <= 'Z' { assert "ABCDEFGHIJKLMNOPQRSTUVWXYZ"[s[i] as int - 'A' as int] == s[i]; }
  }

  lemma Letters(n: nat)
    requires n < 26
    ensures "abcdefghijklmnopqrstuvwxyz"[n] == 'a' + n as char
    ensures "ABCDEFGHIJKLMNOPQRSTUVWXYZ"[n] == 'A' + n as char
  {
  }

  function LineText(component: string, value: string): string { "\"" + component + "\": " + value + "\n" }

  lemma HeadLine(r: Request, component: string, more: seq<string>, serialized: string)
    requires Component(component) && ComponentValue(r, component).Some? && SignatureBase(r, more, serialized).Some?
    ensures SignatureBase(r, [component] + more, serialized)
            == Some(LineText(component, ComponentValue(r, component).value) + SignatureBase(r, more, serialized).value)
  {
    ComponentOneLine(component);
    assert ([component] + more)[1..] == more;
    LineEnds(component, ComponentValue(r, component).value, SignatureBase(r, more, serialized).value);
  }

  lemma LineEnds(component: string, value: string, rest: string)
    requires Escape(component) == component
    ensures Line(component, value) + ("\n" + rest) == LineText(component, value) + rest
  {
  }

  /** The base of a request without a body or covered headers: method, target URI and parameters, a line each. */
  lemma PlainBaseText(r: Request, serialized: string)
    requires !r.hasBody && "human-proof" !in r.headers && "payment-signature" !in r.headers
    ensures SignatureBase(r, SignatureComponents(r), serialized)
            == Some(LineText("@method", Lower(r.httpMethod)) + (LineText("@target-uri", r.url) + ("\"@signature-params\": " + serialized)))
  {
    KnownNames("@method");
    KnownNames("@target-uri");
    TwoLines(r, "@method", "@target-uri", serialized);
    assert SignatureComponents(r) == ["@method"] + (["@target-uri"] + []);
  }

  lemma TwoLines(r: Request, c: string, d: string, serialized: string)
    requires Component(c) && Component(d) && ComponentValue(r, c).Some? && ComponentValue(r, d).Some?
    ensures SignatureBase(r, [c] + ([d] + []), serialized)
            == Some(LineText(c, ComponentValue(r, c).value)
                    + (LineText(d, ComponentValue(r, d).value) + ("\"@signature-params\": " + serialized)))
  {
    HeadLine(r, d, [], serialized);
    HeadLine(r, c, [d] + [], serialized);
  }

  // ---------------------------------------------------------------- verification

  /**
   * verifyX424AgentRequest on a parsed request, in milliseconds: the key ID it binds, or None where
   * it throws. `digestHolds` is the comparison of the content digest, `verifies` the resolved key.
   */
  function Verify(r: Request, serialized: string, expectedNonce: Option<string>, now: nat, skew: int, digestHolds: bool,
                  verifies: (string, Algorithm, string) -> bool): Option<string>
  {
    var p := ParseParameters(serialized);
    if p.None? || !InWindow(p.value, now / 1_000, skew) then None
    else if expectedNonce.Some? && p.value.nonce != expectedNonce.value then None
    else if p.value.components != SignatureComponents(r) then None
    else if r.hasBody && !digestHolds then None
    else
      var base := SignatureBase(r, p.value.components, p.value.serialized);
      if base.None? || !verifies(p.value.keyId, p.value.algorithm, base.value) then None else Some(p.value.keyId)
  }

  predicate InWindow(p: Parameters, second: int, skew: int) {
    && p.created <= second + skew && p.expires >= second - skew
    && p.expires > p.created && p.expires - p.created <= 60
  }

  // Every check but the parsing, for parameters that cover this request.
  lemma VerifyParsed(r: Request, p: Parameters, expectedNonce: Option<string>, now: nat, skew: int, digestHolds: bool,
                     verifies: (string, Algorithm, string) -> bool)
    requires ParseParameters(p.serialized) == Some(p) && p.components == SignatureComponents(r)
    requires SignatureBase(r, p.components, p.serialized).Some?
    ensures Verify(r, p.serialized, expectedNonce, now, skew, digestHolds, verifies) == Some(p.keyId) <==>
              && InWindow(p, now / 1_000, skew) && (expectedNonce == None || expectedNonce == Some(p.nonce)) && (r.hasBody ==> digestHolds)
              && verifies(p.keyId, p.algorithm, SignatureBase(r, p.components, p.serialized).value)
  {
  }

  lemma SignedParse(r: Request, keyId: string, algorithm: Algorithm, nonce: string, signedAt: nat, lifetime: int)
    requires SignedBase(r, keyId, algorithm, nonce, signedAt, lifetime).Some? && Clean(keyId) && Clean(nonce)
    ensures var p := SignParameters(SignatureComponents(r), keyId, algorithm, nonce, signedAt, lifetime);
            && p.Some? && ParseParameters(p.value.serialized) == p && p.value.components == SignatureComponents(r)
            && p.value.keyId == keyId && p.value.algorithm == algorithm && p.value.nonce == nonce
            && p.value.created == signedAt / 1_000 && p.value.expires == signedAt / 1_000 + lifetime && 1 <= lifetime <= 60
            && SignatureBase(r, p.value.components, p.value.serialized) == SignedBase(r, keyId, algorithm, nonce, signedAt, lifetime)
  {
    RequiredComponents(r);
    SignedParametersRecovered(SignatureComponents(r), keyId, algorithm, nonce, signedAt, lifetime);
  }

  /**
   * What was signed verifies, as the signer's key ID, exactly from the second of signing to the end
   * of the lifetime, give or take the skew, under the nonce it was signed with, if the key accepts
   * the signature; for every key ID and nonce without quotes and backslashes.
   */
  lemma SignedVerifies(r: Request, keyId: string, algorithm: Algorithm, nonce: string, signedAt: nat, lifetime: int,
                       expectedNonce: Option<string>, now: nat, skew: int, digestHolds: bool, verifies: (string, Algorithm, string) -> bool)
    requires SignedBase(r, keyId, algorithm, nonce, signedAt, lifetime).Some? && Clean(keyId) && Clean(nonce)
    ensures var s := SignParameters(SignatureComponents(r), keyId, algorithm, nonce, signedAt, lifetime);
            && s.Some?
            && (Verify(r, s.value.serialized, expectedNonce, now, skew, digestHolds, verifies) == Some(keyId) <==>
                  && signedAt / 1_000 - skew <= now / 1_000 <= signedAt / 1_000 + lifetime + skew
                  && (expectedNonce == None || expectedNonce == Some(nonce)) && (r.hasBody ==> digestHolds)
                  && verifies(keyId, algorithm, SignedBase(r, keyId, algorithm, nonce, signedAt, lifetime).value))
  {
    SignedParse(r, keyId, algorithm, nonce, signedAt, lifetime);
    var p := SignParameters(SignatureComponents(r), keyId, algorithm, nonce, signedAt, lifetime).value;
    VerifyParsed(r, p, expectedNonce, now, skew, digestHolds, verifies);
    SignedWindow(p, signedAt / 1_000, lifetime, now / 1_000, skew);
  }

  lemma SignedWindow(p: Parameters, created: int, lifetime: int, second: int, skew: int)
    requires p.created == created && p.expires == created + lifetime && 1 <= lifetime <= 60
    ensures InWindow(p, second, skew) <==> created - skew <= second <= created + lifetime + skew
  {
  }

  // The key accepts only what its holder signed: the base of request q under these parameters.
  ghost predicate OnlySigned(verifies: (string, Algorithm, string) -> bool, q: Request, keyId: string, algorithm: Algorithm, nonce: string,
                             signedAt: nat, lifetime: int)
  {
    forall k, a, base :: verifies(k, a, base) ==> SignedBase(q, keyId, algorithm, nonce, signedAt, lifetime) == Some(base)
  }

  /**
   * And nothing else verifies: with a key whose holder signed request q once, an accepted request
   * is q up to the case of its method, covers the same headers with the same values, and, for key
   * IDs and nonces without quotes and backslashes, comes within the signed time and with its nonce.
   */
  lemma VerifiedWasSigned(r: Request, serialized: string, expectedNonce: Option<string>, now: nat, skew: int, digestHolds: bool,
                          verifies: (string, Algorithm, string) -> bool,
                          q: Request, keyId: string, algorithm: Algorithm, nonce: string, signedAt: nat, lifetime: int)
    requires OnlySigned(verifies, q, keyId, algorithm, nonce, signedAt, lifetime)
    requires OneLine(q.httpMethod) && OneLine(q.url) && OneLine(r.httpMethod) && OneLine(r.url) && '\n' !in serialized
    requires Verify(r, serialized, expectedNonce, now, skew, digestHolds, verifies).Some?
    ensures Lower(r.httpMethod) == Lower(q.httpMethod) && r.url == q.url && SignatureComponents(r) == SignatureComponents(q)
    ensures forall c :: c in SignatureComponents(q) ==> ComponentValue(r, c) == ComponentValue(q, c)
    ensures Clean(keyId) && Clean(nonce) ==>
              && Verify(r, serialized, expectedNonce, now, skew, digestHolds, verifies) == Some(keyId)
              && signedAt / 1_000 - skew <= now / 1_000 <= signedAt / 1_000 + lifetime + skew
              && (expectedNonce == None || expectedNonce == Some(nonce))
  {
    VerifiedBase(r, serialized, expectedNonce, now, skew, digestHolds, verifies);
    SameRequest(r, serialized, q, keyId, algorithm, nonce, signedAt, lifetime);
    if Clean(keyId) && Clean(nonce) {
      SignedParse(q, keyId, algorithm, nonce, signedAt, lifetime);
    }
  }

  // What an accepted request passed on its way.
  lemma VerifiedBase(r: Request, serialized: string, expectedNonce: Option<string>, now: nat, skew: int, digestHolds: bool,
                     verifies: (string, Algorithm, string) -> bool)
    requires Verify(r, serialized, expectedNonce, now, skew, digestHolds, verifies).Some?
    ensures var p := ParseParameters(serialized);
            && p.Some? && InWindow(p.value, now / 1_000, skew) && (expectedNonce == None || expectedNonce == Some(p.value.nonce))
            && Verify(r, serialized, expectedNonce, now, skew, digestHolds, verifies) == Some(p.value.keyId)
            && SignatureBase(r, SignatureComponents(r), serialized).Some?
            && verifies(p.value.keyId, p.value.algorithm, SignatureBase(r, SignatureComponents(r), serialized).value)
  {
    ParsedKeepsText(serialized);
  }

  lemma SameRequest(r: Request, serialized: string, q: Request, keyId: string, algorithm: Algorithm, nonce: string, signedAt: nat, lifetime: int)
    requires OneLine(q.httpMethod) && OneLine(q.url) && OneLine(r.httpMethod) && OneLine(r.url) && '\n' !in serialized
    requires SignedBase(q, keyId, algorithm, nonce, signedAt, lifetime).Some?
    requires SignedBase(q, keyId, algorithm, nonce, signedAt, lifetime) == SignatureBase(r, SignatureComponents(r), serialized)
    ensures Lower(r.httpMethod) == Lower(q.httpMethod) && r.url == q.url && SignatureComponents(r) == SignatureComponents(q)
    ensures forall c :: c in SignatureComponents(q) ==> ComponentValue(r, c) == ComponentValue(q, c)
    ensures SignParameters(SignatureComponents(q), keyId, algorithm, nonce, signedAt, lifetime).Some?
    ensures SignParameters(SignatureComponents(q), keyId, algorithm, nonce, signedAt, lifetime).value.serialized == serialized
  {
    var cs := SignatureComponents(q);
    RequiredComponents(r);
    RequiredComponents(q);
    SerializedOneLine(cs, keyId, algorithm, nonce, signedAt, lifetime);
    BaseDetermines(q, cs, SignParameters(cs, keyId, algorithm, nonce, signedAt, lifetime).value.serialized,
                   r, SignatureComponents(r), serialized);
    assert cs[0] in cs && cs[1] in cs;
  }

  /**
   * A signature covers what matters: two requests with the same components and values have the
   * same proof and payment headers, present or absent, and both or neither a body, with one digest.
   */
  lemma CoversWhatMatters(r: Request, q: Request)
    requires SignatureComponents(r) == SignatureComponents(q)
    requires forall c :: c in SignatureComponents(q) ==> ComponentValue(r, c) == ComponentValue(q, c) && ComponentValue(r, c).Some?
    ensures forall h :: h == "human-proof" || h == "payment-signature" ==>
              (h in r.headers <==> h in q.headers) && (h in r.headers ==> r.headers[h] == q.headers[h])
    ensures r.hasBody == q.hasBody
    ensures r.hasBody ==> "content-digest" in r.headers && "content-digest" in q.headers && r.headers["content-digest"] == q.headers["content-digest"]
  {
    CoversExactly(r);
    CoversExactly(q);
    assert "content-digest" != "human-proof" && "content-digest" != "@method" && "content-digest" != "@target-uri";
    assert "human-proof" != "@method" && "human-proof" != "@target-uri";
    assert "payment-signature" != "@method" && "payment-signature" != "@target-uri";
  }

  lemma CoversExactly(r: Request)
    ensures "@method" in SignatureComponents(r) && "@target-uri" in SignatureComponents(r)
    ensures "content-digest" in SignatureComponents(r) <==> r.hasBody
    ensures "human-proof" in SignatureComponents(r) <==> "human-proof" in r.headers
    ensures "payment-signature" in SignatureComponents(r) <==> "payment-signature" in r.headers
  {
    Names();
  }

  lemma Names()
    ensures "@method" != "@target-uri" && "content-digest" != "human-proof" && "content-digest" != "payment-signature"
    ensures "human-proof" != "payment-signature" && "content-digest" !in ["@method", "@target-uri"]
    ensures "human-proof" !in ["@method", "@target-uri"] && "payment-signature" !in ["@method", "@target-uri"]
  {
    assert |"@method"| == 7 && |"@target-uri"| == 11 && |"content-digest"| == 14 && |"human-proof"| == 11 && |"payment-signature"| == 17;
    assert "human-proof"[0] == 'h';
  }

  lemma ParsedKeepsText(serialized: string)
    ensures ParseParameters(serialized).Some? ==> ParseParameters(serialized).value.serialized == serialized
  {
  }
}
