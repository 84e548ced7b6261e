/**
 * parseCanonicalJsonBytes on bytes (src/canonical-json.ts, src/encoding.ts). The decoder is
 * TextDecoder with its defaults, which drops one leading byte order mark before it decodes.
 */
module CanonicalBytes {
  import opened Basics
  import opened Base64Url
  import opened CanonicalJson
  import opened CanonicalJsonLaws
  import opened CanonicalJsonText

  // EF BB BF, four 2-bit digits a byte.
  const MARK: seq<Byte> := [Byte(3, 2, 3, 3), Byte(2, 3, 2, 3), Byte(2, 3, 3, 3)]

  /** UTF-8: the encoder, and the decoder that rejects malformed bytes and keeps every character. */
  datatype Utf8 = Utf8(encode: string -> seq<Byte>, strict: seq<Byte> -> Option<string>)

  predicate BeginsWithMark(text: string) { text != "" && text[0] == '\U{FEFF}' }

  ghost predicate IsUtf8(u: Utf8) {
    && (forall s :: u.strict(u.encode(s)) == Some(s))
    && (forall bs :: u.strict(bs).Some? ==> u.encode(u.strict(bs).value) == bs)
    && (forall s :: s != "" ==> u.encode(s) != [])
    && (forall s :: MARK <= u.encode(s) <==> BeginsWithMark(s))
  }

  // decodeStrictUtf8
  function DecodeText(u: Utf8, bytes: seq<Byte>): Option<string> {
    u.strict(if MARK <= bytes then bytes[|MARK|..] else bytes)
  }

  function ParseCanonicalBytes(u: Utf8, less: Order, num: Reader, bytes: seq<Byte>): Option<Value> {
    var text := DecodeText(u, bytes);
    if text.None? then None else ParseCanonical(less, num, text.value)
  }

  /** The bytes that decode to a text are its encoding, with or without a mark; with one if the text begins with its own. */
  lemma DecodesExactly(u: Utf8, bytes: seq<Byte>, text: string)
    requires IsUtf8(u)
    ensures DecodeText(u, bytes) == Some(text) <==>
              bytes == MARK + u.encode(text) || (bytes == u.encode(text) && !BeginsWithMark(text))
  {
    assert (MARK + u.encode(text))[|MARK|..] == u.encode(text);
    if MARK <= bytes { assert bytes == MARK + bytes[|MARK|..]; }
    assert MARK <= u.encode(text) <==> BeginsWithMark(text);
  }

  // JSON white space does not include the mark, so no JSON text begins with it.
  lemma JsonHasNoMark(num: Reader, text: string)
    requires Parse(num, text).Some?
    ensures text != "" && !BeginsWithMark(text)
  {
    EmptyIsNoJson(num);
    if BeginsWithMark(text) { MarkIsNoJson(num, text); }
  }

  lemma EmptyIsNoJson(num: Reader)
    ensures Parse(num, "").None?
  {
  }

  lemma MarkIsNoJson(num: Reader, text: string)
    requires BeginsWithMark(text)
    ensures Parse(num, text).None?
  {
  }

  /** The byte parser accepts exactly the encodings of canonical texts, bare or after one mark. */
  lemma AcceptsExactlyCanonicalBytes(u: Utf8, num: Reader, less: Order, bytes: seq<Byte>)
    requires IsUtf8(u) && Lawful(num) && StrictTotal(less)
    ensures ParseCanonicalBytes(u, less, num, bytes).Some? <==>
              exists v :: WellFormed(num, v) && Canonical(less, v).Some?
                && (bytes == u.encode(Canonical(less, v).value) || bytes == MARK + u.encode(Canonical(less, v).value))
  {
    if ParseCanonicalBytes(u, less, num, bytes).Some? {
      var text := DecodeText(u, bytes).value;
      DecodesExactly(u, bytes, text);
      ParsedWellFormed(num, text);
      var v := Parse(num, text).value;
      assert WellFormed(num, v) && Canonical(less, v) == Some(text);
    }
    if v :| WellFormed(num, v) && Canonical(less, v).Some?
            && (bytes == u.encode(Canonical(less, v).value) || bytes == MARK + u.encode(Canonical(less, v).value)) {
      CanonicalBytesParse(u, num, less, v, bytes);
    }
  }

  lemma CanonicalBytesParse(u: Utf8, num: Reader, less: Order, v: Value, bytes: seq<Byte>)
    requires IsUtf8(u) && Lawful(num) && StrictTotal(less) && WellFormed(num, v) && Canonical(less, v).Some?
    requires var text := Canonical(less, v).value; bytes == u.encode(text) || bytes == MARK + u.encode(text)
    ensures u.encode(Canonical(less, v).value) != []
    ensures ParseCanonicalBytes(u, less, num, bytes).Some? && TreeOf(ParseCanonicalBytes(u, less, num, bytes).value) == TreeOf(v)
  {
    NormalFormMeans(num, less, v);
    ParseCanonicalText(num, less, v);
    JsonHasNoMark(num, Canonical(less, v).value);
    DecodesExactly(u, bytes, Canonical(less, v).value);
  }
}
