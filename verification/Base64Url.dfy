/** Strict base64url (src/encoding.ts), sections 3.5 and 5 of RFC 4648. */
module Base64Url {
  import opened Basics

  type Crumb = n: int | 0 <= n < 4

  /** A byte is four 2-bit digits, most significant first, and a base64 sextet is three. */
  datatype Byte = Byte(a: Crumb, b: Crumb, c: Crumb, d: Crumb)
  datatype Sextet = Sextet(a: Crumb, b: Crumb, c: Crumb)

  function Index(x: Sextet): (n: int)
    ensures 0 <= n < 64
  {
    x.a * 16 + x.b * 4 + x.c
  }

  function SextetAt(n: int): (x: Sextet)
    requires 0 <= n < 64
    ensures Index(x) == n
  {
    var a := if n < 16 then 0 else if n < 32 then 1 else if n < 48 then 2 else 3;
    var rest := n - 16 * a;
    var b := if rest < 4 then 0 else if rest < 8 then 1 else if rest < 12 then 2 else 3;
    Sextet(a, b, rest - 4 * b)
  }

  function Symbol(x: Sextet): char {
    var n := Index(x);
    if n < 26 then 'A' + n as char
    else if n < 52 then 'a' + (n - 26) as char
    else if n < 62 then '0' + (n - 52) as char
    else if n == 62 then '+' else '/'
  }

  predicate Standard(c: char) {
    'A' <= c <= 'Z' || 'a' <= c <= 'z' || '0' <= c <= '9' || c == '+' || c == '/'
  }

  function Bits(c: char): Sextet
    requires Standard(c)
  {
    SextetAt(
      if 'A' <= c <= 'Z' then c as int - 'A' as int
      else if 'a' <= c <= 'z' then c as int - 'a' as int + 26
      else if '0' <= c <= '9' then c as int - '0' as int + 52
      else if c == '+' then 62 else 63)
  }

  predicate AllStandard(s: string) { forall i :: 0 <= i < |s| ==> Standard(s[i]) }

  // ---------------------------------------------------------------- the platform's btoa and atob

  function Split(bs: seq<Byte>): seq<Sextet> {
    if |bs| == 0 then []
    else
      var x := bs[0];
      if |bs| == 1 then [Sextet(x.a, x.b, x.c), Sextet(x.d, 0, 0)]
      else
        var y := bs[1];
        if |bs| == 2 then [Sextet(x.a, x.b, x.c), Sextet(x.d, y.a, y.b), Sextet(y.c, y.d, 0)]
        else
          var z := bs[2];
          [Sextet(x.a, x.b, x.c), Sextet(x.d, y.a, y.b), Sextet(y.c, y.d, z.a), Sextet(z.b, z.c, z.d)] + Split(bs[3..])
  }

  // Trailing digits that do not fill a byte are dropped.
  function Packed(xs: seq<Sextet>): Option<seq<Byte>> {
    if |xs| == 0 then Some([])
    else if |xs| == 1 then None
    else
      var x := Byte(xs[0].a, xs[0].b, xs[0].c, xs[1].a);
      if |xs| == 2 then Some([x])
      else
        var y := Byte(xs[1].b, xs[1].c, xs[2].a, xs[2].b);
        if |xs| == 3 then Some([x, y])
        else
          var rest := Packed(xs[4..]);
          if rest.None? then None else Some([x, y, Byte(xs[2].c, xs[3].a, xs[3].b, xs[3].c)] + rest.value)
  }

  function Symbols(xs: seq<Sextet>): string { seq(|xs|, i requires 0 <= i < |xs| => Symbol(xs[i])) }

  function BitsOf(s: string): seq<Sextet>
    requires AllStandard(s)
  {
    seq(|s|, i requires 0 <= i < |s| => Bits(s[i]))
  }

  function Unpadded(bs: seq<Byte>): string { Symbols(Split(bs)) }

  function Pads(n: nat): string { if n == 0 then "" else Pads(n - 1) + "=" }

  function Padding(length: nat): string { Pads((4 - length % 4) % 4) }

  function Btoa(bs: seq<Byte>): string { Unpadded(bs) + Padding(|Unpadded(bs)|) }

  function DropPad(s: string): string {
    if s != "" && s[|s|-1] == '=' then s[..|s|-1] else s
  }

  function Atob(s: string): Option<seq<Byte>> {
    var core := if |s| % 4 == 0 then DropPad(DropPad(s)) else s;
    if AllStandard(core) then Packed(BitsOf(core)) else None
  }

  // ---------------------------------------------------------------- encode and decode

  function ToUrl(c: char): char { if c == '+' then '-' else if c == '/' then '_' else c }

  function ToStandard(c: char): char { if c == '-' then '+' else if c == '_' then '/' else c }

  function Mapped(f: char -> char, s: string): (r: string)
    ensures |r| == |s| && forall i :: 0 <= i < |s| ==> r[i] == f(s[i])
  {
    seq(|s|, i requires 0 <= i < |s| => f(s[i]))
  }

  function StripPads(s: string): string {
    if s != "" && s[|s|-1] == '=' then StripPads(s[..|s|-1]) else s
  }

  function Encode(bs: seq<Byte>): string { StripPads(Mapped(ToUrl, Btoa(bs))) }

  predicate UrlChar(c: char) {
    'A' <= c <= 'Z' || 'a' <= c <= 'z' || '0' <= c <= '9' || c == '-' || c == '_'
  }

  predicate UrlText(s: string) { forall i :: 0 <= i < |s| ==> UrlChar(s[i]) }

  function Binary(value: string): Option<seq<Byte>> { Atob(Mapped(ToStandard, value) + Padding(|value|)) }

  function Decode(value: string): Option<seq<Byte>> {
    if value == "" || !UrlText(value) then None
    else
      var bytes := Binary(value);
      if bytes.None? || Encode(bytes.value) != value then None else bytes
  }

  method EncodeStrict(bytes: array<Byte>) returns (text: string)
    ensures text == Encode(bytes[..])
  {
    var binary: seq<Byte> := [];
    for index := 0 to bytes.Length
      invariant binary == bytes[..index]
    {
      binary := binary + [bytes[index]];
    }
    assert bytes[..] == bytes[..bytes.Length];
    text := StripPads(Mapped(ToUrl, Btoa(binary)));
  }

  method Bytes(binary: seq<Byte>) returns (bytes: array<Byte>)
    ensures fresh(bytes) && bytes[..] == binary
  {
    bytes := new Byte[|binary|](_ => Byte(0, 0, 0, 0));
    for index := 0 to |binary|
      invariant bytes[..index] == binary[..index]
    {
      bytes[index] := binary[index];
    }
    assert bytes[..] == bytes[..|binary|] && binary == binary[..|binary|];
  }

  method DecodeStrict(value: string) returns (r: Option<array<Byte>>)
    ensures r.Some? == Decode(value).Some?
    ensures r.Some? ==> fresh(r.value) && r.value[..] == Decode(value).value
  {
    if value == "" || !UrlText(value) { return None; }
    var binary := Binary(value);
    if binary.None? { return None; }
    var bytes := Bytes(binary.value);
    var again := EncodeStrict(bytes);
    r := if again == value then Some(bytes) else None;
  }

  // ---------------------------------------------------------------- laws

  lemma SymbolsAreStandard(xs: seq<Sextet>)
    ensures AllStandard(Symbols(xs)) && BitsOf(Symbols(xs)) == xs
  {
    forall i | 0 <= i < |xs| ensures Standard(Symbol(xs[i])) && Bits(Symbol(xs[i])) == xs[i] { BitsOfSymbol(xs[i]); }
  }

  lemma BitsOfSymbol(x: Sextet)
    ensures Standard(Symbol(x)) && Bits(Symbol(x)) == x
  {
    IndexInjective(x, SextetAt(Index(x)));
  }

  lemma IndexInjective(x: Sextet, y: Sextet)
    requires Index(x) == Index(y)
    ensures x == y
  {
  }

  lemma SymbolOfBits(c: char)
    requires Standard(c)
    ensures Symbol(Bits(c)) == c
  {
  }

  lemma SymbolsOfBits(s: string)
    requires AllStandard(s)
    ensures Symbols(BitsOf(s)) == s
  {
    forall i | 0 <= i < |s| ensures Symbol(Bits(s[i])) == s[i] { SymbolOfBits(s[i]); }
  }

  // The unused low digits of the last sextet are zero.
  predicate CleanTail(xs: seq<Sextet>) {
    && (|xs| % 4 == 2 ==> xs[|xs|-1].b == 0 && xs[|xs|-1].c == 0)
    && (|xs| % 4 == 3 ==> xs[|xs|-1].c == 0)
  }

  lemma {:induction false} PackedSplit(bs: seq<Byte>)
    ensures Packed(Split(bs)) == Some(bs)
  {
    if |bs| == 1 { assert bs == [bs[0]]; }
    if |bs| == 2 { assert bs == [bs[0], bs[1]]; }
    if |bs| >= 3 {
      PackedSplit(bs[3..]);
      assert Split(bs)[4..] == Split(bs[3..]);
      assert bs == [bs[0], bs[1], bs[2]] + bs[3..];
    }
  }

  lemma {:induction false} SplitLength(bs: seq<Byte>)
    ensures |Split(bs)| == (4 * |bs| + 2) / 3
  {
    if |bs| >= 3 { SplitLength(bs[3..]); }
  }

  lemma {:induction false} PackedSome(xs: seq<Sextet>)
    ensures Packed(xs).Some? <==> |xs| % 4 != 1
  {
    if |xs| >= 4 { PackedSome(xs[4..]); }
  }

  lemma CleanTailOfRest(xs: seq<Sextet>)
    requires |xs| >= 4
    ensures CleanTail(xs) <==> CleanTail(xs[4..])
  {
    if |xs| > 4 { assert xs[4..][|xs|-5] == xs[|xs|-1]; }
  }

  lemma SplitOfGroup(x: Byte, y: Byte, z: Byte, rest: seq<Byte>)
    ensures Split([x, y, z] + rest)
            == [Sextet(x.a, x.b, x.c), Sextet(x.d, y.a, y.b), Sextet(y.c, y.d, z.a), Sextet(z.b, z.c, z.d)] + Split(rest)
  {
    assert ([x, y, z] + rest)[3..] == rest;
  }

  lemma SameGroup(group: seq<Sextet>, split: seq<Sextet>, xs: seq<Sextet>)
    requires |group| == 4 <= |xs| && group == xs[..4]
    ensures group + split == xs <==> split == xs[4..]
  {
    assert xs == xs[..4] + xs[4..];
    assert (group + split)[4..] == split;
  }

  lemma SplitGroup(xs: seq<Sextet>)
    requires |xs| >= 4 && Packed(xs[4..]).Some?
    ensures Split(Packed(xs).value) == xs <==> Split(Packed(xs[4..]).value) == xs[4..]
  {
    var rest := Packed(xs[4..]).value;
    var x, y := Byte(xs[0].a, xs[0].b, xs[0].c, xs[1].a), Byte(xs[1].b, xs[1].c, xs[2].a, xs[2].b);
    var z := Byte(xs[2].c, xs[3].a, xs[3].b, xs[3].c);
    assert Packed(xs).value == [x, y, z] + rest;
    SplitOfGroup(x, y, z, rest);
    SameGroup([xs[0], xs[1], xs[2], xs[3]], Split(rest), xs);
  }

  lemma {:induction false} SplitPacked(xs: seq<Sextet>)
    requires Packed(xs).Some?
    ensures Split(Packed(xs).value) == xs <==> CleanTail(xs)
  {
    if |xs| == 2 {
      assert Split(Packed(xs).value)[1] == Sextet(xs[1].a, 0, 0);
    } else if |xs| == 3 {
      assert Split(Packed(xs).value)[2] == Sextet(xs[2].a, xs[2].b, 0);
    } else if |xs| >= 4 {
      SplitPacked(xs[4..]);
      CleanTailOfRest(xs);
      SplitGroup(xs);
    }
  }

  lemma StripOnce(s: string, pads: string)
    requires s == "" || s[|s|-1] != '='
    requires forall i :: 0 <= i < |pads| ==> pads[i] == '='
    ensures StripPads(s + pads) == s
    decreases |pads|
  {
    if pads == "" { assert s + pads == s; }
    else {
      assert (s + pads)[..|s + pads| - 1] == s + pads[..|pads|-1];
      StripOnce(s, pads[..|pads|-1]);
    }
  }

  // Encoding is the unpadded standard text in the URL-safe alphabet.
  lemma EncodeIsUnpadded(bs: seq<Byte>)
    ensures Encode(bs) == Mapped(ToUrl, Unpadded(bs)) && AllStandard(Unpadded(bs))
  {
    var u := Unpadded(bs);
    SymbolsAreStandard(Split(bs));
    var core, pads := Mapped(ToUrl, u), Padding(|u|);
    PadsLength((4 - |u| % 4) % 4);
    assert Mapped(ToUrl, Btoa(bs)) == core + pads;
    StripOnce(core, pads);
  }

  lemma StandardOfUrl(s: string)
    requires AllStandard(s)
    ensures UrlText(Mapped(ToUrl, s)) && Mapped(ToStandard, Mapped(ToUrl, s)) == s
  {
  }

  lemma UrlOfStandard(s: string)
    requires UrlText(s)
    ensures AllStandard(Mapped(ToStandard, s)) && Mapped(ToUrl, Mapped(ToStandard, s)) == s
  {
  }

  lemma DropPads(s: string, n: nat)
    requires n <= 3 && AllStandard(s)
    ensures DropPad(DropPad(s + Pads(n))) == s + Pads(if n < 2 then 0 else n - 2)
  {
    if n < 2 { assert s + Pads(0) == s; assert DropPad(s) == s; }
    if n >= 1 { assert s + Pads(n) == s + Pads(n - 1) + "="; }
    if n >= 2 { assert s + Pads(n - 1) == s + Pads(n - 2) + "="; }
  }

  lemma {:induction false} PadsLength(n: nat)
    ensures |Pads(n)| == n && forall i :: 0 <= i < n ==> Pads(n)[i] == '='
  {
    if n > 0 { PadsLength(n - 1); }
  }

  // atob of a text padded to a multiple of four reads the text itself.
  lemma AtobPadded(s: string)
    requires AllStandard(s)
    ensures Atob(s + Padding(|s|)) == if |s| % 4 == 1 then None else Packed(BitsOf(s))
  {
    var n := (4 - |s| % 4) % 4;
    PadsLength(n);
    DropPads(s, n);
    assert |s + Pads(n)| % 4 == 0;
    if n == 3 {
      assert Pads(1) == "=";
      assert (s + Pads(1))[|s|] == '=';
    } else {
      assert s + Pads(0) == s;
    }
  }

  // Decoding in terms of the text in the standard alphabet.
  lemma DecodeStandard(value: string)
    requires value != "" && UrlText(value)
    ensures AllStandard(Mapped(ToStandard, value))
    ensures var bytes := Packed(BitsOf(Mapped(ToStandard, value)));
            Decode(value) == if |value| % 4 == 1 || bytes.None? || Encode(bytes.value) != value then None else bytes
  {
    UrlOfStandard(value);
    AtobPadded(Mapped(ToStandard, value));
  }

  /** Decode undoes encode, for every non-empty byte string. */
  lemma DecodeEncode(bs: seq<Byte>)
    requires bs != []
    ensures Decode(Encode(bs)) == Some(bs)
    ensures |Encode(bs)| == (4 * |bs| + 2) / 3
  {
    EncodeIsUnpadded(bs);
    StandardOfUrl(Unpadded(bs));
    SymbolsAreStandard(Split(bs));
    PackedSplit(bs);
    PackedSome(Split(bs));
    SplitLength(bs);
    DecodeStandard(Encode(bs));
  }

  // The sextets that a URL-safe text spells.
  function Sextets(s: string): seq<Sextet>
    requires UrlText(s)
  {
    UrlOfStandard(s);
    BitsOf(Mapped(ToStandard, s))
  }

  /** Encode undoes decode, and decode accepts exactly the canonical texts. */
  lemma EncodeDecode(s: string)
    ensures Decode(s).Some? <==> s != "" && UrlText(s) && |s| % 4 != 1 && CleanTail(Sextets(s))
    ensures Decode(s).Some? ==> Decode(s).value != [] && Encode(Decode(s).value) == s
  {
    if s != "" && UrlText(s) {
      var t := Mapped(ToStandard, s);
      UrlOfStandard(s);
      DecodeStandard(s);
      PackedSome(BitsOf(t));
      if |s| % 4 != 1 {
        SplitPacked(BitsOf(t));
        var bs := Packed(BitsOf(t)).value;
        EncodeIsUnpadded(bs);
        SymbolsOfBits(t);
        if Encode(bs) == s {
          StandardOfUrl(Unpadded(bs));
          SymbolsAreStandard(Split(bs));
        }
      }
    }
  }

  // ---------------------------------------------------------------- digests

  const SHA256 := "sha256:"

  predicate Sha256Digest(d: string) {
    SHA256 <= d && var bytes := Decode(d[|SHA256|..]); bytes.Some? && |bytes.value| == 32
  }

  /** An accepted digest always carries exactly 43 payload characters, and only one text names it. */
  lemma DigestPayload(d: string)
    requires Sha256Digest(d)
    ensures |d| == |SHA256| + 43 && UrlText(d[|SHA256|..])
    ensures d == SHA256 + Encode(Decode(d[|SHA256|..]).value)
  {
    var payload := d[|SHA256|..];
    EncodeDecode(payload);
    DecodeEncode(Decode(payload).value);
  }

  lemma DigestOfBytes(bs: seq<Byte>)
    requires bs != []
    ensures Sha256Digest(SHA256 + Encode(bs)) <==> |bs| == 32
  {
    DecodeEncode(bs);
    assert (SHA256 + Encode(bs))[|SHA256|..] == Encode(bs);
  }
}
