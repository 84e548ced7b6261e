/**
 * The base64url text itself (section 5 of RFC 4648): the alphabet, and which bits of the bytes
 * each character stands for.
 */
module Base64Digits {
  import opened Base64Url

  // The letters of the alphabet, in order.
  function Letter(n: nat): char
    requires n < 64
  {
    if n < 26 then "ABCDEFGHIJKLMNOPQRSTUVWXYZ"[n]
    else if n < 52 then "abcdefghijklmnopqrstuvwxyz"[n - 26]
    else "0123456789-_"[n - 52]
  }

  lemma InAlphabet(x: Sextet)
    ensures ToUrl(Symbol(x)) == Letter(Index(x))
  {
    var n := Index(x);
    if n < 26 { Capital(n); } else if n < 52 { Small(n - 26); } else if n < 62 { Numeral(n - 52); }
  }

  lemma Capital(n: nat)
    requires n < 26
    ensures "ABCDEFGHIJKLMNOPQRSTUVWXYZ"[n] == 'A' + n as char
  {
  }

  lemma Small(n: nat)
    requires n < 26
    ensures "abcdefghijklmnopqrstuvwxyz"[n] == 'a' + n as char
  {
  }

  lemma Numeral(n: nat)
    requires n < 10
    ensures "0123456789-_"[n] == '0' + n as char
  {
  }

  // The 2-bit digits of the bytes, most significant first, and zeros past their end.
  function DigitAt(bs: seq<Byte>, j: nat): Crumb {
    if bs == [] then 0
    else if j >= 4 then DigitAt(bs[1..], j - 4)
    else if j == 0 then bs[0].a else if j == 1 then bs[0].b else if j == 2 then bs[0].c else bs[0].d
  }

  lemma NextByte(bs: seq<Byte>, j: nat)
    requires bs != []
    ensures DigitAt(bs, j + 4) == DigitAt(bs[1..], j)
  {
  }

  lemma ThreeBytes(bs: seq<Byte>, j: nat)
    requires |bs| >= 3
    ensures DigitAt(bs, j + 12) == DigitAt(bs[3..], j)
  {
    NextByte(bs, j + 8);
    NextByte(bs[1..], j + 4);
    NextByte(bs[2..], j);
    assert bs[1..][1..] == bs[2..] && bs[2..][1..] == bs[3..];
  }

  // The digits of the byte at k.
  lemma {:induction false} OfByte(bs: seq<Byte>, k: nat)
    ensures k < |bs| ==> DigitAt(bs, 4 * k) == bs[k].a && DigitAt(bs, 4 * k + 1) == bs[k].b
                         && DigitAt(bs, 4 * k + 2) == bs[k].c && DigitAt(bs, 4 * k + 3) == bs[k].d
    ensures k >= |bs| ==> forall j :: j >= 4 * k ==> DigitAt(bs, j) == 0
    decreases k
  {
    if k > 0 && bs != [] {
      OfByte(bs[1..], k - 1);
    }
  }

  lemma {:induction false} SplitDigits(bs: seq<Byte>, i: nat)
    requires i < |Split(bs)|
    ensures Split(bs)[i] == Sextet(DigitAt(bs, 3 * i), DigitAt(bs, 3 * i + 1), DigitAt(bs, 3 * i + 2))
  {
    if |bs| >= 3 && i >= 4 {
      SplitDigits(bs[3..], i - 4);
      ThreeBytes(bs, 3 * (i - 4));
      ThreeBytes(bs, 3 * (i - 4) + 1);
      ThreeBytes(bs, 3 * (i - 4) + 2);
    } else {
      OfByte(bs, 0);
      OfByte(bs, 1);
      OfByte(bs, 2);
    }
  }

  /**
   * The text has a character for every six bits, the last ones padded with zeros, and no padding
   * characters; each is the letter of its six bits in the URL-safe alphabet.
   */
  lemma EncodedText(bs: seq<Byte>, i: nat)
    ensures |Encode(bs)| == (8 * |bs| + 5) / 6
    ensures i < |Encode(bs)| ==>
              Encode(bs)[i] == Letter(16 * DigitAt(bs, 3 * i) + 4 * DigitAt(bs, 3 * i + 1) + DigitAt(bs, 3 * i + 2))
  {
    EncodeIsUnpadded(bs);
    SplitLength(bs);
    if i < |Encode(bs)| {
      SplitDigits(bs, i);
      InAlphabet(Split(bs)[i]);
    }
  }
}
