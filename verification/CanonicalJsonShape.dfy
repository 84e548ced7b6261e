/**
 * The canonical text itself (src/canonical-json.ts): how each character is written in a string, how
 * strings, arrays and objects are put together, and in which order the keys come.
 */
module CanonicalJsonShape {
  import opened Decimal
  import opened CanonicalJson
  import opened KeyOrder

  const HEX := "0123456789abcdef"

  // The control characters that have a letter of their own, and those letters.
  predicate Lettered(c: char, letter: char) {
    || (c as int == 8 && letter == 'b') || (c as int == 9 && letter == 't') || (c as int == 10 && letter == 'n')
    || (c as int == 12 && letter == 'f') || (c as int == 13 && letter == 'r')
  }

  /**
   * A quote and a backslash follow a backslash; five control characters have a letter, the others
   * are \u00 and two lowercase hexadecimal digits; every other character stands for itself.
   */
  lemma EscapedText(c: char)
    ensures c == '"' || c == '\\' ==> Escaped(c) == ['\\', c]
    ensures forall letter :: Lettered(c, letter) ==> Escaped(c) == ['\\', letter]
    ensures c as int < 32 && c as int !in {8, 9, 10, 12, 13} ==> Escaped(c) == ['\\', 'u', '0', '0', HEX[c as int / 16], HEX[c as int % 16]]
    ensures c as int >= 32 && c != '"' && c != '\\' ==> Escaped(c) == [c]
  {
  }

  // Characters that stand for themselves.
  predicate Bare(s: string) { forall c :: c in s ==> c as int >= 32 && c != '"' && c != '\\' }

  lemma {:induction false} CharsJoin(a: string, b: string)
    ensures Chars(a + b) == Chars(a) + Chars(b)
  {
    if a == "" {
      assert a + b == b;
    } else {
      assert (a + b)[1..] == a[1..] + b;
      CharsJoin(a[1..], b);
    }
  }

  lemma BareHead(s: string)
    requires s != "" && Bare(s)
    ensures Escaped(s[0]) + s[1..] == s && Bare(s[1..])
  {
    assert s[0] in s && forall c :: c in s[1..] ==> c in s;
    assert Escaped(s[0]) == [s[0]];
  }

  lemma {:induction false} BareText(s: string)
    requires Bare(s)
    ensures Chars(s) == s
  {
    if s != "" {
      BareHead(s);
      BareText(s[1..]);
    }
  }

  lemma CharsAround(a: string, c: char, b: string)
    ensures Chars(a + [c] + b) == Chars(a) + Escaped(c) + Chars(b)
  {
    CharsJoin(a + [c], b);
    CharsJoin(a, [c]);
    OneChar(c);
  }

  lemma OneChar(c: char)
    ensures Chars([c]) == Escaped(c)
  {
    assert [c][1..] == "" && Chars("") == "";
  }

  /** A string is its characters, each written as above, between quotes. */
  lemma StringText(a: string, c: char, b: string)
    ensures Print(Str(a + [c] + b)) == "\"" + (Chars(a) + Escaped(c) + Chars(b)) + "\""
    ensures Print(Str("")) == "\"\""
  {
    CharsAround(a, c, b);
  }

  // ---------------------------------------------------------------- arrays and objects

  // The parts with a comma between each two.
  function Commas(parts: seq<string>): string
    decreases |parts|
  {
    if parts == [] then ""
    else if |parts| == 1 then parts[0]
    else Commas(parts[..|parts|-1]) + ("," + parts[|parts|-1])
  }

  lemma {:induction false} CommasFirst(part: string, parts: seq<string>)
    requires parts != []
    ensures Commas([part] + parts) == part + ("," + Commas(parts))
    decreases |parts|
  {
    var all := [part] + parts;
    if |parts| == 1 {
      assert all[..1] == [part];
    } else {
      assert all[..|all|-1] == [part] + parts[..|parts|-1];
      CommasFirst(part, parts[..|parts|-1]);
    }
  }

  function ItemTexts(xs: Values): seq<string>
    decreases xs
  {
    if xs.NoValues? then [] else [Print(xs.head)] + ItemTexts(xs.tail)
  }

  function MemberText(key: string, v: Value): string { Print(Str(key)) + ":" + Print(v) }

  function MemberTexts(ms: Members): seq<string>
    decreases ms
  {
    if ms.NoMembers? then [] else [MemberText(ms.key, ms.value)] + MemberTexts(ms.rest)
  }

  lemma OneMember(ms: Members)
    requires ms.Members?
    ensures PrintMembers(ms) == if ms.rest.NoMembers? then MemberText(ms.key, ms.value)
                                else MemberText(ms.key, ms.value) + ("," + PrintMembers(ms.rest))
  {
  }

  lemma {:induction false} ItemsJoin(xs: Values)
    ensures PrintItems(xs) == Commas(ItemTexts(xs))
  {
    if xs.Values? && xs.tail.Values? {
      ItemsJoin(xs.tail);
      CommasFirst(Print(xs.head), ItemTexts(xs.tail));
    }
  }

  lemma {:induction false} MembersJoin(ms: Members)
    ensures PrintMembers(ms) == Commas(MemberTexts(ms))
  {
    if ms.Members? {
      OneMember(ms);
      MembersJoin(ms.rest);
      JoinFirst(MemberText(ms.key, ms.value), MemberTexts(ms.rest));
    }
  }

  lemma JoinFirst(part: string, parts: seq<string>)
    ensures Commas([part] + parts) == if parts == [] then part else part + ("," + Commas(parts))
  {
    if parts != [] { CommasFirst(part, parts); }
  }

  /** Literals are written out; items and members are separated by single commas, without spaces, between brackets or braces. */
  lemma ValueText(v: Value)
    ensures v.Null? ==> Print(v) == "null"
    ensures v.Bool? ==> Print(v) == if v.b then "true" else "false"
    ensures v.Num? ==> Print(v) == v.text
    ensures v.Arr? ==> Print(v) == "[" + Commas(ItemTexts(v.items)) + "]"
    ensures v.Obj? ==> Print(v) == "{" + Commas(MemberTexts(v.members)) + "}"
  {
    if v.Arr? { ItemsJoin(v.items); }
    if v.Obj? { MembersJoin(v.members); }
  }

  // ---------------------------------------------------------------- key order

  // The UTF-16 code units of a character: one, or a surrogate pair.
  function Units(c: char): seq<int> {
    var n := c as int;
    if n < 0x1_0000 then [n] else [0xD800 + (n - 0x1_0000) / 0x400, 0xDC00 + (n - 0x1_0000) % 0x400]
  }

  function AllUnits(s: string): seq<int> { if s == "" then [] else Units(s[0]) + AllUnits(s[1..]) }

  // Lexicographic order.
  predicate UnitsBefore(a: seq<int>, b: seq<int>) {
    b != [] && (a == [] || a[0] < b[0] || (a[0] == b[0] && UnitsBefore(a[1..], b[1..])))
  }

  lemma {:induction false} SameStart(a: seq<int>, x: seq<int>, y: seq<int>)
    ensures UnitsBefore(a + x, a + y) <==> UnitsBefore(x, y)
  {
    if a == [] {
      assert a + x == x && a + y == y;
    } else {
      assert (a + x)[1..] == a[1..] + x && (a + y)[1..] == a[1..] + y;
      SameStart(a[1..], x, y);
    }
  }

  // Different characters are told apart by their units, whatever follows them.
  lemma UnitsByRank(c: char, d: char, x: seq<int>, y: seq<int>)
    requires c != d
    ensures UnitsBefore(Units(c) + x, Units(d) + y) <==> Rank(c) < Rank(d)
  {
    var u, v := Units(c) + x, Units(d) + y;
    if u[0] == v[0] {
      assert |Units(c)| == 2 && |Units(d)| == 2;
      assert u[1..][0] == Units(c)[1] && v[1..][0] == Units(d)[1];
    }
  }

  lemma {:induction false} BeforeIsUtf16(a: string, b: string)
    ensures Before(a, b) <==> UnitsBefore(AllUnits(a), AllUnits(b))
  {
    if a != "" && b != "" {
      if a[0] == b[0] {
        SameStart(Units(a[0]), AllUnits(a[1..]), AllUnits(b[1..]));
        BeforeIsUtf16(a[1..], b[1..]);
      } else {
        UnitsByRank(a[0], b[0], AllUnits(a[1..]), AllUnits(b[1..]));
        if Rank(a[0]) == Rank(b[0]) { RankInjective(a[0], b[0]); }
      }
    }
  }

  function Ten(n: nat): nat { if n == 0 then 1 else 10 * Ten(n - 1) }

  lemma {:induction false} TenGrows(m: nat, n: nat)
    requires m <= n
    ensures Ten(m) <= Ten(n)
    decreases n
  {
    if m < n { TenGrows(m, n - 1); }
  }

  lemma {:induction false} DigitBounds(t: string)
    requires Digits(t)
    ensures NumberOf(t) < Ten(|t|)
    ensures t != "" && t[0] != '0' ==> NumberOf(t) >= Ten(|t| - 1)
    decreases |t|
  {
    if t != "" { DigitBounds(t[..|t|-1]); }
  }

  lemma LongerIsMore(a: string, b: string)
    requires Digits(a) && Digits(b) && |a| < |b| && b[0] != '0'
    ensures NumberOf(a) < NumberOf(b)
  {
    DigitBounds(a);
    DigitBounds(b);
    TenGrows(|a|, |b| - 1);
  }

  lemma {:induction false} BeforeLast(a: string, x: char, b: string, y: char)
    requires |a| == |b| && Digit(x) && Digit(y)
    ensures Before(a + [x], b + [y]) <==> Before(a, b) || (a == b && x < y)
    decreases |a|
  {
    if a == "" {
      assert a + [x] == [x] && b + [y] == [y];
    } else {
      assert (a + [x])[1..] == a[1..] + [x] && (b + [y])[1..] == b[1..] + [y];
      assert a == [a[0]] + a[1..] && b == [b[0]] + b[1..];
      BeforeLast(a[1..], x, b[1..], y);
    }
  }

  // Texts of one length compare as their numbers do.
  lemma {:induction false} SameLength(a: string, b: string)
    requires Digits(a) && Digits(b) && |a| == |b|
    ensures Before(a, b) <==> NumberOf(a) < NumberOf(b)
    ensures NumberOf(a) == NumberOf(b) ==> a == b
    decreases |a|
  {
    if a != "" {
      var n := |a| - 1;
      assert a == a[..n] + [a[n]] && b == b[..n] + [b[n]];
      BeforeLast(a[..n], a[n], b[..n], b[n]);
      SameLength(a[..n], b[..n]);
      SameLength(b[..n], a[..n]);
      BeforeOrders(a[..n], b[..n], "");
    }
  }

  /** Array indices come first and by value; the other keys follow, by UTF-16 code unit. */
  lemma KeysInOrder(a: string, b: string)
    ensures ArrayIndex(a) && ArrayIndex(b) ==> (KeyLess(a, b) <==> NumberOf(a) < NumberOf(b))
    ensures ArrayIndex(a) && !ArrayIndex(b) ==> KeyLess(a, b) && !KeyLess(b, a)
    ensures !ArrayIndex(a) && !ArrayIndex(b) ==> (KeyLess(a, b) <==> UnitsBefore(AllUnits(a), AllUnits(b)))
  {
    BeforeIsUtf16(a, b);
    if ArrayIndex(a) && ArrayIndex(b) {
      if |a| < |b| { LongerIsMore(a, b); }
      if |b| < |a| { LongerIsMore(b, a); }
      if |a| == |b| { SameLength(a, b); }
    }
  }
}
