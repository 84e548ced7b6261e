/**
 * The order in which ECMAScript walks the keys of an object that canonical-json.ts has filled
 * in sorted order (section 10.1.11 of ECMA-262): array indices ascending, then the other keys
 * by UTF-16 code unit.
 */
module KeyOrder {
  import opened Decimal
  import opened CanonicalJson

  // Code points compared as UTF-16: supplementary ones sort between U+D7FF and U+E000.
  function Rank(c: char): int {
    var n := c as int;
    if n < 0xD800 then n else if n < 0x1_0000 then n + 0x10_0000 else n - 0x1_0000 + 0xD800
  }

  predicate Before(a: string, b: string) {
    b != "" && (a == "" || Rank(a[0]) < Rank(b[0]) || (a[0] == b[0] && Before(a[1..], b[1..])))
  }

  predicate ArrayIndex(k: string) {
    k != "" && Digits(k) && (k == "0" || k[0] != '0') && |k| <= 10 && NumberOf(k) < 4_294_967_295
  }

  predicate KeyLess(a: string, b: string) {
    if ArrayIndex(a) && ArrayIndex(b) then |a| < |b| || (|a| == |b| && Before(a, b))
    else if ArrayIndex(a) || ArrayIndex(b) then ArrayIndex(a)
    else Before(a, b)
  }

  lemma RankInjective(c: char, d: char)
    requires Rank(c) == Rank(d)
    ensures c == d
  {
  }

  lemma {:induction false} BeforeOrders(a: string, b: string, c: string)
    ensures !Before(a, a)
    ensures Before(a, b) && Before(b, c) ==> Before(a, c)
    ensures a == b || Before(a, b) || Before(b, a)
  {
    if a != "" && b != "" {
      if Rank(a[0]) == Rank(b[0]) { RankInjective(a[0], b[0]); }
      BeforeOrders(a[1..], b[1..], if c == "" then "" else c[1..]);
      assert a == [a[0]] + a[1..] && b == [b[0]] + b[1..];
    } else if a != "" {
      BeforeOrders(a[1..], "", "");
    }
  }

  /** The real key order satisfies the one hypothesis the canonical-JSON laws make of it. */
  lemma KeyLessIsStrictTotal()
    ensures StrictTotal(KeyLess)
  {
    forall a, b, c
      ensures !KeyLess(a, a)
      ensures KeyLess(a, b) && KeyLess(b, c) ==> KeyLess(a, c)
      ensures a == b || KeyLess(a, b) || KeyLess(b, a)
    {
      BeforeOrders(a, b, c);
    }
  }
}
