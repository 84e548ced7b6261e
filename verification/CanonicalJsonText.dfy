/** JSON.parse undoes the printer, and the canonical parser accepts exactly the canonical texts. */
module CanonicalJsonText {
  import opened Basics
  import opened CanonicalJson
  import opened CanonicalJsonLaws

  // ---------------------------------------------------------------- strings

  lemma UnescapeEscaped(c: char, rest: string)
    requires Escaped(c) != [c]
    ensures Escaped(c)[0] == '\\' && |Escaped(c)| >= 2
    ensures Unescape(Escaped(c)[1..] + rest) == Some((c, |Escaped(c)| - 1))
  {
  }

  lemma ParseOneChar(c: char, tail: string, read: string)
    ensures ParseChars(Escaped(c) + tail, read) == ParseChars(tail, read + [c])
  {
    var text := Escaped(c) + tail;
    if Escaped(c) == [c] {
      assert text[1..] == tail;
    } else {
      UnescapeEscaped(c, tail);
      assert text[1..] == Escaped(c)[1..] + tail;
      assert text[|Escaped(c)|..] == tail;
    }
  }

  lemma {:induction false} ParseCharsPrinted(s: string, rest: string, read: string)
    ensures ParseChars(Chars(s) + "\"" + rest, read) == Some((read + s, rest))
    decreases |s|
  {
    if s == "" {
      assert Chars(s) + "\"" + rest == "\"" + rest;
      assert read + s == read;
    } else {
      var tail := Chars(s[1..]) + "\"" + rest;
      assert Chars(s) + "\"" + rest == Escaped(s[0]) + tail;
      ParseOneChar(s[0], tail, read);
      ParseCharsPrinted(s[1..], rest, read + [s[0]]);
      assert read + [s[0]] + s[1..] == read + s;
    }
  }

  // ---------------------------------------------------------------- values

  // What may follow a printed value without running into it.
  predicate Stops(rest: string) { rest == "" || !NumberChar(rest[0]) }

  lemma {:induction false} NumberLengthOf(t: string, rest: string)
    requires (forall i :: 0 <= i < |t| ==> NumberChar(t[i])) && Stops(rest)
    ensures NumberLength(t + rest) == |t|
  {
    if t == "" { assert t + rest == rest; }
    else {
      assert (t + rest)[1..] == t[1..] + rest;
      NumberLengthOf(t[1..], rest);
    }
  }

  // No printed value starts with white space or a closing bracket.
  lemma PrintStarts(num: Reader, less: Order, v: Value)
    requires Lawful(num) && Normal(num, less, v)
    ensures Print(v) != "" && !Space(Print(v)[0]) && Print(v)[0] != ']' && Print(v)[0] != '}'
  {
  }

  lemma SkipsNothing(s: string)
    requires s == "" || !Space(s[0])
    ensures SkipSpace(s) == s
  {
  }

  lemma {:induction false} ParsePrinted(num: Reader, less: Order, v: Value, rest: string)
    requires Lawful(num) && StrictTotal(less) && Normal(num, less, v) && Stops(rest)
    ensures ParseValue(num, Print(v) + rest) == Some((v, rest))
    decreases v, 1
  {
    match v
    case Arr(xs) => ParsePrintedArray(num, less, xs, rest);
    case Obj(ms) => SortedIsDistinct(less, ms); ParsePrintedObject(num, less, ms, rest);
    case Str(t) => ParsePrintedText(num, t, rest);
    case _ => ParsePrintedAtom(num, less, v, rest);
  }

  lemma ParsePrintedText(num: Reader, t: string, rest: string)
    ensures ParseValue(num, Print(Str(t)) + rest) == Some((Str(t), rest))
  {
    var s := Print(Str(t)) + rest;
    SkipsNothing(s);
    assert s[1..] == Chars(t) + "\"" + rest;
    ParseCharsPrinted(t, rest, "");
    assert "" + t == t;
  }

  lemma ParsePrintedAtom(num: Reader, less: Order, v: Value, rest: string)
    requires Lawful(num) && Normal(num, less, v) && Stops(rest) && (v.Null? || v.Bool? || v.Num?)
    ensures ParseValue(num, Print(v) + rest) == Some((v, rest))
  {
    PrintStarts(num, less, v);
    var s := Print(v) + rest;
    SkipsNothing(s);
    match v
    case Null => assert s[4..] == rest;
    case Bool(b) => assert s[if b then 4 else 5..] == rest;
    case Num(t) =>
      assert t == Print(v);
      NumberLengthOf(t, rest);
      assert s[..|t|] == t && s[|t|..] == rest;
  }

  lemma {:induction false} ParsePrintedArray(num: Reader, less: Order, xs: Values, rest: string)
    requires Lawful(num) && StrictTotal(less) && NormalList(num, less, xs)
    ensures ParseValue(num, "[" + PrintItems(xs) + "]" + rest) == Some((Arr(xs), rest))
    decreases xs, 2
  {
    var s := "[" + PrintItems(xs) + "]" + rest;
    SkipsNothing(s);
    var inner := PrintItems(xs) + "]" + rest;
    assert s[1..] == inner;
    if xs.NoValues? {
      assert inner == "]" + rest;
      SkipsNothing(inner);
      assert inner[1..] == rest;
    } else {
      PrintStarts(num, less, xs.head);
      assert inner[0] == Print(xs.head)[0];
      SkipsNothing(inner);
      ParsePrintedItems(num, less, xs, rest);
    }
  }

  lemma {:induction false} ParsePrintedItems(num: Reader, less: Order, xs: Values, rest: string)
    requires Lawful(num) && StrictTotal(less) && xs.Values? && NormalList(num, less, xs)
    ensures ParseItems(num, PrintItems(xs) + "]" + rest) == Some((xs, rest))
    decreases xs, 1
  {
    var s := PrintItems(xs) + "]" + rest;
    if xs.tail.NoValues? {
      var after := "]" + rest;
      assert s == Print(xs.head) + after;
      ParsePrinted(num, less, xs.head, after);
      SkipsNothing(after);
      assert after[1..] == rest;
    } else {
      var more := PrintItems(xs.tail) + "]" + rest;
      var after := "," + more;
      assert s == Print(xs.head) + after;
      ParsePrinted(num, less, xs.head, after);
      SkipsNothing(after);
      assert after[1..] == more;
      ParsePrintedItems(num, less, xs.tail, rest);
    }
  }

  // An object that is not empty is parsed member by member.
  lemma ParseObjectMembers(num: Reader, inner: string)
    requires inner != "" && !Space(inner[0]) && inner[0] != '}'
    ensures var ms := ParseMembers(num, inner, NoMembers);
            ParseValue(num, "{" + inner) == if ms.None? then None else Some((Obj(ms.value.0), ms.value.1))
  {
    var s := "{" + inner;
    SkipsNothing(s);
    SkipsNothing(inner);
    assert s[1..] == inner;
  }

  lemma ParseEmptyObject(num: Reader, rest: string)
    ensures ParseValue(num, "{}" + rest) == Some((Obj(NoMembers), rest))
  {
    var s := "{}" + rest;
    var inner := "}" + rest;
    SkipsNothing(s);
    assert s[1..] == inner;
    SkipsNothing(inner);
    assert inner[1..] == rest;
  }

  lemma {:induction false} ParsePrintedObject(num: Reader, less: Order, ms: Members, rest: string)
    requires Lawful(num) && StrictTotal(less) && NormalFields(num, less, ms) && Distinct(ms)
    ensures ParseValue(num, "{" + PrintMembers(ms) + "}" + rest) == Some((Obj(ms), rest))
    decreases ms, 2
  {
    if ms.NoMembers? {
      assert "{" + PrintMembers(ms) + "}" + rest == "{}" + rest;
      ParseEmptyObject(num, rest);
    } else {
      var inner := PrintMembers(ms) + "}" + rest;
      assert "{" + PrintMembers(ms) + "}" + rest == "{" + inner;
      FieldsStart(ms, "}" + rest);
      ParsePrintedMembers(num, less, ms, NoMembers, rest);
      ParseObjectMembers(num, inner);
    }
  }

  lemma FieldsStart(ms: Members, after: string)
    requires ms.Members?
    ensures PrintMembers(ms) != "" && (PrintMembers(ms) + after)[0] == '"' && PrintMembers(ms)[0] == '"'
  {
  }

  predicate Distinct(ms: Members) {
    ms.Members? ==> ms.key !in Keys(ms.rest) && Distinct(ms.rest)
  }

  lemma {:induction false} SortedIsDistinct(less: Order, ms: Members)
    requires StrictTotal(less) && Sorted(less, ms)
    ensures Distinct(ms)
  {
    if ms.Members? {
      SortedIsDistinct(less, ms.rest);
      if ms.key in Keys(ms.rest) { HeadIsLeast(less, ms, ms.key); }
    }
  }

  lemma {:induction false} PutNew(ms: Members, k: string, v: Value)
    requires k !in Keys(ms)
    ensures Put(ms, k, v) == Append(ms, Members(k, v, NoMembers))
  {
    if ms.Members? { PutNew(ms.rest, k, v); }
  }

  lemma ParsePrintedKey(key: string, value: string)
    ensures ParseKey(Quoted(key) + (":" + value)) == Some((key, value))
  {
    var colon := ":" + value;
    var s := Quoted(key) + colon;
    SkipsNothing(s);
    assert s[1..] == Chars(key) + "\"" + colon;
    ParseCharsPrinted(key, colon, "");
    assert "" + key == key;
    SkipsNothing(colon);
    assert colon[1..] == value;
  }

  lemma Regroup(a: string, b: string, c: string, d: string, e: string)
    ensures a + b + c + d + e == a + (b + (c + (d + e)))
  {
  }

  // The text of the members, split after the first value.
  lemma FirstMember(ms: Members, rest: string) returns (after: string)
    requires ms.Members?
    ensures after == if ms.rest.NoMembers? then "}" + rest else "," + (PrintMembers(ms.rest) + "}" + rest)
    ensures PrintMembers(ms) + "}" + rest == Quoted(ms.key) + (":" + (Print(ms.value) + after))
  {
    var q, p := Quoted(ms.key), Print(ms.value);
    if ms.rest.NoMembers? {
      after := "}" + rest;
      Regroup(q, ":", p, "}", rest);
    } else {
      var more := PrintMembers(ms.rest) + "}" + rest;
      after := "," + more;
      Regroup(q, ":", p, ",", more);
      assert PrintMembers(ms) + "}" + rest == q + ":" + p + "," + more;
    }
  }

  lemma {:induction false} ParsePrintedMembers(num: Reader, less: Order, ms: Members, read: Members, rest: string)
    requires Lawful(num) && StrictTotal(less) && ms.Members?
    requires NormalFields(num, less, ms) && Distinct(ms) && Keys(ms) !! Keys(read)
    ensures ParseMembers(num, PrintMembers(ms) + "}" + rest, read) == Some((Append(read, ms), rest))
    decreases ms, 1
  {
    var one := Members(ms.key, ms.value, NoMembers);
    PutNew(read, ms.key, ms.value);
    var after := FirstMember(ms, rest);
    ParsePrintedKey(ms.key, Print(ms.value) + after);
    ParsePrintedValueOf(num, less, ms, after);
    SkipsNothing(after);
    if ms.rest.NoMembers? {
      assert after[1..] == rest && one == ms;
    } else {
      assert after[1..] == PrintMembers(ms.rest) + "}" + rest;
      KeysOfAppend(read, one);
      ParsePrintedMembers(num, less, ms.rest, Append(read, one), rest);
      AppendAssociates(read, one, ms.rest);
      assert Append(one, ms.rest) == ms;
    }
  }

  lemma {:induction false} ParsePrintedValueOf(num: Reader, less: Order, ms: Members, after: string)
    requires Lawful(num) && StrictTotal(less) && ms.Members? && NormalFields(num, less, ms) && Stops(after)
    ensures ParseValue(num, Print(ms.value) + after) == Some((ms.value, after))
    decreases ms, 0
  {
    ParsePrinted(num, less, ms.value, after);
  }

  // ---------------------------------------------------------------- parsed values are well formed

  lemma {:induction false} PutKeepsDistinct(num: Reader, ms: Members, k: string, v: Value)
    requires WellFormedMembers(num, ms) && WellFormed(num, v)
    ensures WellFormedMembers(num, Put(ms, k, v)) && Keys(Put(ms, k, v)) == Keys(ms) + {k}
  {
    if ms.Members? && ms.key != k { PutKeepsDistinct(num, ms.rest, k, v); }
  }

  lemma {:induction false} ParsedWellFormed(num: Reader, s: string)
    requires Lawful(num)
    ensures ParseValue(num, s).Some? ==> WellFormed(num, ParseValue(num, s).value.0)
    decreases |s|, 0
  {
    var t := SkipSpace(s);
    if t != "" && t[0] == '[' { var inner := SkipSpace(t[1..]); ParsedItemsWellFormed(num, inner); }
    if t != "" && t[0] == '{' { var inner := SkipSpace(t[1..]); ParsedMembersWellFormed(num, inner, NoMembers); }
  }

  lemma {:induction false} ParsedItemsWellFormed(num: Reader, s: string)
    requires Lawful(num)
    ensures ParseItems(num, s).Some? ==> WellFormedItems(num, ParseItems(num, s).value.0)
    decreases |s|, 1
  {
    ParsedWellFormed(num, s);
    var first := ParseValue(num, s);
    if first.Some? {
      var next := SkipSpace(first.value.1);
      if next != "" { ParsedItemsWellFormed(num, next[1..]); }
    }
  }

  lemma {:induction false} ParsedMembersWellFormed(num: Reader, s: string, read: Members)
    requires Lawful(num) && WellFormedMembers(num, read)
    ensures ParseMembers(num, s, read).Some? ==> WellFormedMembers(num, ParseMembers(num, s, read).value.0)
    decreases |s|, 1
  {
    var key := ParseKey(s);
    if key.None? { return; }
    ParsedWellFormed(num, key.value.1);
    var v := ParseValue(num, key.value.1);
    if v.None? { return; }
    var next := SkipSpace(v.value.1);
    PutKeepsDistinct(num, read, key.value.0, v.value.0);
    if next != "" { ParsedMembersWellFormed(num, next[1..], Put(read, key.value.0, v.value.0)); }
  }

  // ---------------------------------------------------------------- main results

  /** Parsing a canonical text gives a value of the same meaning and the same canonical text. */
  lemma ParseCanonicalText(num: Reader, less: Order, v: Value)
    requires Lawful(num) && StrictTotal(less) && WellFormed(num, v) && Plain(v)
    ensures Canonical(less, v).Some?
    ensures var text := Canonical(less, v).value;
            && Parse(num, text).Some?
            && TreeOf(Parse(num, text).value) == TreeOf(v)
            && Canonical(less, Parse(num, text).value) == Some(text)
            && ParseCanonical(less, num, text) == Parse(num, text)
  {
    NormalFormMeans(num, less, v);
    var n := NormalForm(less, v).value;
    assert Print(n) + "" == Print(n);
    ParsePrinted(num, less, n, "");
    NormalFormOfNormal(num, less, n);
  }

  /** Two plain values have one canonical text exactly when they mean the same. */
  lemma CanonicalTextIsMeaning(num: Reader, less: Order, v: Value, w: Value)
    requires Lawful(num) && StrictTotal(less) && WellFormed(num, v) && WellFormed(num, w) && Plain(v) && Plain(w)
    ensures Canonical(less, v) == Canonical(less, w) <==> TreeOf(v) == TreeOf(w)
  {
    ParseCanonicalText(num, less, v);
    ParseCanonicalText(num, less, w);
    NormalFormMeans(num, less, v);
    NormalFormMeans(num, less, w);
    if TreeOf(v) == TreeOf(w) {
      NormalUnique(num, less, NormalForm(less, v).value, NormalForm(less, w).value);
    }
  }

  /** The strict parser accepts a text exactly when it is some value's canonical text. */
  lemma AcceptsExactlyCanonical(num: Reader, less: Order, text: string)
    requires Lawful(num) && StrictTotal(less)
    ensures ParseCanonical(less, num, text).Some? <==>
            exists v :: WellFormed(num, v) && Canonical(less, v) == Some(text)
  {
    if ParseCanonical(less, num, text).Some? {
      ParsedWellFormed(num, text);
      assert WellFormed(num, Parse(num, text).value);
    }
    if v :| WellFormed(num, v) && Canonical(less, v) == Some(text) {
      NormalFormMeans(num, less, v);
      ParseCanonicalText(num, less, v);
    }
  }
}
