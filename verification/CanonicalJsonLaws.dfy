/** Canonical text is a complete and faithful name for what a JSON value means. */
module CanonicalJsonLaws {
  import opened Basics
  import opened CanonicalJson

  // ---------------------------------------------------------------- normal forms

  predicate Sorted(less: Order, ms: Members) {
    ms.Members? && ms.rest.Members? ==> less(ms.key, ms.rest.key) && Sorted(less, ms.rest)
  }

  predicate Normal(num: Reader, less: Order, v: Value)
    decreases v
  {
    match v
    case Undefined => false
    case Opaque => false
    case Num(t) => num(t) == Some(t)
    case Arr(xs) => NormalList(num, less, xs)
    case Obj(ms) => Sorted(less, ms) && NormalFields(num, less, ms)
    case _ => true
  }

  predicate NormalList(num: Reader, less: Order, xs: Values)
    decreases xs
  {
    xs.Values? ==> Normal(num, less, xs.head) && NormalList(num, less, xs.tail)
  }

  predicate NormalFields(num: Reader, less: Order, ms: Members)
    decreases ms
  {
    ms.Members? ==> ms.key != PROTO && Normal(num, less, ms.value) && NormalFields(num, less, ms.rest)
  }

  lemma {:induction false} HeadIsLeast(less: Order, ms: Members, k: string)
    requires StrictTotal(less) && ms.Members? && Sorted(less, ms) && k in Keys(ms.rest)
    ensures less(ms.key, k)
  {
    if k != ms.rest.key { HeadIsLeast(less, ms.rest, k); }
  }

  lemma {:induction false} TreeKeys(num: Reader, less: Order, ms: Members)
    requires NormalFields(num, less, ms)
    ensures TreeMembers(ms).Keys == Keys(ms)
  {
    if ms.Members? { TreeKeys(num, less, ms.rest); }
  }

  lemma {:induction false} TreeKeysWithin(ms: Members)
    ensures TreeMembers(ms).Keys <= Keys(ms)
  {
    if ms.Members? { TreeKeysWithin(ms.rest); }
  }

  // ---------------------------------------------------------------- normalize yields normal forms

  lemma {:induction false} Inserted(num: Reader, less: Order, k: string, v: Value, ms: Members)
    requires StrictTotal(less) && Sorted(less, ms) && NormalFields(num, less, ms)
    requires Normal(num, less, v) && k != PROTO && k !in Keys(ms)
    ensures var r := Insert(less, k, v, ms);
            && Sorted(less, r) && NormalFields(num, less, r) && Keys(r) == Keys(ms) + {k}
            && TreeMembers(r) == TreeMembers(ms)[k := TreeOf(v)]
  {
    if ms.Members? && !less(k, ms.key) {
      Inserted(num, less, k, v, ms.rest);
      InsertedMeaning(less, k, v, ms);
      assert less(ms.key, k);
    }
  }

  lemma InsertedMeaning(less: Order, k: string, v: Value, ms: Members)
    requires ms.Members? && !less(k, ms.key) && k != ms.key
    requires TreeMembers(Insert(less, k, v, ms.rest)) == TreeMembers(ms.rest)[k := TreeOf(v)]
    ensures TreeMembers(Insert(less, k, v, ms)) == TreeMembers(ms)[k := TreeOf(v)]
  {
    TreeKeysWithin(ms.rest);
  }

  lemma {:induction false} NormalFormMeans(num: Reader, less: Order, v: Value)
    requires StrictTotal(less) && WellFormed(num, v)
    ensures NormalForm(less, v).Some? <==> Plain(v)
    ensures Plain(v) ==> Normal(num, less, NormalForm(less, v).value) && TreeOf(NormalForm(less, v).value) == TreeOf(v)
    decreases v
  {
    match v
    case Arr(xs) => NormalItemsMean(num, less, xs);
    case Obj(ms) =>
      NormalMembersMean(num, less, ms, NoMembers);
      assert map[] + TreeMembers(ms) == TreeMembers(ms);
    case _ =>
  }

  lemma {:induction false} NormalItemsMean(num: Reader, less: Order, xs: Values)
    requires StrictTotal(less) && WellFormedItems(num, xs)
    ensures NormalItems(less, xs).Some? <==> PlainItems(xs)
    ensures PlainItems(xs) ==> NormalList(num, less, NormalItems(less, xs).value)
                               && TreeItems(NormalItems(less, xs).value) == TreeItems(xs)
    decreases xs
  {
    if xs.Values? { NormalFormMeans(num, less, xs.head); NormalItemsMean(num, less, xs.tail); }
  }

  lemma UpdateLate(a: map<string, Tree>, b: map<string, Tree>, k: string, t: Tree)
    requires k !in b
    ensures a[k := t] + b == a + b[k := t]
  {
  }

  lemma {:induction false} NormalMembersMean(num: Reader, less: Order, ms: Members, output: Members)
    requires StrictTotal(less) && WellFormedMembers(num, ms)
    requires Sorted(less, output) && NormalFields(num, less, output) && Keys(output) !! Keys(ms)
    ensures NormalMembers(less, ms, output).Some? <==> PlainMembers(ms)
    ensures PlainMembers(ms) ==>
              var r := NormalMembers(less, ms, output).value;
              Sorted(less, r) && NormalFields(num, less, r) && TreeMembers(r) == TreeMembers(output) + TreeMembers(ms)
    decreases ms
  {
    if ms.Members? {
      TreeKeysWithin(ms.rest);
      TreeKeysWithin(output);
      if !ms.value.Undefined? { NormalFormMeans(num, less, ms.value); }
      if ms.value.Undefined? || ms.key == PROTO {
        NormalMembersMean(num, less, ms.rest, output);
      } else if NormalForm(less, ms.value).Some? {
        var v := NormalForm(less, ms.value).value;
        Inserted(num, less, ms.key, v, output);
        NormalMembersMean(num, less, ms.rest, Insert(less, ms.key, v, output));
        UpdateLate(TreeMembers(output), TreeMembers(ms.rest), ms.key, TreeOf(v));
      }
    }
  }

  // ---------------------------------------------------------------- normal forms are their own

  function Append(a: Members, b: Members): Members {
    if a.NoMembers? then b else Members(a.key, a.value, Append(a.rest, b))
  }

  lemma {:induction false} AppendAssociates(a: Members, b: Members, c: Members)
    ensures Append(Append(a, b), c) == Append(a, Append(b, c))
  {
    if a.Members? { AppendAssociates(a.rest, b, c); }
  }

  lemma {:induction false} AppendNothing(a: Members)
    ensures Append(a, NoMembers) == a
  {
    if a.Members? { AppendNothing(a.rest); }
  }

  lemma {:induction false} InsertAtEnd(less: Order, a: Members, k: string, v: Value, rest: Members)
    requires StrictTotal(less) && Sorted(less, Append(a, Members(k, v, rest)))
    ensures Insert(less, k, v, a) == Append(a, Members(k, v, NoMembers))
  {
    if a.Members? {
      InsertAtEnd(less, a.rest, k, v, rest);
      KeysOfAppend(a.rest, Members(k, v, rest));
      HeadIsLeast(less, Append(a, Members(k, v, rest)), k);
    }
  }

  lemma {:induction false} KeysOfAppend(a: Members, b: Members)
    ensures Keys(Append(a, b)) == Keys(a) + Keys(b)
  {
    if a.Members? { KeysOfAppend(a.rest, b); }
  }

  lemma {:induction false} NormalFormOfNormal(num: Reader, less: Order, v: Value)
    requires StrictTotal(less) && Normal(num, less, v)
    ensures NormalForm(less, v) == Some(v)
    decreases v
  {
    match v
    case Arr(xs) => NormalItemsOfNormal(num, less, xs);
    case Obj(ms) => NormalMembersOfNormal(num, less, ms, NoMembers);
    case _ =>
  }

  lemma {:induction false} NormalItemsOfNormal(num: Reader, less: Order, xs: Values)
    requires StrictTotal(less) && NormalList(num, less, xs)
    ensures NormalItems(less, xs) == Some(xs)
    decreases xs
  {
    if xs.Values? { NormalFormOfNormal(num, less, xs.head); NormalItemsOfNormal(num, less, xs.tail); }
  }

  lemma {:induction false} NormalMembersOfNormal(num: Reader, less: Order, ms: Members, output: Members)
    requires StrictTotal(less) && NormalFields(num, less, ms) && Sorted(less, Append(output, ms))
    ensures NormalMembers(less, ms, output) == Some(Append(output, ms))
    decreases ms
  {
    if ms.NoMembers? { AppendNothing(output); }
    else {
      NormalFormOfNormal(num, less, ms.value);
      InsertAtEnd(less, output, ms.key, ms.value, ms.rest);
      var one := Members(ms.key, ms.value, NoMembers);
      AppendAssociates(output, one, ms.rest);
      assert Append(one, ms.rest) == ms;
      NormalMembersOfNormal(num, less, ms.rest, Append(output, one));
    }
  }

  // ---------------------------------------------------------------- one normal form for each meaning

  lemma {:induction false} NormalUnique(num: Reader, less: Order, a: Value, b: Value)
    requires StrictTotal(less) && Normal(num, less, a) && Normal(num, less, b) && TreeOf(a) == TreeOf(b)
    ensures a == b
    decreases a
  {
    match a
    case Arr(xs) => NormalListUnique(num, less, xs, b.items);
    case Obj(ms) => NormalFieldsUnique(num, less, ms, b.members);
    case _ =>
  }

  lemma {:induction false} NormalListUnique(num: Reader, less: Order, xs: Values, ys: Values)
    requires StrictTotal(less) && NormalList(num, less, xs) && NormalList(num, less, ys) && TreeItems(xs) == TreeItems(ys)
    ensures xs == ys
    decreases xs
  {
    assert xs.NoValues? <==> TreeItems(xs) == [];
    assert ys.NoValues? <==> TreeItems(ys) == [];
    if xs.Values? {
      assert TreeItems(xs)[0] == TreeOf(xs.head) && TreeItems(xs)[1..] == TreeItems(xs.tail);
      assert TreeItems(ys)[0] == TreeOf(ys.head) && TreeItems(ys)[1..] == TreeItems(ys.tail);
      NormalUnique(num, less, xs.head, ys.head);
      NormalListUnique(num, less, xs.tail, ys.tail);
    }
  }

  lemma {:induction false} NormalFieldsUnique(num: Reader, less: Order, ms: Members, ns: Members)
    requires StrictTotal(less) && Sorted(less, ms) && Sorted(less, ns)
    requires NormalFields(num, less, ms) && NormalFields(num, less, ns) && TreeMembers(ms) == TreeMembers(ns)
    ensures ms == ns
    decreases ms
  {
    TreeKeys(num, less, ms);
    TreeKeys(num, less, ns);
    if ms.Members? {
      assert ms.key in Keys(ns);
      assert ns.key in Keys(ms);
      if ms.key != ns.key { HeadIsLeast(less, ms, ns.key); HeadIsLeast(less, ns, ms.key); }
      NormalUnique(num, less, ms.value, ns.value);
      if ms.key in Keys(ms.rest) { HeadIsLeast(less, ms, ms.key); }
      if ns.key in Keys(ns.rest) { HeadIsLeast(less, ns, ns.key); }
      TreeKeys(num, less, ms.rest);
      TreeKeys(num, less, ns.rest);
      assert TreeMembers(ms.rest) == TreeMembers(ms) - {ms.key};
      assert TreeMembers(ns.rest) == TreeMembers(ns) - {ns.key};
      NormalFieldsUnique(num, less, ms.rest, ns.rest);
    }
  }
}
