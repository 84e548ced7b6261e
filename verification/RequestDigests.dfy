/**
 * requestDigest (src/canonical.ts): the hash of a canonical text that names the method, the URI
 * and the body digest. Hashes are any functions; where two requests share a digest, either they
 * agree or the two texts are a collision.
 */
module RequestDigests {
  import opened Basics
  import opened CanonicalJson
  import opened JsonObjects
  import L = CanonicalJsonLaws
  import T = CanonicalJsonText

  datatype Body<Bytes> =
    | Absent
    | Empty
    | Json(value: Value)
    | Opaque(bytes: Bytes)
    | Precomputed(digest: string)
    | Stream

  // The text that is hashed. A body digest of None is null.
  function Text(less: Order, httpMethod: string, uri: string, bodyDigest: Option<string>): string {
    Printed(less, REQUEST_KEYS, [Str(Upper(httpMethod)), Str(uri), if bodyDigest.None? then Null else Str(bodyDigest.value)])
  }

  const REQUEST_KEYS := ["method", "uri", "bodyDigest"]

  function UpperChar(c: char): char { if 'a' <= c <= 'z' then c - 'a' + 'A' else c }

  function Upper(s: string): string { seq(|s|, i requires 0 <= i < |s| => UpperChar(s[i])) }

  function RequestDigest(less: Order, hash: string -> string, httpMethod: string, uri: string, bodyDigest: Option<string>): string {
    hash(Text(less, httpMethod, uri, bodyDigest))
  }

  predicate Collision(hash: string -> string, a: string, b: string) { a != b && hash(a) == hash(b) }

  lemma TextDetermines(num: Reader, less: Order, m1: string, u1: string, b1: Option<string>, m2: string, u2: string, b2: Option<string>)
    requires Lawful(num) && StrictTotal(less) && Text(less, m1, u1, b1) == Text(less, m2, u2, b2)
    ensures Upper(m1) == Upper(m2) && u1 == u2 && b1 == b2
  {
    var vs := [Str(Upper(m1)), Str(u1), if b1.None? then Null else Str(b1.value)];
    var ws := [Str(Upper(m2)), Str(u2), if b2.None? then Null else Str(b2.value)];
    PrintedDetermines(num, less, REQUEST_KEYS, vs, ws);
    assert SameField(vs[0], ws[0]) && SameField(vs[1], ws[1]) && SameField(vs[2], ws[2]);
  }

  /** Two requests have one digest exactly when they agree on uppercased method, URI and body digest, or exhibit a hash collision. */
  lemma DigestDetermines(num: Reader, less: Order, hash: string -> string,
                         m1: string, u1: string, b1: Option<string>, m2: string, u2: string, b2: Option<string>)
    requires Lawful(num) && StrictTotal(less)
    ensures RequestDigest(less, hash, m1, u1, b1) == RequestDigest(less, hash, m2, u2, b2) <==>
              (Upper(m1) == Upper(m2) && u1 == u2 && b1 == b2)
              || Collision(hash, Text(less, m1, u1, b1), Text(less, m2, u2, b2))
  {
    if Text(less, m1, u1, b1) == Text(less, m2, u2, b2) { TextDetermines(num, less, m1, u1, b1, m2, u2, b2); }
  }

  // ---------------------------------------------------------------- bodies

  // isPlainJsonValue: unlike normalize, it takes no undefined members.
  predicate PlainJson(v: Value)
    decreases v
  {
    match v
    case Undefined => false
    case Opaque => false
    case Arr(xs) => PlainJsonItems(xs)
    case Obj(ms) => PlainJsonMembers(ms)
    case _ => true
  }

  predicate PlainJsonItems(xs: Values)
    decreases xs
  {
    xs.Values? ==> PlainJson(xs.head) && PlainJsonItems(xs.tail)
  }

  predicate PlainJsonMembers(ms: Members)
    decreases ms
  {
    ms.Members? ==> PlainJson(ms.value) && PlainJsonMembers(ms.rest)
  }

  lemma {:induction false} PlainJsonIsPlain(v: Value)
    requires PlainJson(v)
    ensures Plain(v)
    decreases v
  {
    match v
    case Arr(xs) => PlainItemsToo(xs);
    case Obj(ms) => PlainMembersToo(ms);
    case _ =>
  }

  lemma {:induction false} PlainItemsToo(xs: Values)
    requires PlainJsonItems(xs)
    ensures PlainItems(xs)
    decreases xs
  {
    if xs.Values? { PlainJsonIsPlain(xs.head); PlainItemsToo(xs.tail); }
  }

  lemma {:induction false} PlainMembersToo(ms: Members)
    requires PlainJsonMembers(ms)
    ensures PlainMembers(ms)
    decreases ms
  {
    if ms.Members? { PlainJsonIsPlain(ms.value); PlainMembersToo(ms.rest); }
  }

  // None where the source throws.
  function BodyDigest<Bytes>(less: Order, hash: string -> string, hashBytes: Bytes -> string, noBytes: Bytes -> bool,
                             accepts: string -> bool, body: Body<Bytes>): Option<Option<string>> {
    match body
    case Absent => Some(None)
    case Empty => Some(None)
    case Json(v) =>
      if (v.Obj? || v.Arr?) && PlainJson(v) && Canonical(less, v).Some? then Some(Some(hash(Canonical(less, v).value))) else None
    case Opaque(bytes) => Some(if noBytes(bytes) then None else Some(hashBytes(bytes)))
    case Precomputed(digest) => if accepts(digest) then Some(Some(digest)) else None
    case Stream => None
  }

  /**
   * Which bodies have no digest, absent, empty and zero bytes alike, and which are refused: streams,
   * JSON that is not a plain object or array, and precomputed digests out of form.
   */
  lemma BodyDigestExactly<Bytes>(num: Reader, less: Order, hash: string -> string, hashBytes: Bytes -> string,
                                 noBytes: Bytes -> bool, accepts: string -> bool, body: Body<Bytes>)
    requires Lawful(num) && StrictTotal(less) && (body.Json? ==> WellFormed(num, body.value))
    ensures var r := BodyDigest(less, hash, hashBytes, noBytes, accepts, body);
            && (r == Some(None) <==> body.Absent? || body.Empty? || (body.Opaque? && noBytes(body.bytes)))
            && (r == None <==> body.Stream? || (body.Precomputed? && !accepts(body.digest))
                               || (body.Json? && !(PlainJson(body.value) && (body.value.Arr? || body.value.Obj?))))
            && (body.Precomputed? && accepts(body.digest) ==> r == Some(Some(body.digest)))
  {
    if body.Json? && PlainJson(body.value) {
      PlainJsonIsPlain(body.value);
      L.NormalFormMeans(num, less, body.value);
    }
  }

  /** JSON bodies have one digest exactly when they mean the same up to member order and PROTO members, or exhibit a hash collision. */
  lemma JsonBodiesAgree<Bytes>(num: Reader, less: Order, hash: string -> string, hashBytes: Bytes -> string,
                               noBytes: Bytes -> bool, accepts: string -> bool, v: Value, w: Value)
    requires Lawful(num) && StrictTotal(less) && WellFormed(num, v) && WellFormed(num, w)
    requires BodyDigest(less, hash, hashBytes, noBytes, accepts, Json(v)).Some?
    requires BodyDigest(less, hash, hashBytes, noBytes, accepts, Json(w)).Some?
    ensures BodyDigest(less, hash, hashBytes, noBytes, accepts, Json(v)) == BodyDigest(less, hash, hashBytes, noBytes, accepts, Json(w)) <==>
              TreeOf(v) == TreeOf(w) || Collision(hash, Canonical(less, v).value, Canonical(less, w).value)
  {
    PlainJsonIsPlain(v);
    PlainJsonIsPlain(w);
    T.CanonicalTextIsMeaning(num, less, v, w);
  }

  // ---------------------------------------------------------------- the whole body

  // The meaning of a value with every member, whatever its name.
  function Whole(v: Value): Tree
    decreases v
  {
    match v
    case Undefined => TNone
    case Opaque => TNone
    case Null => TNull
    case Bool(b) => TBool(b)
    case Num(t) => TNum(t)
    case Str(s) => TStr(s)
    case Arr(xs) => TArr(WholeItems(xs))
    case Obj(ms) => TObj(WholeMembers(ms))
  }

  function WholeItems(xs: Values): seq<Tree>
    decreases xs
  {
    if xs.NoValues? then [] else [Whole(xs.head)] + WholeItems(xs.tail)
  }

  function WholeMembers(ms: Members): map<string, Tree>
    decreases ms
  {
    if ms.NoMembers? then map[] else WholeMembers(ms.rest)[ms.key := Whole(ms.value)]
  }

  predicate ProtoFree(v: Value)
    decreases v
  {
    match v
    case Arr(xs) => ProtoFreeItems(xs)
    case Obj(ms) => ProtoFreeMembers(ms)
    case _ => true
  }

  predicate ProtoFreeItems(xs: Values)
    decreases xs
  {
    xs.Values? ==> ProtoFree(xs.head) && ProtoFreeItems(xs.tail)
  }

  predicate ProtoFreeMembers(ms: Members)
    decreases ms
  {
    ms.Members? ==> ms.key != PROTO && ProtoFree(ms.value) && ProtoFreeMembers(ms.rest)
  }

  lemma {:induction false} WholeKeys(ms: Members)
    ensures WholeMembers(ms).Keys == Keys(ms)
    decreases ms
  {
    if ms.Members? { WholeKeys(ms.rest); }
  }

  /** Canonicalization keeps a body whole exactly when no object in it, at any depth, has a PROTO member. */
  lemma {:induction false} WholeExactly(num: Reader, v: Value)
    requires PlainJson(v) && WellFormed(num, v)
    ensures TreeOf(v) == Whole(v) <==> ProtoFree(v)
    decreases v
  {
    match v
    case Arr(xs) => WholeItemsExactly(num, xs);
    case Obj(ms) => WholeMembersExactly(num, ms);
    case _ =>
  }

  lemma {:induction false} WholeItemsExactly(num: Reader, xs: Values)
    requires PlainJsonItems(xs) && WellFormedItems(num, xs)
    ensures TreeItems(xs) == WholeItems(xs) <==> ProtoFreeItems(xs)
    decreases xs
  {
    if xs.Values? {
      WholeExactly(num, xs.head);
      WholeItemsExactly(num, xs.tail);
      var a, b := TreeItems(xs), WholeItems(xs);
      assert a[0] == TreeOf(xs.head) && b[0] == Whole(xs.head);
      assert a[1..] == TreeItems(xs.tail) && b[1..] == WholeItems(xs.tail);
    }
  }

  lemma {:induction false} WholeMembersExactly(num: Reader, ms: Members)
    requires PlainJsonMembers(ms) && WellFormedMembers(num, ms)
    ensures TreeMembers(ms) == WholeMembers(ms) <==> ProtoFreeMembers(ms)
    ensures PROTO !in TreeMembers(ms)
    decreases ms
  {
    if ms.Members? {
      WholeExactly(num, ms.value);
      WholeMembersExactly(num, ms.rest);
      WholeKeys(ms.rest);
      L.TreeKeysWithin(ms.rest);
      var a, b := TreeMembers(ms.rest), WholeMembers(ms.rest);
      if ms.key != PROTO { SameUnder(a, b, ms.key, TreeOf(ms.value), Whole(ms.value)); }
      else { assert PROTO in WholeMembers(ms); }
    }
  }

  lemma SameUnder(a: map<string, Tree>, b: map<string, Tree>, k: string, s: Tree, t: Tree)
    requires k !in a && k !in b
    ensures a[k := s] == b[k := t] <==> a == b && s == t
  {
    assert a[k := s] - {k} == a && b[k := t] - {k} == b;
    assert a[k := s][k] == s && b[k := t][k] == t;
  }

  /** Bodies without PROTO members are told apart whole: one digest means one body, or a hash collision. */
  lemma WholeBodiesAgree<Bytes>(num: Reader, less: Order, hash: string -> string, hashBytes: Bytes -> string,
                                noBytes: Bytes -> bool, accepts: string -> bool, v: Value, w: Value)
    requires Lawful(num) && StrictTotal(less) && WellFormed(num, v) && WellFormed(num, w) && ProtoFree(v) && ProtoFree(w)
    requires var a := BodyDigest(less, hash, hashBytes, noBytes, accepts, Json(v));
             a.Some? && a == BodyDigest(less, hash, hashBytes, noBytes, accepts, Json(w))
    ensures Whole(v) == Whole(w) || Collision(hash, Canonical(less, v).value, Canonical(less, w).value)
  {
    JsonBodiesAgree(num, less, hash, hashBytes, noBytes, accepts, v, w);
    WholeExactly(num, v);
    WholeExactly(num, w);
  }

  /** A body and the same body with a PROTO member added share a digest, without any collision. */
  lemma ProtoMemberUnseen<Bytes>(less: Order, hash: string -> string, hashBytes: Bytes -> string,
                                 noBytes: Bytes -> bool, accepts: string -> bool)
    ensures var v := Obj(Members("a", Num("1"), NoMembers));
            var w := Obj(Members("a", Num("1"), Members(PROTO, Obj(NoMembers), NoMembers)));
            && PlainJson(v) && PlainJson(w) && Whole(v) != Whole(w)
            && Canonical(less, v).Some? && Canonical(less, w) == Canonical(less, v)
            && BodyDigest(less, hash, hashBytes, noBytes, accepts, Json(v)) == BodyDigest(less, hash, hashBytes, noBytes, accepts, Json(w))
            && BodyDigest(less, hash, hashBytes, noBytes, accepts, Json(v)).Some?
  {
    var v := Obj(Members("a", Num("1"), NoMembers));
    var w := Obj(Members("a", Num("1"), Members(PROTO, Obj(NoMembers), NoMembers)));
    ProtoDropped(less, Num("1"));
    WholeKeys(v.members);
    WholeKeys(w.members);
    assert PROTO in Keys(w.members) && PROTO !in Keys(v.members);
  }

  lemma ProtoDropped(less: Order, x: Value)
    requires x.Num?
    ensures var v, w := Obj(Members("a", x, NoMembers)), Obj(Members("a", x, Members(PROTO, Obj(NoMembers), NoMembers)));
            Canonical(less, v).Some? && Canonical(less, w) == Canonical(less, v)
  {
    var proto := Members(PROTO, Obj(NoMembers), NoMembers);
    var out := Insert(less, "a", x, NoMembers);
    assert NormalForm(less, x) == Some(x);
    assert NormalMembers(less, NoMembers, NoMembers) == Some(NoMembers);
    assert NormalForm(less, Obj(NoMembers)) == Some(Obj(NoMembers));
    assert NormalMembers(less, NoMembers, out) == Some(out);
    assert NormalMembers(less, proto, out) == NormalMembers(less, NoMembers, out);
    assert NormalMembers(less, Members("a", x, NoMembers), NoMembers) == NormalMembers(less, NoMembers, out);
    assert NormalMembers(less, Members("a", x, proto), NoMembers) == NormalMembers(less, proto, out);
  }
}
