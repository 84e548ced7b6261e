/** JSON objects written down field by field, and what their canonical text determines. */
module JsonObjects {
  import opened Basics
  import opened CanonicalJson
  import opened CanonicalJsonLaws
  import opened CanonicalJsonText

  function FieldsOf(keys: seq<string>, vals: seq<Value>): Members
    requires |keys| == |vals|
  {
    if keys == [] then NoMembers else Members(keys[0], vals[0], FieldsOf(keys[1..], vals[1..]))
  }

  predicate NoRepeats(keys: seq<string>) { forall i, j :: 0 <= i < j < |keys| ==> keys[i] != keys[j] }

  // A tree's members say v of key k.
  predicate Says(m: map<string, Tree>, k: string, v: Value) {
    if v.Undefined? then k !in m else k in m && m[k] == TreeOf(v)
  }

  lemma {:induction false} FieldsFacts(num: Reader, keys: seq<string>, vals: seq<Value>)
    requires |keys| == |vals| && NoRepeats(keys) && PROTO !in keys
    requires forall v :: v in vals ==> WellFormed(num, v) && (v.Undefined? || Plain(v))
    ensures forall k :: k in Keys(FieldsOf(keys, vals)) <==> k in keys
    ensures WellFormedMembers(num, FieldsOf(keys, vals)) && PlainMembers(FieldsOf(keys, vals))
    ensures forall i :: 0 <= i < |keys| ==> Says(TreeMembers(FieldsOf(keys, vals)), keys[i], vals[i])
    ensures TreeMembers(FieldsOf(keys, vals)).Keys <= Keys(FieldsOf(keys, vals))
    decreases |keys|
  {
    TreeKeysWithin(FieldsOf(keys, vals));
    if keys != [] {
      var ks, vs := keys[1..], vals[1..];
      assert keys == [keys[0]] + ks;
      assert keys[0] !in ks;
      FieldsFacts(num, ks, vs);
      var m := TreeMembers(FieldsOf(keys, vals));
      forall i | 0 <= i < |keys| ensures Says(m, keys[i], vals[i]) {
        if i > 0 { assert Says(TreeMembers(FieldsOf(ks, vs)), ks[i-1], vs[i-1]); }
      }
    }
  }

  predicate SameField(v: Value, w: Value) { v.Undefined? == w.Undefined? && (!v.Undefined? ==> TreeOf(v) == TreeOf(w)) }

  function Printed(less: Order, keys: seq<string>, vals: seq<Value>): string
    requires |keys| == |vals|
  {
    var text := Canonical(less, Obj(FieldsOf(keys, vals)));
    if text.None? then "" else text.value
  }

  ghost predicate Writable(num: Reader, keys: seq<string>, vals: seq<Value>) {
    && |keys| == |vals| && NoRepeats(keys) && PROTO !in keys
    && forall v :: v in vals ==> WellFormed(num, v) && (v.Undefined? || Plain(v))
  }

  /** The canonical text of an object determines every one of its fields. */
  lemma PrintedDetermines(num: Reader, less: Order, keys: seq<string>, vs: seq<Value>, ws: seq<Value>)
    requires Lawful(num) && StrictTotal(less) && Writable(num, keys, vs) && Writable(num, keys, ws)
    requires Printed(less, keys, vs) == Printed(less, keys, ws)
    ensures forall i :: 0 <= i < |keys| ==> SameField(vs[i], ws[i])
  {
    FieldsFacts(num, keys, vs);
    FieldsFacts(num, keys, ws);
    var v, w := Obj(FieldsOf(keys, vs)), Obj(FieldsOf(keys, ws));
    ParseCanonicalText(num, less, v);
    ParseCanonicalText(num, less, w);
    CanonicalTextIsMeaning(num, less, v, w);
    forall i | 0 <= i < |keys| ensures SameField(vs[i], ws[i]) {
      assert Says(TreeMembers(FieldsOf(keys, vs)), keys[i], vs[i]) && Says(TreeMembers(FieldsOf(keys, ws)), keys[i], ws[i]);
    }
  }
}
