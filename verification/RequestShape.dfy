/** The text whose hash is a request digest (src/canonical.ts), member by member. */
module RequestShape {
  import opened Basics
  import opened Decimal
  import opened CanonicalJson
  import opened CanonicalJsonShape
  import opened JsonObjects
  import opened KeyOrder
  import R = RequestDigests

  lemma OrderOfKeys()
    ensures KeyLess("bodyDigest", "method") && KeyLess("method", "uri") && KeyLess("bodyDigest", "uri")
    ensures !KeyLess("method", "bodyDigest") && !KeyLess("uri", "bodyDigest") && !KeyLess("uri", "method")
  {
    assert !Digit("bodyDigest"[0]) && !Digit("method"[0]) && !Digit("uri"[0]);
    assert Rank('b') < Rank('m') < Rank('u');
  }

  lemma Sorted(b: Value, m: Value, u: Value)
    requires b.Str? || b.Null?
    requires m.Str? && u.Str?
    ensures NormalForm(KeyLess, Obj(FieldsOf(R.REQUEST_KEYS, [m, u, b])))
            == Some(Obj(Members("bodyDigest", b, Members("method", m, Members("uri", u, NoMembers)))))
  {
    OrderOfKeys();
    Fields(b, m, u);
    Names();
    assert Insert(KeyLess, "method", m, NoMembers) == Members("method", m, NoMembers);
    assert Insert(KeyLess, "uri", u, Members("method", m, NoMembers)) == Members("method", m, Members("uri", u, NoMembers));
    Inserted(b, m, u);
  }

  lemma Names()
    ensures "method" != PROTO && "uri" != PROTO && "bodyDigest" != PROTO
  {
    assert PROTO[0] == '_';
  }

  lemma Inserted(b: Value, m: Value, u: Value)
    requires (b.Str? || b.Null?) && m.Str? && u.Str?
    requires Insert(KeyLess, "method", m, NoMembers) == Members("method", m, NoMembers)
    requires Insert(KeyLess, "uri", u, Members("method", m, NoMembers)) == Members("method", m, Members("uri", u, NoMembers))
    requires KeyLess("bodyDigest", "method") && "method" != PROTO && "uri" != PROTO && "bodyDigest" != PROTO
    ensures NormalMembers(KeyLess, Members("method", m, Members("uri", u, Members("bodyDigest", b, NoMembers))), NoMembers)
            == Some(Members("bodyDigest", b, Members("method", m, Members("uri", u, NoMembers))))
  {
    var two := Members("method", m, Members("uri", u, NoMembers));
    assert NormalMembers(KeyLess, Members("bodyDigest", b, NoMembers), two) == Some(Members("bodyDigest", b, two));
    assert NormalMembers(KeyLess, Members("uri", u, Members("bodyDigest", b, NoMembers)), Members("method", m, NoMembers))
           == NormalMembers(KeyLess, Members("bodyDigest", b, NoMembers), two);
  }

  lemma OneField(key: string, keys: seq<string>, v: Value, vals: seq<Value>)
    requires |keys| == |vals|
    ensures FieldsOf([key] + keys, [v] + vals) == Members(key, v, FieldsOf(keys, vals))
  {
    assert ([key] + keys)[1..] == keys && ([v] + vals)[1..] == vals;
  }

  lemma Fields(b: Value, m: Value, u: Value)
    ensures FieldsOf(R.REQUEST_KEYS, [m, u, b]) == Members("method", m, Members("uri", u, Members("bodyDigest", b, NoMembers)))
  {
    var k1, k2, k3 := ["bodyDigest"] + [], ["uri"] + (["bodyDigest"] + []), ["method"] + (["uri"] + (["bodyDigest"] + []));
    var v1, v2, v3 := [b] + [], [u] + ([b] + []), [m] + ([u] + ([b] + []));
    OneField("bodyDigest", [], b, []);
    OneField("uri", k1, u, v1);
    OneField("method", k2, m, v2);
    assert k3 == R.REQUEST_KEYS && v3 == [m, u, b];
  }

  /** Uppercasing takes each small letter to its capital and leaves every other character. */
  lemma UpperText(s: string, i: nat)
    requires i < |s|
    ensures |R.Upper(s)| == |s|
    ensures forall n :: 0 <= n < 26 && s[i] == "abcdefghijklmnopqrstuvwxyz"[n] ==> R.Upper(s)[i] == "ABCDEFGHIJKLMNOPQRSTUVWXYZ"[n]
    ensures s[i] !in "abcdefghijklmnopqrstuvwxyz" ==> R.Upper(s)[i] == s[i]
  {
    forall n | 0 <= n < 26 ensures "abcdefghijklmnopqrstuvwxyz"[n] == 'a' + n as char && "ABCDEFGHIJKLMNOPQRSTUVWXYZ"[n] == 'A' + n as char {
      Letters(n);
    }
    if 'a' <= s[i] <= 'z' { assert "abcdefghijklmnopqrstuvwxyz"[s[i] as int - 'a' as int] == s[i]; }
  }

  lemma Letters(n: nat)
    requires n < 26
    ensures "abcdefghijklmnopqrstuvwxyz"[n] == 'a' + n as char
    ensures "ABCDEFGHIJKLMNOPQRSTUVWXYZ"[n] == 'A' + n as char
  {
  }

  /** The body digest or null, the uppercased method and the URI, as an object in canonical order. */
  lemma RequestText(httpMethod: string, uri: string, bodyDigest: Option<string>)
    ensures var b := if bodyDigest.None? then Null else Str(bodyDigest.value);
            R.Text(KeyLess, httpMethod, uri, bodyDigest)
            == "{" + (MemberText("bodyDigest", b) + ("," + (MemberText("method", Str(R.Upper(httpMethod))) + ("," + MemberText("uri", Str(uri)))))) + "}"
  {
    var b, m, u := if bodyDigest.None? then Null else Str(bodyDigest.value), Str(R.Upper(httpMethod)), Str(uri);
    Sorted(b, m, u);
    ThreeMembers("bodyDigest", b, "method", m, "uri", u);
  }

  lemma ThreeMembers(i: string, x: Value, j: string, y: Value, k: string, z: Value)
    ensures PrintMembers(Members(i, x, Members(j, y, Members(k, z, NoMembers))))
            == MemberText(i, x) + ("," + (MemberText(j, y) + ("," + MemberText(k, z))))
  {
    OneMember(Members(k, z, NoMembers));
    OneMember(Members(j, y, Members(k, z, NoMembers)));
    OneMember(Members(i, x, Members(j, y, Members(k, z, NoMembers))));
  }
}
