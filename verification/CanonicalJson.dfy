/**
 * Canonical JSON text (src/canonical-json.ts): normalize, print, and parse back.
 *
 * A finite number is identified with the text ECMAScript prints for it, and `num` reads any
 * number literal to that text (None when it is malformed or overflows). `less` is the order in
 * which JSON.stringify walks the keys of a normalized object: array-index keys first, then the
 * sorted remainder. Nothing is assumed of it but that it is a strict total order.
 */
module CanonicalJson {
  import opened Basics

  type Reader = string -> Option<string>
  type Order = (string, string) -> bool

  /** A JavaScript value; Opaque stands for everything that is not plain JSON (NaN, Date, ...). */
  datatype Value =
    | Undefined | Opaque | Null | Bool(b: bool) | Num(text: string) | Str(s: string)
    | Arr(items: Values) | Obj(members: Members)
  datatype Values = NoValues | Values(head: Value, tail: Values)
  datatype Members = NoMembers | Members(key: string, value: Value, rest: Members)

  // Assigning this key on a plain object sets its prototype and leaves no member behind.
  const PROTO := "__proto__"

  // ---------------------------------------------------------------- hypotheses

  predicate NumberChar(c: char) { '0' <= c <= '9' || c in "+-.eE" }

  predicate NumberText(t: string) {
    && t != "" && (t[0] == '-' || '0' <= t[0] <= '9')
    && forall i :: 0 <= i < |t| ==> NumberChar(t[i])
  }

  ghost predicate Lawful(num: Reader) {
    forall t :: num(t).Some? ==> NumberText(num(t).value) && num(num(t).value) == num(t)
  }

  ghost predicate StrictTotal(less: Order) {
    && (forall a :: !less(a, a))
    && (forall a, b, c :: less(a, b) && less(b, c) ==> less(a, c))
    && (forall a, b :: a == b || less(a, b) || less(b, a))
  }

  // ---------------------------------------------------------------- values

  function Keys(ms: Members): set<string> {
    if ms.NoMembers? then {} else {ms.key} + Keys(ms.rest)
  }

  /** An object has each key once, and numbers are what `num` reads them to. */
  predicate WellFormed(num: Reader, v: Value)
    decreases v
  {
    match v
    case Num(t) => num(t) == Some(t)
    case Arr(xs) => WellFormedItems(num, xs)
    case Obj(ms) => WellFormedMembers(num, ms)
    case _ => true
  }

  predicate WellFormedItems(num: Reader, xs: Values)
    decreases xs
  {
    xs.Values? ==> WellFormed(num, xs.head) && WellFormedItems(num, xs.tail)
  }

  predicate WellFormedMembers(num: Reader, ms: Members)
    decreases ms
  {
    ms.Members? ==> ms.key !in Keys(ms.rest) && WellFormed(num, ms.value) && WellFormedMembers(num, ms.rest)
  }

  /** What a value means: member order, undefined members and PROTO are gone. */
  datatype Tree =
    | TNone | TNull | TBool(b: bool) | TNum(text: string) | TStr(s: string)
    | TArr(items: seq<Tree>) | TObj(members: map<string, Tree>)

  function TreeOf(v: Value): Tree
    decreases v
  {
    match v
    case Undefined => TNone
    case Opaque => TNone
    case Null => TNull
    case Bool(b) => TBool(b)
    case Num(t) => TNum(t)
    case Str(s) => TStr(s)
    case Arr(xs) => TArr(TreeItems(xs))
    case Obj(ms) => TObj(TreeMembers(ms))
  }

  function TreeItems(xs: Values): seq<Tree>
    decreases xs
  {
    if xs.NoValues? then [] else [TreeOf(xs.head)] + TreeItems(xs.tail)
  }

  function TreeMembers(ms: Members): map<string, Tree>
    decreases ms
  {
    if ms.NoMembers? then map[]
    else if ms.value.Undefined? || ms.key == PROTO then TreeMembers(ms.rest)
    else TreeMembers(ms.rest)[ms.key := TreeOf(ms.value)]
  }

  /** Everything normalize accepts: undefined only as a member, and no opaque part anywhere. */
  predicate Plain(v: Value)
    decreases v
  {
    match v
    case Undefined => false
    case Opaque => false
    case Arr(xs) => PlainItems(xs)
    case Obj(ms) => PlainMembers(ms)
    case _ => true
  }

  predicate PlainItems(xs: Values)
    decreases xs
  {
    xs.Values? ==> Plain(xs.head) && PlainItems(xs.tail)
  }

  predicate PlainMembers(ms: Members)
    decreases ms
  {
    ms.Members? ==> (ms.value.Undefined? || Plain(ms.value)) && PlainMembers(ms.rest)
  }

  // ---------------------------------------------------------------- normalize

  function Insert(less: Order, k: string, v: Value, ms: Members): Members {
    if ms.NoMembers? || less(k, ms.key) then Members(k, v, ms)
    else Members(ms.key, ms.value, Insert(less, k, v, ms.rest))
  }

  function NormalForm(less: Order, v: Value): Option<Value>
    decreases v
  {
    match v
    case Undefined => None
    case Opaque => None
    case Arr(xs) =>
      var items := NormalItems(less, xs);
      if items.None? then None else Some(Arr(items.value))
    case Obj(ms) =>
      var members := NormalMembers(less, ms, NoMembers);
      if members.None? then None else Some(Obj(members.value))
    case _ => Some(v)
  }

  function NormalItems(less: Order, xs: Values): Option<Values>
    decreases xs
  {
    if xs.NoValues? then Some(NoValues)
    else
      var head, tail := NormalForm(less, xs.head), NormalItems(less, xs.tail);
      if head.None? || tail.None? then None else Some(Values(head.value, tail.value))
  }

  function NormalMembers(less: Order, ms: Members, output: Members): Option<Members>
    decreases ms
  {
    if ms.NoMembers? then Some(output)
    else if ms.value.Undefined? then NormalMembers(less, ms.rest, output)
    else
      var child := NormalForm(less, ms.value);
      if child.None? then None
      else NormalMembers(less, ms.rest, if ms.key == PROTO then output else Insert(less, ms.key, child.value, output))
  }

  method Normalize(less: Order, v: Value) returns (r: Option<Value>)
    ensures r == NormalForm(less, v)
    decreases v
  {
    match v
    case Undefined => r := None;
    case Opaque => r := None;
    case Arr(xs) =>
      var items := NormalizeItems(less, xs);
      r := if items.None? then None else Some(Arr(items.value));
    case Obj(ms) =>
      var output, todo := NoMembers, ms;
      while todo.Members?
        invariant todo == ms || todo < ms
        invariant NormalMembers(less, ms, NoMembers) == NormalMembers(less, todo, output)
        decreases todo
      {
        if !todo.value.Undefined? {
          var child := Normalize(less, todo.value);
          if child.None? { return None; }
          if todo.key != PROTO { output := Insert(less, todo.key, child.value, output); }
        }
        todo := todo.rest;
      }
      r := Some(Obj(output));
    case _ => r := Some(v);
  }

  method NormalizeItems(less: Order, xs: Values) returns (r: Option<Values>)
    ensures r == NormalItems(less, xs)
    decreases xs
  {
    if xs.NoValues? { return Some(NoValues); }
    var head := Normalize(less, xs.head);
    var tail := NormalizeItems(less, xs.tail);
    r := if head.None? || tail.None? then None else Some(Values(head.value, tail.value));
  }

  // ---------------------------------------------------------------- print

  function HexDigit(n: nat): char
    requires n < 16
  {
    if n < 10 then '0' + n as char else 'a' + (n - 10) as char
  }

  function Escaped(c: char): string {
    if c == '"' then "\\\""
    else if c == '\\' then "\\\\"
    else if c as int == 8 then "\\b"
    else if c == '\t' then "\\t"
    else if c == '\n' then "\\n"
    else if c as int == 12 then "\\f"
    else if c == '\r' then "\\r"
    else if c < ' ' then "\\u00" + [HexDigit(c as int / 16), HexDigit(c as int % 16)]
    else [c]
  }

  function Chars(s: string): string {
    if s == "" then "" else Escaped(s[0]) + Chars(s[1..])
  }

  function Quoted(s: string): string { "\"" + Chars(s) + "\"" }

  // Meaningful on normal forms; nothing else is ever printed.
  function Print(v: Value): string
    decreases v
  {
    match v
    case Undefined => ""
    case Opaque => ""
    case Null => "null"
    case Bool(b) => if b then "true" else "false"
    case Num(t) => t
    case Str(s) => Quoted(s)
    case Arr(xs) => "[" + PrintItems(xs) + "]"
    case Obj(ms) => "{" + PrintMembers(ms) + "}"
  }

  function PrintItems(xs: Values): string
    decreases xs
  {
    if xs.NoValues? then ""
    else if xs.tail.NoValues? then Print(xs.head)
    else Print(xs.head) + "," + PrintItems(xs.tail)
  }

  function PrintMembers(ms: Members): string
    decreases ms
  {
    if ms.NoMembers? then ""
    else
      var member := Quoted(ms.key) + ":" + Print(ms.value);
      if ms.rest.NoMembers? then member else member + "," + PrintMembers(ms.rest)
  }

  /** canonicalJson: None where the source throws. */
  function Canonical(less: Order, v: Value): Option<string> {
    var n := NormalForm(less, v);
    if n.None? then None else Some(Print(n.value))
  }

  // ---------------------------------------------------------------- parse

  predicate Space(c: char) { c == ' ' || c == '\t' || c == '\n' || c == '\r' }

  function SkipSpace(s: string): (r: string)
    ensures |r| <= |s|
  {
    if s != "" && Space(s[0]) then SkipSpace(s[1..]) else s
  }

  function HexValue(c: char): Option<nat> {
    if '0' <= c <= '9' then Some(c as int - '0' as int)
    else if 'a' <= c <= 'f' then Some(c as int - 'a' as int + 10)
    else if 'A' <= c <= 'F' then Some(c as int - 'A' as int + 10)
    else None
  }

  // One escape sequence after its backslash: the character and how much text it took.
  function Unescape(s: string): (r: Option<(char, nat)>)
    ensures r.Some? ==> 0 < r.value.1 <= |s|
  {
    if s == "" then None
    else if s[0] == '"' || s[0] == '\\' || s[0] == '/' then Some((s[0], 1))
    else if s[0] == 'b' then Some((8 as char, 1))
    else if s[0] == 't' then Some(('\t', 1))
    else if s[0] == 'n' then Some(('\n', 1))
    else if s[0] == 'f' then Some((12 as char, 1))
    else if s[0] == 'r' then Some(('\r', 1))
    else if s[0] == 'u' && |s| >= 5 then
      var a, b, c, d := HexValue(s[1]), HexValue(s[2]), HexValue(s[3]), HexValue(s[4]);
      if a.None? || b.None? || c.None? || d.None? then None
      else
        var code := a.value * 4096 + b.value * 256 + c.value * 16 + d.value;
        if 0 <= code < 0xD800 || 0xE000 <= code < 0x1_0000 then Some((code as char, 5)) else None
    else None
  }

  // The rest of a string literal after its opening quote.
  function ParseChars(s: string, read: string): (r: Option<(string, string)>)
    ensures r.Some? ==> |r.value.1| < |s|
    decreases |s|
  {
    if s == "" || s[0] < ' ' then None
    else if s[0] == '"' then Some((read, s[1..]))
    else if s[0] == '\\' then
      var e := Unescape(s[1..]);
      if e.None? then None else ParseChars(s[1 + e.value.1..], read + [e.value.0])
    else ParseChars(s[1..], read + [s[0]])
  }

  function NumberLength(s: string): (n: nat)
    ensures n <= |s|
  {
    if s != "" && NumberChar(s[0]) then 1 + NumberLength(s[1..]) else 0
  }

  // A repeated key overwrites the earlier member.
  function Put(ms: Members, k: string, v: Value): Members {
    if ms.NoMembers? then Members(k, v, NoMembers)
    else if ms.key == k then Members(k, v, ms.rest)
    else Members(ms.key, ms.value, Put(ms.rest, k, v))
  }

  function ParseValue(num: Reader, input: string): (r: Option<(Value, string)>)
    ensures r.Some? ==> |r.value.1| < |input|
    decreases |input|, 0
  {
    var s := SkipSpace(input);
    if s == "" then None
    else if "null" <= s then Some((Null, s[4..]))
    else if "true" <= s then Some((Bool(true), s[4..]))
    else if "false" <= s then Some((Bool(false), s[5..]))
    else if s[0] == '"' then
      var t := ParseChars(s[1..], "");
      if t.None? then None else Some((Str(t.value.0), t.value.1))
    else if s[0] == '[' then
      var inner := SkipSpace(s[1..]);
      if inner != "" && inner[0] == ']' then Some((Arr(NoValues), inner[1..]))
      else
        var xs := ParseItems(num, inner);
        if xs.None? then None else Some((Arr(xs.value.0), xs.value.1))
    else if s[0] == '{' then
      var inner := SkipSpace(s[1..]);
      if inner != "" && inner[0] == '}' then Some((Obj(NoMembers), inner[1..]))
      else
        var ms := ParseMembers(num, inner, NoMembers);
        if ms.None? then None else Some((Obj(ms.value.0), ms.value.1))
    else
      var n := NumberLength(s);
      if n == 0 then None
      else
        var t := num(s[..n]);
        if t.None? then None else Some((Num(t.value), s[n..]))
  }

  function ParseItems(num: Reader, s: string): (r: Option<(Values, string)>)
    ensures r.Some? ==> |r.value.1| < |s|
    decreases |s|, 1
  {
    var first := ParseValue(num, s);
    if first.None? then None
    else
      var next := SkipSpace(first.value.1);
      if next == "" then None
      else if next[0] == ']' then Some((Values(first.value.0, NoValues), next[1..]))
      else if next[0] != ',' then None
      else
        var more := ParseItems(num, next[1..]);
        if more.None? then None else Some((Values(first.value.0, more.value.0), more.value.1))
  }

  // A member name and its colon: the name and the text after them.
  function ParseKey(input: string): (r: Option<(string, string)>)
    ensures r.Some? ==> |r.value.1| < |input|
  {
    var s := SkipSpace(input);
    if s == "" || s[0] != '"' then None
    else
      var key := ParseChars(s[1..], "");
      if key.None? then None
      else
        var colon := SkipSpace(key.value.1);
        if colon == "" || colon[0] != ':' then None else Some((key.value.0, colon[1..]))
  }

  function ParseMembers(num: Reader, s: string, read: Members): (r: Option<(Members, string)>)
    ensures r.Some? ==> |r.value.1| < |s|
    decreases |s|, 1
  {
    var key := ParseKey(s);
    if key.None? then None
    else
      var v := ParseValue(num, key.value.1);
      if v.None? then None
      else
        var next := SkipSpace(v.value.1);
        var read2 := Put(read, key.value.0, v.value.0);
        if next == "" then None
        else if next[0] == '}' then Some((read2, next[1..]))
        else if next[0] != ',' then None
        else ParseMembers(num, next[1..], read2)
  }

  /** JSON.parse. */
  function Parse(num: Reader, text: string): Option<Value> {
    var v := ParseValue(num, text);
    if v.None? || SkipSpace(v.value.1) != "" then None else Some(v.value.0)
  }

  /** parseCanonicalJsonBytes, after the bytes have been decoded. */
  function ParseCanonical(less: Order, num: Reader, text: string): Option<Value> {
    var v := Parse(num, text);
    if v.None? || Canonical(less, v.value) != Some(text) then None else v
  }
}
