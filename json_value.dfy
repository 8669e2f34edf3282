/** JSON-shaped JavaScript values and the few JavaScript rules the model relies
    on: truthiness, `typeof x === "object"`, own-property lookup, strict
    equality and number-to-string conversion. */
module JsonValue {
  import opened Wrappers

  /** A parsed JSON value. Numbers are integers here; objects are maps from
      key to value (the enumeration order of keys is not modelled). */
  datatype Json =
    | JNull
    | JBool(b: bool)
    | JNum(n: int)
    | JStr(s: string)
    | JArr(items: seq<Json>)
    | JObj(fields: map<string, Json>)

  /** JavaScript truthiness of a value. */
  predicate Truthy(j: Json) {
    match j
    case JNull => false
    case JBool(b) => b
    case JNum(n) => n != 0
    case JStr(s) => s != ""
    case JArr(_) => true
    case JObj(_) => true
  }

  /** Truthiness of a property read, where an absent property is `undefined`. */
  predicate TruthyOpt(v: Option<Json>) {
    v.Some? && Truthy(v.value)
  }

  /** `typeof j === "object"`: true for null, arrays and plain objects. */
  predicate IsObjectType(j: Json) {
    j.JNull? || j.JArr? || j.JObj?
  }

  /** `j.key`: the own property of a plain object, `undefined` otherwise. */
  function Field(j: Json, key: string): (v: Option<Json>)
    ensures v.Some? <==> j.JObj? && key in j.fields
  {
    if j.JObj? && key in j.fields then Some(j.fields[key]) else None
  }

  /** The own enumerable properties of a value: those of a plain object; the
      model gives every other value none. */
  function OwnFields(j: Json): map<string, Json> {
    if j.JObj? then j.fields else map[]
  }

  /** `j.hasOwnProperty(key)` for a plain object. */
  predicate HasOwn(j: Json, key: string) {
    j.JObj? && key in j.fields
  }

  /** `a === b` for two property reads: `undefined` equals only itself,
      primitives compare by value and two composite values are distinct
      references, so never strictly equal. */
  predicate StrictEq(a: Option<Json>, b: Option<Json>) {
    match (a, b)
    case (None, None) => true
    case (Some(x), Some(y)) => !x.JArr? && !x.JObj? && x == y
    case _ => false
  }

  /** A list of strings as the elements of a JSON array of strings. */
  function Strings(s: seq<string>): (r: seq<Json>)
    ensures |r| == |s| && forall i :: 0 <= i < |s| ==> r[i] == JStr(s[i])
  {
    seq(|s|, i requires 0 <= i < |s| => JStr(s[i]))
  }

  /** The decimal digit character for d. */
  function Digit(d: nat): (c: char)
    requires d < 10
    ensures '0' <= c <= '9' && c as int - '0' as int == d
  {
    ('0' as int + d) as char
  }

  /** `String(n)` for a natural number: its decimal representation without
      leading zeros. */
  function DecimalString(n: nat): (s: string)
    ensures |s| >= 1
    ensures forall i :: 0 <= i < |s| ==> '0' <= s[i] <= '9'
    ensures n >= 10 ==> s[0] != '0'
    decreases n
  {
    if n < 10 then [Digit(n)] else DecimalString(n / 10) + [Digit(n % 10)]
  }

  /** Distinct numbers print as distinct strings. */
  lemma {:induction false} DecimalStringInjective(m: nat, n: nat)
    requires DecimalString(m) == DecimalString(n)
    ensures m == n
    decreases m + n
  {
    var s, t := DecimalString(m), DecimalString(n);
    if m < 10 || n < 10 {
      // a single digit is never the same string as two or more digits
      assert |s| == 1 <==> m < 10;
      assert |t| == 1 <==> n < 10;
      assert s[0] == t[0];
    } else {
      var sm, sn := DecimalString(m / 10), DecimalString(n / 10);
      assert s == sm + [Digit(m % 10)] && t == sn + [Digit(n % 10)];
      assert sm == s[..|s| - 1] && sn == t[..|t| - 1];
      DecimalStringInjective(m / 10, n / 10);
      assert Digit(m % 10) == s[|s| - 1] == t[|t| - 1] == Digit(n % 10);
    }
  }
}
