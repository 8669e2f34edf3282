/** compareObjects of the configuration loader: a shallow, index-based
    comparison of two values of object type. */
module LoadConfig {
  import opened Wrappers
  import opened JsonValue

  /** `Object.keys(j).length` for an array or a plain object. */
  function KeyCount(j: Json): nat {
    match j
    case JArr(items) => |items|
    case JObj(fields) => |fields|
    case _ => 0
  }

  /** `j[i]`: an array's element, or a plain object's property named by the
      decimal digits of i. */
  function Index(j: Json, i: nat): Option<Json> {
    match j
    case JArr(items) => if i < |items| then Some(items[i]) else None
    case JObj(_) => Field(j, DecimalString(i))
    case _ => None
  }

  /** The first n indexed properties of a and b are strictly equal. */
  predicate IndexedEqual(a: Json, b: Json, n: nat) {
    forall i :: 0 <= i < n ==> StrictEq(Index(a, i), Index(b, i))
  }

  /** What compareObjects(objA, objB) returns or throws: false unless both
      are of object type; `Object.keys` throws on null; false when the key
      counts differ; otherwise whether the indexed properties agree. */
  function Compared(a: Json, b: Json): (r: Result<bool>)
    ensures !IsObjectType(a) || !IsObjectType(b) ==> r == Ok(false)
    ensures r.Throws? ==> a.JNull? || b.JNull?
    ensures r == Ok(true) ==> KeyCount(a) == KeyCount(b)
  {
    if !IsObjectType(a) || !IsObjectType(b) then Ok(false)
    else if a.JNull? || b.JNull? then Throws("TypeError")
    else Ok(KeyCount(a) == KeyCount(b) && IndexedEqual(a, b, KeyCount(a)))
  }

  /** compareObjects(objA, objB), with its early-returning loop. */
  method CompareObjects(objA: Json, objB: Json) returns (r: Result<bool>)
    ensures r == Compared(objA, objB)
  {
    if !IsObjectType(objA) || !IsObjectType(objB) {
      return Ok(false);
    }
    if objA.JNull? || objB.JNull? {
      return Throws("TypeError");
    }
    if KeyCount(objA) != KeyCount(objB) {
      return Ok(false);
    }
    for i := 0 to KeyCount(objA)
      invariant IndexedEqual(objA, objB, i)
    {
      if !StrictEq(Index(objA, i), Index(objB, i)) {
        return Ok(false);
      }
    }
    return Ok(true);
  }

  /** On two arrays the comparison is: same length and elementwise `===`. */
  lemma CompareArrays(xs: seq<Json>, ys: seq<Json>)
    ensures Compared(JArr(xs), JArr(ys)) ==
              Ok(|xs| == |ys| && forall i :: 0 <= i < |xs| ==> StrictEq(Some(xs[i]), Some(ys[i])))
  {
    if |xs| == |ys| {
      if forall i :: 0 <= i < |xs| ==> StrictEq(Some(xs[i]), Some(ys[i])) {
        assert IndexedEqual(JArr(xs), JArr(ys), |xs|) by {
          forall i | 0 <= i < |xs|
            ensures StrictEq(Index(JArr(xs), i), Index(JArr(ys), i))
          {
            assert Index(JArr(xs), i) == Some(xs[i]);
          }
        }
      } else {
        var i :| 0 <= i < |xs| && !StrictEq(Some(xs[i]), Some(ys[i]));
        assert Index(JArr(xs), i) == Some(xs[i]);
      }
    }
  }

  /** Two separately built arrays with equal contents, one element an array
      or an object, compare unequal: `===` compares the element references,
      which differ between the copies. */
  lemma CompositeElementNotSelfEqual(xs: seq<Json>, k: nat)
    requires k < |xs| && (xs[k].JArr? || xs[k].JObj?)
    ensures Compared(JArr(xs), JArr(xs)) == Ok(false)
  {
    assert Index(JArr(xs), k) == Some(xs[k]);
  }

  /** Two plain objects with as many keys, none starting with a digit, compare
      equal whatever their values: no property the loop reads exists. */
  lemma PlainObjectsCompareEqual(f: map<string, Json>, g: map<string, Json>)
    requires |f| == |g|
    requires forall k :: k in f ==> k == [] || !('0' <= k[0] <= '9')
    requires forall k :: k in g ==> k == [] || !('0' <= k[0] <= '9')
    ensures Compared(JObj(f), JObj(g)) == Ok(true)
  {
    forall i: nat | i < |f|
      ensures StrictEq(Index(JObj(f), i), Index(JObj(g), i))
    {
      var d := DecimalString(i);
      assert '0' <= d[0] <= '9';
      assert d !in f && d !in g;
    }
  }

  /** The comparison does not depend on the order of its arguments. */
  lemma CompareSymmetric(a: Json, b: Json)
    ensures Compared(a, b) == Compared(b, a)
  {
    if IsObjectType(a) && IsObjectType(b) && !a.JNull? && !b.JNull? && KeyCount(a) == KeyCount(b) {
      if IndexedEqual(a, b, KeyCount(a)) {
        forall i | 0 <= i < KeyCount(a)
          ensures StrictEq(Index(b, i), Index(a, i))
        {
          assert StrictEq(Index(a, i), Index(b, i));
        }
      } else {
        var i :| 0 <= i < KeyCount(a) && !StrictEq(Index(a, i), Index(b, i));
        assert !StrictEq(Index(b, i), Index(a, i));
      }
    }
  }
}
