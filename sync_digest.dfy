/** The digest side of lib/synchronization.js: a per-key digest of an object
    (`getObjectHash`) and the comparison of two digests into a list of key
    names to request plus one bundle of local values (`compareObjectHash`).
    MD5 and `JSON.stringify` are opaque functions carried by a `Hasher`. */
module SyncDigest {
  import opened Wrappers
  import opened JsonValue

  /** The two external functions the digest is built from. */
  datatype Hasher = Hasher(md5: string -> string, stringify: Json -> string)

  // ---------------------------------------------------------------------
  // Array.prototype.sort on strings: ascending code-unit order
  // ---------------------------------------------------------------------

  /** `a <= b` in JavaScript's default string order: lexicographic by code
      unit, a proper prefix first. */
  predicate LexLe(a: string, b: string)
    decreases |a|
  {
    |a| == 0 || (|b| > 0 && (a[0] < b[0] || (a[0] == b[0] && LexLe(a[1..], b[1..]))))
  }

  lemma {:induction false} LexLeReflexive(a: string)
    ensures LexLe(a, a)
    decreases |a|
  {
    if |a| > 0 {
      LexLeReflexive(a[1..]);
    }
  }

  lemma {:induction false} LexLeTotal(a: string, b: string)
    ensures LexLe(a, b) || LexLe(b, a)
    decreases |a|
  {
    if |a| > 0 && |b| > 0 && a[0] == b[0] {
      LexLeTotal(a[1..], b[1..]);
    }
  }

  lemma {:induction false} LexLeAntisymmetric(a: string, b: string)
    requires LexLe(a, b) && LexLe(b, a)
    ensures a == b
    decreases |a|
  {
    if |a| > 0 {
      LexLeAntisymmetric(a[1..], b[1..]);
      assert a == [a[0]] + a[1..] && b == [b[0]] + b[1..];
    }
  }

  lemma {:induction false} LexLeTransitive(a: string, b: string, c: string)
    requires LexLe(a, b) && LexLe(b, c)
    ensures LexLe(a, c)
    decreases |a|
  {
    if |a| > 0 && a[0] == b[0] && b[0] == c[0] {
      LexLeTransitive(a[1..], b[1..], c[1..]);
    }
  }

  predicate SortedStrings(s: seq<string>) {
    forall i, j :: 0 <= i < j < |s| ==> LexLe(s[i], s[j])
  }

  /** Inserts x into a sorted list before the first larger element. */
  function InsertString(x: string, s: seq<string>): (r: seq<string>)
    requires SortedStrings(s)
    ensures SortedStrings(r)
    ensures multiset(r) == multiset(s) + multiset{x}
    ensures |r| == |s| + 1
    decreases |s|
  {
    if s == [] then [x]
    else if LexLe(x, s[0]) then
      assert forall j :: 0 < j < |s| ==> LexLe(x, s[j]) by {
        forall j | 0 < j < |s| ensures LexLe(x, s[j]) {
          LexLeTransitive(x, s[0], s[j]);
        }
      }
      [x] + s
    else
      LexLeTotal(x, s[0]);
      var rest := InsertString(x, s[1..]);
      assert s == [s[0]] + s[1..];
      HeadBelowInsert(x, s, rest);
      [s[0]] + rest
  }

  /** The head of a sorted list is below everything of its tail with x
      added, when it is below x. */
  lemma HeadBelowInsert(x: string, s: seq<string>, rest: seq<string>)
    requires SortedStrings(s) && s != [] && LexLe(s[0], x)
    requires multiset(rest) == multiset(s[1..]) + multiset{x}
    ensures forall j :: 0 <= j < |rest| ==> LexLe(s[0], rest[j])
  {
    forall j | 0 <= j < |rest| ensures LexLe(s[0], rest[j]) {
      assert rest[j] in multiset(rest);
      if rest[j] != x {
        assert rest[j] in multiset(s[1..]);
        var k :| 0 <= k < |s[1..]| && s[1..][k] == rest[j];
        assert s[k + 1] == rest[j];
      }
    }
  }

  /** `tmp.sort()`: the strings in ascending order, same multiset. */
  function SortStrings(s: seq<string>): (r: seq<string>)
    ensures SortedStrings(r)
    ensures multiset(r) == multiset(s)
    decreases |s|
  {
    if s == [] then []
    else
      assert s == [s[0]] + s[1..];
      InsertString(s[0], SortStrings(s[1..]))
  }

  /** A sorted list is determined by its multiset: sorting does not depend on
      the order of its input. */
  lemma {:induction false} SortedUnique(a: seq<string>, b: seq<string>)
    requires SortedStrings(a) && SortedStrings(b)
    requires multiset(a) == multiset(b)
    ensures a == b
    decreases |a|
  {
    if a == [] {
      assert |b| == |multiset(b)| == 0;
    } else {
      SortedSameHead(a, b);
      MultisetTail(a);
      MultisetTail(b);
      SortedUnique(a[1..], b[1..]);
      assert a == [a[0]] + a[1..] && b == [b[0]] + b[1..];
    }
  }

  /** Two sorted lists with the same elements start with the same string. */
  lemma SortedSameHead(a: seq<string>, b: seq<string>)
    requires SortedStrings(a) && SortedStrings(b)
    requires multiset(a) == multiset(b) && a != []
    ensures b != [] && a[0] == b[0]
  {
    assert a[0] in multiset(b);
    var i :| 0 <= i < |b| && b[i] == a[0];
    assert b[0] in multiset(a);
    var j :| 0 <= j < |a| && a[j] == b[0];
    assert LexLe(b[0], a[0]) by { if i > 0 { assert LexLe(b[0], b[i]); } else { LexLeReflexive(a[0]); } }
    assert LexLe(a[0], b[0]) by { if j > 0 { assert LexLe(a[0], a[j]); } else { LexLeReflexive(b[0]); } }
    LexLeAntisymmetric(a[0], b[0]);
  }

  lemma MultisetTail(a: seq<string>)
    requires a != []
    ensures multiset(a[1..]) == multiset(a) - multiset{a[0]}
  {
    assert a == [a[0]] + a[1..];
  }

  // ---------------------------------------------------------------------
  // getObjectHash
  // ---------------------------------------------------------------------

  /** The MD5 of the JSON text of every array element, in array order. */
  function ElementHashes(h: Hasher, items: seq<Json>): (r: seq<string>)
    ensures |r| == |items|
    ensures forall i :: 0 <= i < |items| ==> r[i] == h.md5(h.stringify(items[i]))
  {
    seq(|items|, i requires 0 <= i < |items| => h.md5(h.stringify(items[i])))
  }

  /** The digest of one top-level field: an array is replaced by the sorted
      list of its element hashes before it is hashed. */
  function FieldDigest(h: Hasher, v: Json): string {
    if v.JArr? then h.md5(h.stringify(JArr(Strings(SortStrings(ElementHashes(h, v.items))))))
    else h.md5(h.stringify(v))
  }

  /** The digest object: one digest per own key, and no other keys. */
  function ObjectHash(h: Hasher, o: Json): (r: map<string, string>)
    ensures r.Keys == OwnFields(o).Keys
  {
    map k | k in OwnFields(o) :: FieldDigest(h, OwnFields(o)[k])
  }

  lemma {:induction false} ElementHashesConcat(h: Hasher, p: seq<Json>, q: seq<Json>)
    ensures ElementHashes(h, p + q) == ElementHashes(h, p) + ElementHashes(h, q)
  {
    var l, r := ElementHashes(h, p + q), ElementHashes(h, p) + ElementHashes(h, q);
    assert |l| == |r|;
    forall i | 0 <= i < |l| ensures l[i] == r[i] {
      if i < |p| { assert (p + q)[i] == p[i]; } else { assert (p + q)[i] == q[i - |p|]; }
    }
  }

  /** Hashing elements one by one maps equal multisets to equal multisets. */
  lemma {:induction false} ElementHashesPermutation(h: Hasher, a: seq<Json>, b: seq<Json>)
    requires multiset(a) == multiset(b)
    ensures multiset(ElementHashes(h, a)) == multiset(ElementHashes(h, b))
    decreases |a|
  {
    if a == [] {
      assert |b| == |multiset(b)| == 0;
    } else {
      assert a[0] in multiset(b);
      var i :| 0 <= i < |b| && b[i] == a[0];
      PermutationTails(a, b, i);
      ElementHashesPermutation(h, a[1..], b[..i] + b[i + 1..]);
      ElementHashesRemove(h, a, 0);
      ElementHashesRemove(h, b, i);
      var ha := h.md5(h.stringify(a[0]));
      assert a[..0] + a[1..] == a[1..];
      calc {
        multiset(ElementHashes(h, a));
        multiset(ElementHashes(h, a[1..])) + multiset{ha};
        multiset(ElementHashes(h, b[..i] + b[i + 1..])) + multiset{ha};
        multiset(ElementHashes(h, b));
      }
    }
  }

  /** Taking equal elements out of two permutations of each other leaves
      permutations of each other. */
  lemma PermutationTails(a: seq<Json>, b: seq<Json>, i: nat)
    requires multiset(a) == multiset(b) && a != [] && i < |b| && b[i] == a[0]
    ensures multiset(a[1..]) == multiset(b[..i] + b[i + 1..])
  {
    assert a[..0] + a[1..] == a[1..];
    MultisetRemove(a, 0);
    MultisetRemove(b, i);
  }

  lemma MultisetRemove(b: seq<Json>, i: nat)
    requires i < |b|
    ensures multiset(b[..i] + b[i + 1..]) == multiset(b) - multiset{b[i]}
  {
    assert b == b[..i] + [b[i]] + b[i + 1..];
  }

  /** Taking the element at i out of an array takes its hash out of the
      multiset of element hashes. */
  lemma ElementHashesRemove(h: Hasher, b: seq<Json>, i: nat)
    requires i < |b|
    ensures multiset(ElementHashes(h, b)) ==
            multiset(ElementHashes(h, b[..i] + b[i + 1..])) + multiset{h.md5(h.stringify(b[i]))}
  {
    assert b == b[..i] + [b[i]] + b[i + 1..];
    ElementHashesConcat(h, b[..i], [b[i]]);
    ElementHashesConcat(h, b[..i] + [b[i]], b[i + 1..]);
    ElementHashesConcat(h, b[..i], b[i + 1..]);
  }

  /** Reordering the elements of an array field leaves its digest unchanged. */
  lemma ArrayDigestPermutation(h: Hasher, a: seq<Json>, b: seq<Json>)
    requires multiset(a) == multiset(b)
    ensures FieldDigest(h, JArr(a)) == FieldDigest(h, JArr(b))
  {
    ElementHashesPermutation(h, a, b);
    SortedUnique(SortStrings(ElementHashes(h, a)), SortStrings(ElementHashes(h, b)));
  }

  /** `Arr`: the element hashes of an array, sorted. */
  method ArrayHashes(h: Hasher, items: seq<Json>) returns (tmp: seq<string>)
    ensures SortedStrings(tmp)
    ensures multiset(tmp) == multiset(ElementHashes(h, items))
  {
    tmp := [];
    for i := 0 to |items|
      invariant tmp == ElementHashes(h, items[..i])
    {
      tmp := tmp + [h.md5(h.stringify(items[i]))];
    }
    assert items[..|items|] == items;
    tmp := SortStrings(tmp);
  }

  /** `getObjectHash`: walks the own keys of the object and digests each. */
  method GetObjectHash(h: Hasher, o: Json) returns (diff: map<string, string>)
    ensures diff.Keys == OwnFields(o).Keys
    ensures forall k :: k in diff ==> diff[k] == FieldDigest(h, OwnFields(o)[k])
  {
    var fields := OwnFields(o);
    diff := map[];
    var todo := fields.Keys;
    while todo != {}
      invariant todo <= fields.Keys
      invariant diff.Keys == fields.Keys - todo
      invariant forall k :: k in diff ==> diff[k] == FieldDigest(h, fields[k])
    {
      var k :| k in todo;
      var val := fields[k];
      if val.JArr? {
        var tmp := ArrayHashes(h, val.items);
        SortedUnique(tmp, SortStrings(ElementHashes(h, val.items)));
        val := JArr(Strings(tmp));
      }
      diff := diff[k := h.md5(h.stringify(val))];
      todo := todo - {k};
    }
  }

  // ---------------------------------------------------------------------
  // compareObjectHash
  // ---------------------------------------------------------------------

  /** One element of the diff list: a key name to request, or the trailing
      bundle of local values (`undefined` for a key the local object lacks). */
  datatype DiffEntry = Name(key: string) | Bundle(contents: map<string, Option<Json>>)

  /** A remote digest read as a boolean: present and non-empty. */
  predicate Has(d: map<string, string>, k: string) {
    k in d && d[k] != ""
  }

  /** The remote keys requested: a non-empty key whose digests differ, or any
      key with no (truthy) local digest. */
  function DiffNames(own: map<string, string>, remote: map<string, string>): set<string> {
    set k | k in remote && ((k != "" && (k !in own || own[k] != remote[k])) || !Has(own, k))
  }

  /** The keys of the bundle: non-empty local keys the remote digest lacks,
      and every requested key. */
  function BundleKeys(own: map<string, string>, remote: map<string, string>): set<string> {
    (set k | k in own && k != "" && !Has(remote, k)) + DiffNames(own, remote)
  }

  /** The bundle: each of its keys with the local value under it. */
  function BundleOf(local: Json, keys: set<string>): (b: map<string, Option<Json>>)
    ensures b.Keys == keys
  {
    map k | k in keys :: Field(local, k)
  }

  /** A list of distinct key names, exactly the given set. */
  predicate ListsNames(d: seq<DiffEntry>, names: set<string>) {
    && (forall i :: 0 <= i < |d| ==> d[i].Name? && d[i].key in names)
    && (forall i, j :: 0 <= i < j < |d| ==> d[i] != d[j])
    && (forall k :: k in names ==> Name(k) in d)
  }

  lemma ListsNamesSnoc(d: seq<DiffEntry>, names: set<string>, k: string)
    requires ListsNames(d, names) && k !in names
    ensures ListsNames(d + [Name(k)], names + {k})
  {
    assert forall e :: e in d + [Name(k)] <==> e in d || e == Name(k);
  }

  /** The diff for a local object against a remote digest: the requested
      names, then the bundle when it has any key. */
  predicate IsDiff(d: seq<DiffEntry>, local: Json, own: map<string, string>, remote: map<string, string>) {
    var b := BundleOf(local, BundleKeys(own, remote));
    if b == map[] then ListsNames(d, DiffNames(own, remote))
    else |d| > 0 && d[|d| - 1] == Bundle(b) && ListsNames(d[..|d| - 1], DiffNames(own, remote))
  }

  /** `compareObjectHash(jsonObject, remoteJsonObject)`, where `None` stands
      for a null or undefined remote digest. A falsy local value throws: its
      digest is never computed and is then read or enumerated. A missing
      remote digest throws as soon as the local digest has a key to look up
      in it; otherwise the remote loop is skipped and the diff is empty. */
  method CompareObjectHash(h: Hasher, local: Json, remote: Option<map<string, string>>)
    returns (r: Result<seq<DiffEntry>>)
    ensures r.Throws? <==> !Truthy(local) || (remote.None? && OwnFields(local) != map[])
    ensures r.Ok? && remote.None? ==> r.value == []
    ensures r.Ok? && remote.Some? ==> IsDiff(r.value, local, ObjectHash(h, local), remote.value)
  {
    if !Truthy(local) {
      return Throws("TypeError");
    }
    var own := GetObjectHash(h, local);
    DigestIsObjectHash(h, local, own);
    if remote.None? {
      if own != map[] {
        assert own.Keys != {};
        return Throws("TypeError");
      }
      assert OwnFields(local).Keys == {};
      return Ok([]);
    }
    var contents := LocalOnly(local, own, remote.value);
    var names;
    names, contents := RequestedNames(local, own, remote.value, contents);
    BundleFromValues(contents, local, BundleKeys(own, remote.value));
    var diff := names;
    if |contents| > 0 {
      diff := names + [Bundle(contents)];
      assert diff[..|diff| - 1] == names;
    }
    return Ok(diff);
  }

  /** A digest with the keys and the per-key digests of `ObjectHash` is it. */
  lemma DigestIsObjectHash(h: Hasher, o: Json, d: map<string, string>)
    requires d.Keys == OwnFields(o).Keys
    requires forall k :: k in d ==> d[k] == FieldDigest(h, OwnFields(o)[k])
    ensures d == ObjectHash(h, o)
  {
  }

  /** A bundle with the right keys, each holding the local value, is the bundle. */
  lemma BundleFromValues(c: map<string, Option<Json>>, local: Json, keys: set<string>)
    requires c.Keys == keys && LocalValues(c, local)
    ensures c == BundleOf(local, keys)
    ensures |c| > 0 <==> BundleOf(local, keys) != map[]
  {
  }

  /** Every entry of a bundle holds the local value under its key. */
  predicate LocalValues(c: map<string, Option<Json>>, local: Json) {
    forall k :: k in c ==> c[k] == Field(local, k)
  }

  /** The first loop of `compareObjectHash`: the local keys the remote digest
      lacks, with their local values. */
  method LocalOnly(local: Json, own: map<string, string>, remote: map<string, string>)
    returns (contents: map<string, Option<Json>>)
    ensures contents.Keys == set k | k in own && k != "" && !Has(remote, k)
    ensures LocalValues(contents, local)
  {
    contents := map[];
    var todo := own.Keys;
    while todo != {}
      invariant todo <= own.Keys
      invariant contents.Keys == set k | k in own && k !in todo && k != "" && !Has(remote, k)
      invariant LocalValues(contents, local)
    {
      var k :| k in todo;
      if !Has(remote, k) && k != "" {
        contents := contents[k := Field(local, k)];
      }
      todo := todo - {k};
    }
  }

  /** The second loop of `compareObjectHash`: every requested remote key is
      listed once and added to the bundle. */
  method RequestedNames(local: Json, own: map<string, string>, remote: map<string, string>,
                        contents0: map<string, Option<Json>>)
    returns (diff: seq<DiffEntry>, contents: map<string, Option<Json>>)
    requires LocalValues(contents0, local)
    ensures ListsNames(diff, DiffNames(own, remote))
    ensures contents.Keys == contents0.Keys + DiffNames(own, remote)
    ensures LocalValues(contents, local)
  {
    diff := [];
    contents := contents0;
    ghost var names := DiffNames(own, remote);
    var todo := remote.Keys;
    while todo != {}
      invariant todo <= remote.Keys
      invariant ListsNames(diff, names - todo)
      invariant contents.Keys == contents0.Keys + (names - todo)
      invariant LocalValues(contents, local)
    {
      var k :| k in todo;
      RequestedStep(diff, contents, contents0, names, todo, k, local);
      if (k != "" && (k !in own || own[k] != remote[k])) || !Has(own, k) {
        diff := diff + [Name(k)];
        contents := contents[k := Field(local, k)];
      }
      todo := todo - {k};
    }
  }

  /** One pass of the second loop keeps its invariants, whether or not the
      key is requested. */
  lemma RequestedStep(diff: seq<DiffEntry>, contents: map<string, Option<Json>>,
                      contents0: map<string, Option<Json>>, names: set<string>,
                      todo: set<string>, k: string, local: Json)
    requires k in todo
    requires ListsNames(diff, names - todo)
    requires contents.Keys == contents0.Keys + (names - todo)
    requires LocalValues(contents, local)
    ensures k in names ==>
              && ListsNames(diff + [Name(k)], names - (todo - {k}))
              && contents[k := Field(local, k)].Keys == contents0.Keys + (names - (todo - {k}))
              && LocalValues(contents[k := Field(local, k)], local)
    ensures k !in names ==>
              && ListsNames(diff, names - (todo - {k}))
              && contents.Keys == contents0.Keys + (names - (todo - {k}))
  {
    if k in names {
      ListsNamesSnoc(diff, names - todo, k);
      assert (names - todo) + {k} == names - (todo - {k});
    } else {
      assert names - todo == names - (todo - {k});
    }
  }

  /** A key is requested exactly when its digests disagree or the local one is
      missing (for a non-empty key). */
  lemma RequestedIffDigestDiffers(own: map<string, string>, remote: map<string, string>, k: string)
    requires k != "" && k in remote && remote[k] != ""
    ensures k in DiffNames(own, remote) <==> k !in own || own[k] != remote[k]
  {
  }

  /** Two objects that differ only in the order of elements of their array
      fields have the same digest, so comparing them requests nothing. */
  lemma {:induction false} ReorderedArraysNoDiff(h: Hasher, a: Json, b: Json)
    requires a.JObj? && b.JObj? && a.fields.Keys == b.fields.Keys
    requires forall k :: k in a.fields ==>
               a.fields[k] == b.fields[k] ||
               (a.fields[k].JArr? && b.fields[k].JArr? && multiset(a.fields[k].items) == multiset(b.fields[k].items))
    requires forall s :: h.md5(s) != ""
    ensures ObjectHash(h, a) == ObjectHash(h, b)
    ensures DiffNames(ObjectHash(h, a), ObjectHash(h, b)) == {}
    ensures BundleKeys(ObjectHash(h, a), ObjectHash(h, b)) == {}
  {
    forall k | k in a.fields
      ensures FieldDigest(h, a.fields[k]) == FieldDigest(h, b.fields[k])
    {
      if a.fields[k] != b.fields[k] {
        ArrayDigestPermutation(h, a.fields[k].items, b.fields[k].items);
      }
    }
    var d := ObjectHash(h, a);
    assert d == ObjectHash(h, b);
    forall k | k in d ensures Has(d, k) {
      assert d[k] == FieldDigest(h, a.fields[k]);
    }
  }
}
