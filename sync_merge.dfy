/** The merge side of lib/synchronization.js: answering a diff with local
    values (`sendObjectContents`) and applying received values to the local
    object (`applyObjectContents`), which merges nested values with
    `findDiffApply` and unions service arrays by `(api, serviceAddress)`. */
module SyncMerge {
  import opened Wrappers
  import opened JsonValue

  // ---------------------------------------------------------------------
  // Array union by (api, serviceAddress)
  // ---------------------------------------------------------------------

  /** The identity of a service entry: its `api` and `serviceAddress`. */
  function IdentOf(x: Json): (Option<Json>, Option<Json>) {
    (Field(x, "api"), Field(x, "serviceAddress"))
  }

  function Idents(s: seq<Json>): set<(Option<Json>, Option<Json>)> {
    set x | x in s :: IdentOf(x)
  }

  /** No two entries share an identity. */
  predicate NoDupIdents(s: seq<Json>) {
    forall i, j :: 0 <= i < j < |s| ==> IdentOf(s[i]) != IdentOf(s[j])
  }

  /** `rname && rname.id`: a remote entry that takes part in the union. */
  predicate HasId(r: Json) {
    Truthy(r) && TruthyOpt(Field(r, "id"))
  }

  /** `if (contains(localArr, x)) localArr.push(x)`: append unless an entry
      with the same identity is already there. */
  function PushNew(acc: seq<Json>, x: Json): (r: seq<Json>)
    ensures Idents(r) == Idents(acc) + {IdentOf(x)}
    ensures NoDupIdents(acc) ==> NoDupIdents(r)
    ensures forall y :: y in r ==> y in acc || y == x
  {
    if IdentOf(x) in Idents(acc) then acc
    else
      assert forall y :: y in acc + [x] <==> y in acc || y == x;
      assert forall i :: 0 <= i < |acc| ==> acc[i] in acc;
      acc + [x]
  }

  /** Pushes every element of xs in order, skipping known identities. */
  function PushAll(acc: seq<Json>, xs: seq<Json>): (r: seq<Json>)
    ensures Idents(r) == Idents(acc) + Idents(xs)
    ensures NoDupIdents(acc) ==> NoDupIdents(r)
    ensures forall y :: y in r ==> y in acc || y in xs
    decreases |xs|
  {
    if xs == [] then acc
    else
      assert xs == [xs[0]] + xs[1..];
      assert Idents(xs) == {IdentOf(xs[0])} + Idents(xs[1..]);
      PushAll(PushNew(acc, xs[0]), xs[1..])
  }

  /** The inner `localJson.forEach` for one remote entry r, from index i on:
      r is pushed on every identity match, and if no entry matched by the
      last index, r and that last local entry are pushed. */
  function ScanLocal(acc: seq<Json>, r: Json, local: seq<Json>, i: nat, found: bool): (res: seq<Json>)
    requires i <= |local|
    ensures Idents(acc) <= Idents(res)
    ensures NoDupIdents(acc) ==> NoDupIdents(res)
    ensures forall y :: y in res ==> y in acc || y == r || y in local
    ensures i < |local| && (found ==> IdentOf(r) in Idents(acc)) ==> IdentOf(r) in Idents(res)
    decreases |local| - i
  {
    if i == |local| then acc
    else
      var matches := IdentOf(r) == IdentOf(local[i]);
      var acc1 := if matches then PushNew(acc, r) else acc;
      var found1 := found || matches;
      var acc2 := if i + 1 == |local| && !found1 then PushNew(PushNew(acc1, r), local[i]) else acc1;
      ScanLocal(acc2, r, local, i + 1, found1)
  }

  /** The outer `remoteJson.forEach`, from index j on; after the last remote
      entry every local entry is pushed. */
  function ScanRemote(acc: seq<Json>, remote: seq<Json>, local: seq<Json>, j: nat): (res: seq<Json>)
    requires j <= |remote|
    ensures Idents(acc) <= Idents(res)
    ensures NoDupIdents(acc) ==> NoDupIdents(res)
    ensures forall y :: y in res ==> y in acc || y in local || (y in remote[j..] && HasId(y))
    ensures j < |remote| ==> Idents(local) <= Idents(res)
    ensures forall k :: j <= k < |remote| && HasId(remote[k]) ==> IdentOf(remote[k]) in Idents(res)
    decreases |remote| - j
  {
    if j == |remote| then acc
    else
      var r := remote[j];
      var scanned := ScanLocal(acc, r, local, 0, false);
      var acc1 := if HasId(r) then (if |local| == 0 then PushNew(scanned, r) else scanned) else acc;
      var acc2 := if j + 1 == |remote| then PushAll(acc1, local) else acc1;
      assert forall y :: y in remote[j + 1..] ==> y in remote[j..];
      assert r in remote[j..];
      ScanRemote(acc2, remote, local, j + 1)
  }

  /** `findDiffApply` on two arrays. */
  function MergeArrays(remote: seq<Json>, local: seq<Json>): (r: seq<Json>)
    ensures NoDupIdents(r) && Idents(local) <= Idents(r)
    ensures forall y :: y in r ==> y in local || y in remote
  {
    if |remote| == 0 then PushAll([], local) else ScanRemote([], remote, local, 0)
  }

  /** The array union has no duplicate identity, represents every local entry
      and every remote entry with a truthy `id`, and holds nothing else. */
  lemma MergeArraysUnion(remote: seq<Json>, local: seq<Json>)
    ensures NoDupIdents(MergeArrays(remote, local))
    ensures Idents(local) <= Idents(MergeArrays(remote, local))
    ensures forall r :: r in remote && HasId(r) ==> IdentOf(r) in Idents(MergeArrays(remote, local))
    ensures forall y :: y in MergeArrays(remote, local) ==> y in local || (y in remote && HasId(y))
  {
    var res := MergeArrays(remote, local);
    if |remote| > 0 {
      assert remote[0..] == remote;
      forall r | r in remote && HasId(r) ensures IdentOf(r) in Idents(res) {
        var k :| 0 <= k < |remote| && remote[k] == r;
      }
    }
  }

  // ---------------------------------------------------------------------
  // findDiffApply
  // ---------------------------------------------------------------------

  /** Keys both sides own where the remote value is a number or a boolean:
      `findDiffApply` assigns nothing for them, so they vanish. */
  function Dropped(rf: map<string, Json>, lf: map<string, Json>): set<string> {
    set k | k in rf && k in lf && !rf[k].JStr? && !IsObjectType(rf[k])
  }

  /** `findDiffApply(remoteJson, localJson)`. Two arrays are unioned; a remote
      array against anything else gives `[]`. A remote object keeps its
      remote-only keys, takes the remote string on a shared string key,
      recurses on a shared key whose remote value is `null`, an array or an
      object, drops a shared key whose remote value is anything else, and
      copies the local-only keys. Any other remote value gives `{}`. */
  function FindDiffApply(remote: Json, local: Json): (r: Json)
    ensures remote.JArr? <==> r.JArr?
    ensures r.JArr? && !local.JArr? ==> r.items == []
    ensures remote.JObj? ==> r.JObj?
    ensures remote.JObj? ==>
              r.fields.Keys == (remote.fields.Keys + OwnFields(local).Keys) - Dropped(remote.fields, OwnFields(local))
    ensures !remote.JArr? && !remote.JObj? ==> r == JObj(map[])
    decreases remote
  {
    if remote.JArr? && local.JArr? then JArr(MergeArrays(remote.items, local.items))
    else if remote.JArr? then JArr([])
    else if remote.JObj? then
      var rf, lf := remote.fields, OwnFields(local);
      var keys := (rf.Keys + lf.Keys) - Dropped(rf, lf);
      JObj(map k | k in keys ::
        if k !in rf then lf[k]
        else if k in lf && IsObjectType(rf[k]) then FindDiffApply(rf[k], lf[k])
        else rf[k])
    else JObj(map[])
  }

  /** Two arrays merge into their union. */
  lemma FindDiffApplyArrays(rs: seq<Json>, ls: seq<Json>)
    ensures FindDiffApply(JArr(rs), JArr(ls)) == JArr(MergeArrays(rs, ls))
  {
  }

  /** The value under each key of an object merge: a remote-only key takes
      the remote value, a local-only key keeps the local value, a shared
      string key takes the remote string, and a shared key whose remote
      value is null, an array or an object holds the recursive merge. */
  lemma FindDiffApplyValues(rf: map<string, Json>, local: Json, k: string)
    requires k in (rf.Keys + OwnFields(local).Keys) - Dropped(rf, OwnFields(local))
    ensures FindDiffApply(JObj(rf), local).JObj? && k in FindDiffApply(JObj(rf), local).fields
    ensures var v := FindDiffApply(JObj(rf), local).fields[k];
            var lf := OwnFields(local);
            && (k in rf && k !in lf ==> v == rf[k])
            && (k !in rf ==> v == lf[k])
            && (k in rf && k in lf && rf[k].JStr? ==> v == rf[k])
            && (k in rf && k in lf && IsObjectType(rf[k]) ==> v == FindDiffApply(rf[k], lf[k]))
  {
  }

  /** Nested objects merge key by key: `{"a": {"x": 1}}` applied over
      `{"a": {"y": 2}}` gives `{"a": {"x": 1, "y": 2}}`. */
  lemma NestedObjectsMerge()
    ensures FindDiffApply(JObj(map["a" := JObj(map["x" := JNum(1)])]), JObj(map["a" := JObj(map["y" := JNum(2)])]))
         == JObj(map["a" := JObj(map["x" := JNum(1), "y" := JNum(2)])])
  {
    var inner := FindDiffApply(JObj(map["x" := JNum(1)]), JObj(map["y" := JNum(2)]));
    assert inner.fields.Keys == {"x", "y"};
    assert inner == JObj(map["x" := JNum(1), "y" := JNum(2)]);
    var outer := FindDiffApply(JObj(map["a" := JObj(map["x" := JNum(1)])]), JObj(map["a" := JObj(map["y" := JNum(2)])]));
    assert outer.fields.Keys == {"a"};
    assert outer.fields["a"] == inner;
  }

  /** On flat objects of strings the merge is a plain union where the remote
      side wins every conflict. */
  lemma FlatMergeIsUnion(rf: map<string, Json>, lf: map<string, Json>)
    requires forall k :: k in rf ==> rf[k].JStr?
    ensures FindDiffApply(JObj(rf), JObj(lf)) == JObj(lf + rf)
  {
    var r := FindDiffApply(JObj(rf), JObj(lf));
    assert Dropped(rf, lf) == {};
    assert r.fields.Keys == (lf + rf).Keys;
  }

  /** A shared key whose remote value is a number disappears from the merge
      instead of taking the remote number: a port inside `userPref` is lost. */
  lemma NumericConflictDropped()
    ensures FindDiffApply(JObj(map["port" := JNum(2)]), JObj(map["port" := JNum(1)])) == JObj(map[])
  {
    var r := FindDiffApply(JObj(map["port" := JNum(2)]), JObj(map["port" := JNum(1)]));
    assert "port" in Dropped(map["port" := JNum(2)], map["port" := JNum(1)]);
    assert r.fields.Keys == {};
  }

  // ---------------------------------------------------------------------
  // The local object that sendObjectContents and applyObjectContents mutate
  // ---------------------------------------------------------------------

  /** The payload of `sendObjectContents` and the local object after it. */
  datatype Sent = Sent(local: map<string, Json>, list: map<string, Option<Json>>)

  /** `jsonObject[name]` on the local object. */
  function Lookup(m: map<string, Json>, k: string): Option<Json> {
    if k in m then Some(m[k]) else None
  }

  /** One element of the received diff: a string asks for the local value; an
      object writes each of its own keys into the local object. */
  function SendStep(st: Sent, e: Json): Sent {
    match e
    case JStr(name) => st.(list := st.list[name := Lookup(st.local, name)])
    case JObj(f) => st.(local := st.local + f)
    case _ => st
  }

  /** `receivedDiff.forEach(...)` over the whole diff, from the left. */
  function SendAll(st: Sent, d: seq<Json>): Sent
    decreases |d|
  {
    if d == [] then st else SendStep(SendAll(st, d[..|d| - 1]), d[|d| - 1])
  }

  /** The names a diff asks for. */
  function NamesIn(d: seq<Json>): set<string> {
    set e | e in d && e.JStr? :: e.s
  }

  /** The keys the bundles of a diff write. */
  function BundleKeysIn(d: seq<Json>): set<string> {
    set e, k | e in d && e.JObj? && k in e.fields :: k
  }

  lemma NamesInSnoc(d: seq<Json>, e: Json)
    ensures NamesIn(d + [e]) == NamesIn(d) + (if e.JStr? then {e.s} else {})
    ensures BundleKeysIn(d + [e]) == BundleKeysIn(d) + (if e.JObj? then e.fields.Keys else {})
  {
    assert forall x :: x in d + [e] <==> x in d || x == e;
  }

  /** The reply lists exactly the requested names, and the local object gains
      exactly the bundled keys. */
  lemma {:induction false} SendKeys(st: Sent, d: seq<Json>)
    ensures SendAll(st, d).list.Keys == st.list.Keys + NamesIn(d)
    ensures SendAll(st, d).local.Keys == st.local.Keys + BundleKeysIn(d)
    decreases |d|
  {
    if d != [] {
      var init, last := d[..|d| - 1], d[|d| - 1];
      assert d == init + [last];
      SendKeys(st, init);
      NamesInSnoc(init, last);
    }
  }

  /** The reply to a list of names: each name with the local value under it. */
  predicate AnswersNames(list: map<string, Option<Json>>, local: map<string, Json>, names: seq<string>) {
    && (forall k :: k in list ==> k in names)
    && (forall i :: 0 <= i < |names| ==> names[i] in list)
    && (forall k :: k in list ==> list[k] == Lookup(local, k))
  }

  /** A diff shaped as `compareObjectHash` builds it (names, then one bundle)
      is answered with the local value of every name, and the bundle is then
      written into the local object. */
  lemma SendNamesThenBundle(local: map<string, Json>, names: seq<string>, bundle: map<string, Json>)
    ensures SendAll(Sent(local, map[]), Strings(names) + [JObj(bundle)]).local == local + bundle
    ensures AnswersNames(SendAll(Sent(local, map[]), Strings(names) + [JObj(bundle)]).list, local, names)
  {
    SendNames(local, names);
    assert (Strings(names) + [JObj(bundle)])[..|names|] == Strings(names);
  }

  lemma {:induction false} SendNames(local: map<string, Json>, names: seq<string>)
    ensures SendAll(Sent(local, map[]), Strings(names)).local == local
    ensures AnswersNames(SendAll(Sent(local, map[]), Strings(names)).list, local, names)
    decreases |names|
  {
    if names != [] {
      var init, last := names[..|names| - 1], names[|names| - 1];
      var d := Strings(names);
      assert d[..|d| - 1] == Strings(init);
      SendNames(local, init);
      var prev := SendAll(Sent(local, map[]), Strings(init));
      assert SendAll(Sent(local, map[]), d) == SendStep(prev, JStr(last));
      AnswersNamesSnoc(prev.list, local, init, last);
      assert names == init + [last];
    }
  }

  lemma AnswersNamesSnoc(list: map<string, Option<Json>>, local: map<string, Json>, names: seq<string>, k: string)
    requires AnswersNames(list, local, names)
    ensures AnswersNames(list[k := Lookup(local, k)], local, names + [k])
  {
    assert forall x :: x in names + [k] <==> x in names || x == k;
  }

  /** `applyObjectContents` for one key the remote object owns. */
  function ApplyOne(lv: Option<Json>, rv: Json): Json {
    if lv.None? then rv
    else if rv.JStr? && lv.value.JStr? && rv != lv.value then rv
    else if IsObjectType(rv) then FindDiffApply(rv, lv.value)
    else lv.value
  }

  /** The local object after the remote keys in `done` have been applied. */
  function AppliedOn(l: map<string, Json>, rf: map<string, Json>, done: set<string>): (r: map<string, Json>)
    requires done <= rf.Keys
    ensures r.Keys == l.Keys + done
  {
    map k | k in l.Keys + done :: if k in done then ApplyOne(Lookup(l, k), rf[k]) else l[k]
  }

  /** Applying one more remote key changes only that key, and it starts from
      the key's original local value. */
  lemma AppliedOnStep(l: map<string, Json>, rf: map<string, Json>, done: set<string>, key: string)
    requires done <= rf.Keys && key in rf && key !in done
    ensures AppliedOn(l, rf, done + {key}) == AppliedOn(l, rf, done)[key := ApplyOne(Lookup(l, key), rf[key])]
    ensures key in l ==> AppliedOn(l, rf, done)[key] == l[key]
  {
  }

  /** The local object after `applyObjectContents` with a remote object. */
  function Applied(l: map<string, Json>, rf: map<string, Json>): map<string, Json> {
    AppliedOn(l, rf, rf.Keys)
  }

  /** `applyObjectContents` never removes a key, leaves keys the remote lacks
      alone, adds remote-only keys and resolves string conflicts remotely. */
  lemma AppliedEffects(l: map<string, Json>, rf: map<string, Json>, k: string)
    ensures Applied(l, rf).Keys == l.Keys + rf.Keys
    ensures k in l && k !in rf ==> Applied(l, rf)[k] == l[k]
    ensures k !in l && k in rf ==> Applied(l, rf)[k] == rf[k]
    ensures k in l && k in rf && l[k].JStr? && rf[k].JStr? ==> Applied(l, rf)[k] == rf[k]
    ensures k in l && k in rf && !rf[k].JStr? && !IsObjectType(rf[k]) ==> Applied(l, rf)[k] == l[k]
  {
  }

  /** Applying a flat object of strings twice is the same as applying it once. */
  lemma FlatApplyIdempotent(l: map<string, Json>, rf: map<string, Json>)
    requires forall k :: k in rf ==> rf[k].JStr?
    ensures Applied(Applied(l, rf), rf) == Applied(l, rf)
  {
    var once := Applied(l, rf);
    AppliedEffects(once, rf, "");
    forall k | k in once ensures Applied(once, rf)[k] == once[k] {
      AppliedEffects(l, rf, k);
      AppliedEffects(once, rf, k);
    }
  }

  /** With a nested numeric field, applying the same remote object twice is not
      the same as applying it once: the first pass drops the port, the second
      adds it back. */
  lemma NestedApplyNotIdempotent()
    ensures var l := map["userPref" := JObj(map["port" := JNum(1)])];
            var rf := map["userPref" := JObj(map["port" := JNum(2)])];
            Applied(l, rf) == map["userPref" := JObj(map[])] &&
            Applied(Applied(l, rf), rf) == map["userPref" := JObj(map["port" := JNum(2)])]
  {
    var l := map["userPref" := JObj(map["port" := JNum(1)])];
    var rf := map["userPref" := JObj(map["port" := JNum(2)])];
    NumericConflictDropped();
    var once := Applied(l, rf);
    assert once.Keys == {"userPref"};
    assert once["userPref"] == JObj(map[]);
    assert once == map["userPref" := JObj(map[])];
    var nested := FindDiffApply(JObj(map["port" := JNum(2)]), JObj(map[]));
    assert nested.fields.Keys == {"port"};
    assert nested.fields["port"] == JNum(2);
    assert nested == JObj(map["port" := JNum(2)]);
    var twice := Applied(once, rf);
    assert twice.Keys == {"userPref"};
    assert twice["userPref"] == nested;
  }

  /** A local JSON object that the sync operations update in place. */
  class JsonObject {
    var fields: map<string, Json>

    constructor(fields: map<string, Json>)
      ensures this.fields == fields
    {
      this.fields := fields;
    }

    /** `sendObjectContents(jsonObject, receivedDiff)`. */
    method SendObjectContents(received: seq<Json>) returns (list: map<string, Option<Json>>)
      modifies this
      ensures Sent(fields, list) == SendAll(Sent(old(fields), map[]), received)
      ensures list.Keys == NamesIn(received)
      ensures fields.Keys == old(fields).Keys + BundleKeysIn(received)
    {
      list := map[];
      for i := 0 to |received|
        invariant Sent(fields, list) == SendAll(Sent(old(fields), map[]), received[..i])
      {
        assert received[..i + 1][..i] == received[..i];
        match received[i]
        case JStr(name) =>
          list := list[name := if name in fields then Some(fields[name]) else None];
        case JObj(f) =>
          WriteAll(f);
        case _ =>
      }
      assert received[..|received|] == received;
      SendKeys(Sent(old(fields), map[]), received);
    }

    /** The `for (var key in name)` loop guarded by `hasOwnProperty`: every
        own key of the bundle f written over the local object. */
    method WriteAll(f: map<string, Json>)
      modifies this
      ensures fields == old(fields) + f
    {
      var todo := f.Keys;
      while todo != {}
        invariant todo <= f.Keys
        invariant fields == old(fields) + map k | k in f.Keys - todo :: f[k]
      {
        var k :| k in todo;
        fields := fields[k := f[k]];
        todo := todo - {k};
      }
      assert fields == old(fields) + f;
    }

    /** `applyObjectContents(localJson, remoteJsonObject)`: `Object.keys(null)`
        throws before anything changes. */
    method ApplyObjectContents(remote: Json) returns (threw: bool)
      modifies this
      ensures threw <==> remote.JNull?
      ensures threw ==> fields == old(fields)
      ensures !threw ==> fields == Applied(old(fields), OwnFields(remote))
    {
      if remote.JNull? {
        return true;
      }
      threw := false;
      var rf := OwnFields(remote);
      var local := fields;
      var todo := rf.Keys;
      while todo != {}
        invariant todo <= rf.Keys
        invariant fields == AppliedOn(local, rf, rf.Keys - todo)
      {
        var key :| key in todo;
        AppliedOnStep(local, rf, rf.Keys - todo, key);
        assert rf.Keys - (todo - {key}) == (rf.Keys - todo) + {key};
        if key !in local {
          fields := fields[key := rf[key]];
        } else if rf[key].JStr? && fields[key].JStr? && rf[key] != fields[key] {
          fields := fields[key := rf[key]];
        } else if IsObjectType(rf[key]) {
          fields := fields[key := FindDiffApply(rf[key], fields[key])];
        }
        todo := todo - {key};
      }
    }
  }
}
