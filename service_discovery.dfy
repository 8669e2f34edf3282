/** The remote service registry of the ServiceDiscovery service: the list of
    service descriptions a hub keeps for its devices, the filters that turn a
    search's matches into the delivered results, and the request id counter. */
module ServiceDiscovery {
  import opened Wrappers
  import opened JsonValue

  /** A service description: a plain object, of which the registry reads the
      `id` and `serviceAddress` properties. */
  type ServiceObject = map<string, Json>

  /** `s.key`, `undefined` when the property is absent. */
  function Prop(s: ServiceObject, key: string): (v: Option<Json>)
    ensures v.Some? <==> key in s
  {
    if key in s then Some(s[key]) else None
  }

  /** Two descriptions name the same service: their ids and their addresses
      are strictly equal. A composite id or address is a reference that no
      other description shares, so it never matches; where the source
      compares a description with itself, the caller says so. */
  predicate SameIdentity(a: ServiceObject, b: ServiceObject) {
    StrictEq(Prop(a, "id"), Prop(b, "id")) && StrictEq(Prop(a, "serviceAddress"), Prop(b, "serviceAddress"))
  }

  /** `===` is symmetric and transitive. */
  lemma StrictEqLaws(a: Option<Json>, b: Option<Json>, c: Option<Json>)
    ensures StrictEq(a, b) ==> StrictEq(b, a)
    ensures StrictEq(a, b) && StrictEq(b, c) ==> StrictEq(a, c)
  {
  }

  /** Some entry of l names the same service as x. */
  predicate Contains(l: seq<ServiceObject>, x: ServiceObject) {
    exists i :: 0 <= i < |l| && SameIdentity(l[i], x)
  }

  /** No two entries of l name the same service. */
  predicate NoDuplicates(l: seq<ServiceObject>) {
    forall i, j :: 0 <= i < j < |l| ==> !SameIdentity(l[i], l[j])
  }

  /** a is b with some entries left out, the rest in their order. */
  predicate IsSubsequence<T(==)>(a: seq<T>, b: seq<T>)
    decreases |b|
  {
    if a == [] then true
    else if b == [] then false
    else if a[0] == b[0] then IsSubsequence(a[1..], b[1..])
    else IsSubsequence(a, b[1..])
  }

  // ---------------------------------------------------------------------
  // Filters
  // ---------------------------------------------------------------------

  /** The part of a service's address before its first `/`. */
  function BeforeSlash(s: string): (r: string)
    ensures IsPrefixOf(r, s) && '/' !in r
    ensures |r| < |s| ==> s[|r|] == '/'
  {
    if s == [] || s[0] == '/' then [] else [s[0]] + BeforeSlash(s[1..])
  }

  predicate IsPrefixOf(a: string, b: string) {
    |a| <= |b| && a == b[..|a|]
  }

  /** removeRemoteServiceObjects(address) removes an entry whose address is
      `address`, or is a string whose segment before the first `/` is. */
  predicate AtAddress(s: ServiceObject, address: Option<Json>) {
    var sa := Prop(s, "serviceAddress");
    StrictEq(sa, address) || (sa.Some? && sa.value.JStr? && StrictEq(Some(JStr(BeforeSlash(sa.value.s))), address))
  }

  /** An entry whose address is truthy but not a string and not `address`
      itself: splitting it at `/` throws. */
  predicate Unsplittable(s: ServiceObject, address: Option<Json>) {
    var sa := Prop(s, "serviceAddress");
    !StrictEq(sa, address) && sa.Some? && Truthy(sa.value) && !sa.value.JStr?
  }

  /** The address is one of the zone ids of a search filter. */
  predicate InZones(s: ServiceObject, zones: seq<Json>) {
    exists i :: 0 <= i < |zones| && StrictEq(Prop(s, "serviceAddress"), Some(zones[i]))
  }

  /** The ways the registry picks entries out of a list. */
  datatype Criterion =
    | AwayFrom(address: Option<Json>)    // survives removeRemoteServiceObjects(address)
    | OtherThan(except: Option<Json>)    // listed by getAllServices(except)
    | InZone(zones: seq<Json>)           // kept by a search's zoneId filter

  predicate Passes(c: Criterion, s: ServiceObject) {
    match c
    case AwayFrom(a) => !AtAddress(s, a)
    case OtherThan(e) => !StrictEq(Prop(s, "serviceAddress"), e)
    case InZone(z) => InZones(s, z)
  }

  /** The entries of l that pass c, in their order. */
  function Filter(l: seq<ServiceObject>, c: Criterion): (r: seq<ServiceObject>)
    ensures forall x :: x in r <==> x in l && Passes(c, x)
    ensures IsSubsequence(r, l)
    ensures |r| <= |l|
  {
    if l == [] then []
    else if Passes(c, l[0]) then [l[0]] + Filter(l[1..], c)
    else Filter(l[1..], c)
  }

  /** Filtering keeps every copy of a passing entry and no copy of a
      failing one. */
  lemma {:induction false} FilterCounts(l: seq<ServiceObject>, c: Criterion)
    ensures forall x :: multiset(Filter(l, c))[x] == if Passes(c, x) then multiset(l)[x] else 0
    decreases |l|
  {
    if l != [] {
      assert l == [l[0]] + l[1..];
      FilterCounts(l[1..], c);
    }
  }

  // ---------------------------------------------------------------------
  // addRemoteServiceObjects
  // ---------------------------------------------------------------------

  /** list after the entries of msg are appended one by one, each unless the
      list already names its service. */
  function AddAll(list: seq<ServiceObject>, msg: seq<ServiceObject>): (r: seq<ServiceObject>)
    ensures |list| <= |r| <= |list| + |msg| && r[..|list|] == list
    decreases |msg|
  {
    if msg == [] then list
    else
      var l := AddAll(list, msg[..|msg| - 1]);
      if Contains(l, msg[|msg| - 1]) then l else l + [msg[|msg| - 1]]
  }

  /** Adding keeps the existing entries, in order, at the front, and adds
      only entries of msg. */
  lemma {:induction false} AddAllExtends(list: seq<ServiceObject>, msg: seq<ServiceObject>)
    ensures |list| <= |AddAll(list, msg)| <= |list| + |msg|
    ensures AddAll(list, msg)[..|list|] == list
    ensures forall x :: x in AddAll(list, msg) ==> x in list || x in msg
    decreases |msg|
  {
    if msg != [] {
      var init := msg[..|msg| - 1];
      AddAllExtends(list, init);
      var l := AddAll(list, init);
      forall x | x in AddAll(list, msg)
        ensures x in list || x in msg
      {
        if x !in l {
          assert x == msg[|msg| - 1];
        } else if x !in list {
          assert x in init;
        }
      }
    }
  }

  /** Adding never introduces two entries naming the same service. */
  lemma {:induction false} AddAllNoDuplicates(list: seq<ServiceObject>, msg: seq<ServiceObject>)
    requires NoDuplicates(list)
    ensures NoDuplicates(AddAll(list, msg))
    decreases |msg|
  {
    if msg != [] {
      AddAllNoDuplicates(list, msg[..|msg| - 1]);
    }
  }

  /** After adding, every service of msg with a primitive id and address is
      named by some entry, and so is every service already listed. */
  lemma {:induction false} AddAllContains(list: seq<ServiceObject>, msg: seq<ServiceObject>)
    ensures forall m :: m in msg && SameIdentity(m, m) ==> Contains(AddAll(list, msg), m)
    ensures forall x :: Contains(list, x) ==> Contains(AddAll(list, msg), x)
    decreases |msg|
  {
    if msg != [] {
      var init := msg[..|msg| - 1];
      var last := msg[|msg| - 1];
      AddAllContains(list, init);
      var l := AddAll(list, init);
      var r := AddAll(list, msg);
      assert r[..|l|] == l;
      forall x | Contains(l, x)
        ensures Contains(r, x)
      {
        var i :| 0 <= i < |l| && SameIdentity(l[i], x);
        assert r[i] == l[i];
      }
      forall m | m in msg && SameIdentity(m, m)
        ensures Contains(r, m)
      {
        if m in init {
          assert Contains(l, m);
        } else if !Contains(l, last) {
          assert r[|l|] == m;
        }
      }
    }
  }

  // ---------------------------------------------------------------------
  // removeRemoteServiceObjects
  // ---------------------------------------------------------------------

  /** RemoveFrom on a list with a first entry x. */
  lemma RemoveFromCons(x: ServiceObject, rest: seq<ServiceObject>, address: Option<Json>)
    ensures AtAddress(x, address) ==> RemoveFrom([x] + rest, address) == RemoveFrom(rest, address)
    ensures !AtAddress(x, address) && Unsplittable(x, address) ==> RemoveFrom([x] + rest, address) == ([x] + rest, true)
    ensures !AtAddress(x, address) && !Unsplittable(x, address) ==>
              RemoveFrom([x] + rest, address).0 == [x] + RemoveFrom(rest, address).0
              && RemoveFrom([x] + rest, address).1 == RemoveFrom(rest, address).1
  {
    assert ([x] + rest)[1..] == rest;
  }

  /** The removal loop on a list: entries at `address` go, the others stay
      in order, until an unsplittable address stops the loop with the rest
      of the list untouched. The flag says whether it stopped that way. */
  function RemoveFrom(l: seq<ServiceObject>, address: Option<Json>): (r: (seq<ServiceObject>, bool))
    ensures |r.0| <= |l|
  {
    if l == [] then ([], false)
    else if AtAddress(l[0], address) then RemoveFrom(l[1..], address)
    else if Unsplittable(l[0], address) then (l, true)
    else var rest := RemoveFrom(l[1..], address); ([l[0]] + rest.0, rest.1)
  }

  /** The removal throws exactly when an entry's address cannot be split;
      when it does not, it removes exactly the entries at `address` and keeps
      the others in order. */
  lemma {:induction false} RemoveFromFilters(l: seq<ServiceObject>, address: Option<Json>)
    ensures RemoveFrom(l, address).1 <==> exists k :: 0 <= k < |l| && Unsplittable(l[k], address)
    ensures !RemoveFrom(l, address).1 ==> RemoveFrom(l, address).0 == Filter(l, AwayFrom(address))
  {
    if l != [] {
      RemoveFromFilters(l[1..], address);
      if Unsplittable(l[0], address) {
        assert !AtAddress(l[0], address);
      }
      if exists k :: 0 <= k < |l[1..]| && Unsplittable(l[1..][k], address) {
        var k :| 0 <= k < |l[1..]| && Unsplittable(l[1..][k], address);
        assert Unsplittable(l[k + 1], address);
      }
      if exists k :: 0 <= k < |l| && Unsplittable(l[k], address) {
        var k :| 0 <= k < |l| && Unsplittable(l[k], address);
        if k > 0 {
          assert Unsplittable(l[1..][k - 1], address);
        }
      }
    }
  }

  // ---------------------------------------------------------------------
  // deliverResults
  // ---------------------------------------------------------------------

  /** No search result before position p names the service of the one at p.
      The result at p always matches itself, being one reference, so an
      entry whose id or address is composite, which matches no other
      result, is a first occurrence. */
  predicate FirstOccurrence(r: seq<ServiceObject>, p: nat)
    requires p < |r|
  {
    forall j :: 0 <= j < p ==> !SameIdentity(r[p], r[j])
  }

  /** The first-occurrence entries among the first n results, in order. */
  function Dedup(r: seq<ServiceObject>, n: nat): (d: seq<ServiceObject>)
    requires n <= |r|
    ensures |d| <= n
    decreases n
  {
    if n == 0 then []
    else Dedup(r, n - 1) + (if FirstOccurrence(r, n - 1) then [r[n - 1]] else [])
  }

  /** The deduplicated entries come from the first n results. */
  lemma {:induction false} DedupWithin(r: seq<ServiceObject>, n: nat)
    requires n <= |r|
    ensures forall x :: x in Dedup(r, n) ==> exists j :: 0 <= j < n && r[j] == x
    decreases n
  {
    if n > 0 {
      DedupWithin(r, n - 1);
    }
  }

  /** The deduplicated results name no service twice. */
  lemma {:induction false} DedupNoDuplicates(r: seq<ServiceObject>, n: nat)
    requires n <= |r|
    ensures NoDuplicates(Dedup(r, n))
    decreases n
  {
    if n > 0 && FirstOccurrence(r, n - 1) {
      DedupNoDuplicates(r, n - 1);
      DedupWithin(r, n - 1);
      var d0 := Dedup(r, n - 1);
      forall i | 0 <= i < |d0|
        ensures !SameIdentity(d0[i], r[n - 1])
      {
        assert d0[i] in d0;
        var j :| 0 <= j < n - 1 && r[j] == d0[i];
        assert !SameIdentity(r[n - 1], r[j]);
        StrictEqLaws(Prop(r[j], "id"), Prop(r[n - 1], "id"), None);
        StrictEqLaws(Prop(r[j], "serviceAddress"), Prop(r[n - 1], "serviceAddress"), None);
      }
    } else if n > 0 {
      DedupNoDuplicates(r, n - 1);
    }
  }

  /** Every result is represented in the deduplicated list: by itself, or
      by an earlier result naming the same service. One whose id and address
      are primitive has its service in the list; one whose id or address is
      composite is kept itself. */
  lemma DedupCovers(r: seq<ServiceObject>, p: nat)
    requires p < |r|
    ensures r[p] in Dedup(r, |r|) || Contains(Dedup(r, |r|), r[p])
    ensures SameIdentity(r[p], r[p]) ==> Contains(Dedup(r, |r|), r[p])
    ensures !SameIdentity(r[p], r[p]) ==> r[p] in Dedup(r, |r|)
  {
    var f := FirstNaming(r, p, 0);
    DedupKeeps(r, f, |r|);
    var d := Dedup(r, |r|);
    if f != p {
      assert SameIdentity(r[f], r[p]);
      StrictEqLaws(Prop(r[f], "id"), Prop(r[p], "id"), Prop(r[f], "id"));
      StrictEqLaws(Prop(r[f], "serviceAddress"), Prop(r[p], "serviceAddress"), Prop(r[f], "serviceAddress"));
      assert SameIdentity(r[p], r[p]);
    }
    if SameIdentity(r[p], r[p]) {
      var i :| 0 <= i < |d| && d[i] == r[f];
      StrictEqLaws(Prop(r[p], "id"), Prop(r[p], "id"), Prop(r[p], "id"));
      assert SameIdentity(d[i], r[p]);
    }
  }

  /** The first position at or after `from` whose entry is r[p] itself or
      names r[p]'s service, when none before `from` names it. */
  lemma {:induction false} FirstNaming(r: seq<ServiceObject>, p: nat, from: nat) returns (f: nat)
    requires from <= p < |r|
    requires forall j :: 0 <= j < from ==> !SameIdentity(r[p], r[j])
    ensures f <= p && (f == p || SameIdentity(r[f], r[p])) && FirstOccurrence(r, f)
    decreases p - from
  {
    if from == p {
      f := p;
    } else if SameIdentity(r[p], r[from]) {
      f := from;
      StrictEqLaws(Prop(r[p], "id"), Prop(r[f], "id"), Prop(r[p], "id"));
      StrictEqLaws(Prop(r[p], "serviceAddress"), Prop(r[f], "serviceAddress"), Prop(r[p], "serviceAddress"));
      StrictEqLaws(Prop(r[f], "id"), Prop(r[p], "id"), Prop(r[f], "id"));
      StrictEqLaws(Prop(r[f], "serviceAddress"), Prop(r[p], "serviceAddress"), Prop(r[f], "serviceAddress"));
      forall j | 0 <= j < f
        ensures !SameIdentity(r[f], r[j])
      {
        StrictEqLaws(Prop(r[p], "id"), Prop(r[f], "id"), Prop(r[j], "id"));
        StrictEqLaws(Prop(r[p], "serviceAddress"), Prop(r[f], "serviceAddress"), Prop(r[j], "serviceAddress"));
      }
    } else {
      f := FirstNaming(r, p, from + 1);
    }
  }

  /** A first occurrence before n is in the deduplicated list. */
  lemma {:induction false} DedupKeeps(r: seq<ServiceObject>, f: nat, n: nat)
    requires f < n <= |r| && FirstOccurrence(r, f)
    ensures r[f] in Dedup(r, n)
    decreases n
  {
    if f < n - 1 {
      DedupKeeps(r, f, n - 1);
    }
  }

  /** The list each search delivers: the first result naming each service,
      then, when the search filter has an object-typed `zoneId`, only those
      whose address is one of its entries. A null `zoneId` throws as soon
      as a result is checked against it. */
  function Delivered(r: seq<ServiceObject>, filter: Option<Json>): (res: Result<seq<ServiceObject>>)
    ensures res.Ok? ==> |res.value| <= |r| && forall x :: x in res.value ==> x in r
    ensures res.Throws? ==> r != []
  {
    DedupWithin(r, |r|);
    var d := Dedup(r, |r|);
    var z := if filter.Some? && Truthy(filter.value) then Field(filter.value, "zoneId") else None;
    if z.None? || !IsObjectType(z.value) then Ok(d)
    else if z.value.JNull? then (if d == [] then Ok([]) else Throws("TypeError"))
    else Ok(Filter(d, InZone(ZoneIds(z.value))))
  }

  /** A lone result whose id is an object is delivered: it matches itself
      and no earlier result. */
  lemma CompositeIdResultDelivered()
    ensures var s := map["id" := JObj(map["k" := JNum(1)]), "serviceAddress" := JStr("pzh")];
            Delivered([s], None) == Ok([s])
  {
    var s := map["id" := JObj(map["k" := JNum(1)]), "serviceAddress" := JStr("pzh")];
    assert FirstOccurrence([s], 0);
    assert Dedup([s], 1) == [s];
  }

  /** The zone ids of a non-null `zoneId`: an array's elements; an object
      that is not an array has none. */
  function ZoneIds(z: Json): seq<Json> {
    if z.JArr? then z.items else []
  }

  /** The isDuplicate callback: whether position pos holds the first result
      naming its service. */
  method IsFirstNaming(r: seq<ServiceObject>, pos: nat) returns (keep: bool)
    requires pos < |r|
    ensures keep <==> FirstOccurrence(r, pos)
  {
    var sv := r[pos];
    var cnt := 0;
    for i := 0 to |r|
      invariant cnt == 0 <==> forall j :: 0 <= j < i ==> j != pos && !SameIdentity(sv, r[j])
      invariant i > pos ==> !FirstOccurrence(r, pos)
    {
      // At i == pos, sv and r[i] are one reference, so `===` holds even for
      // a composite id or address.
      if i == pos || SameIdentity(sv, r[i]) {
        if i == pos && cnt == 0 {
          return true;
        }
        cnt := cnt + 1;
      }
    }
    return false;
  }

  /** The hasZoneId callback: whether the address is one of the zone ids. */
  method HasZoneId(sv: ServiceObject, zones: seq<Json>) returns (b: bool)
    ensures b <==> InZones(sv, zones)
  {
    for i := 0 to |zones|
      invariant forall j :: 0 <= j < i ==> !StrictEq(Prop(sv, "serviceAddress"), Some(zones[j]))
    {
      if StrictEq(Prop(sv, "serviceAddress"), Some(zones[i])) {
        return true;
      }
    }
    return false;
  }

  /** deliverResults(r): the results handed to the search callback. */
  method DeliverResults(r: seq<ServiceObject>, filter: Option<Json>) returns (res: Result<seq<ServiceObject>>)
    ensures res == Delivered(r, filter)
  {
    var d := [];
    for pos := 0 to |r|
      invariant d == Dedup(r, pos)
    {
      var keep := IsFirstNaming(r, pos);
      if keep {
        d := d + [r[pos]];
      }
    }
    var z := if filter.Some? && Truthy(filter.value) then Field(filter.value, "zoneId") else None;
    if z.Some? && IsObjectType(z.value) {
      if z.value.JNull? {
        if d != [] {
          return Throws("TypeError");
        }
        return Ok([]);
      }
      var zones := ZoneIds(z.value);
      var kept := [];
      for k := 0 to |d|
        invariant kept == Filter(d[..k], InZone(zones))
      {
        var b := HasZoneId(d[k], zones);
        FilterSnoc(d[..k], d[k], InZone(zones));
        assert d[..k + 1] == d[..k] + [d[k]];
        if b {
          kept := kept + [d[k]];
        }
      }
      assert d[..|d|] == d;
      return Ok(kept);
    }
    return Ok(d);
  }

  /** Filtering one more entry appends it when it passes. */
  lemma {:induction false} FilterSnoc(l: seq<ServiceObject>, x: ServiceObject, c: Criterion)
    ensures Filter(l + [x], c) == Filter(l, c) + (if Passes(c, x) then [x] else [])
    decreases |l|
  {
    if l == [] {
      assert [x][1..] == [];
    } else {
      assert (l + [x])[1..] == l[1..] + [x];
      FilterSnoc(l[1..], x, c);
    }
  }

  // ---------------------------------------------------------------------
  // The registry
  // ---------------------------------------------------------------------

  /** The services a hub knows about at its devices. */
  class Discovery {
    var remoteServiceObjects: seq<ServiceObject>

    constructor()
      ensures remoteServiceObjects == []
    {
      remoteServiceObjects := [];
    }

    /** addRemoteServiceObjects(msg, merge): `merge === false` first clears
        the list; then each entry of msg is appended unless the list already
        names its service. */
    method AddRemoteServiceObjects(msg: seq<ServiceObject>, merge: Option<Json>)
      modifies this
      ensures remoteServiceObjects ==
                AddAll(if merge == Some(JBool(false)) then [] else old(remoteServiceObjects), msg)
    {
      if merge.Some? && merge.value == JBool(false) {
        remoteServiceObjects := [];
      }
      ghost var base := remoteServiceObjects;
      for i := 0 to |msg|
        invariant remoteServiceObjects == AddAll(base, msg[..i])
      {
        assert msg[..i + 1][..i] == msg[..i];
        var known := ContainsService(remoteServiceObjects, msg[i]);
        if !known {
          remoteServiceObjects := remoteServiceObjects + [msg[i]];
        }
      }
      assert msg[..|msg|] == msg;
    }

    /** removeRemoteServiceObjects(address): splices out, in place, every
        entry at `address`; `threw` when an entry's address cannot be split,
        with the entries before it already removed. */
    method RemoveRemoteServiceObjects(address: Option<Json>) returns (threw: bool)
      modifies this
      ensures (remoteServiceObjects, threw) == RemoveFrom(old(remoteServiceObjects), address)
    {
      remoteServiceObjects, threw := SpliceOut(remoteServiceObjects, address);
    }

    /** getAllServices(exceptAddress): the remote entries whose address is
        not exceptAddress, in order, then the registered services. */
    function GetAllServices(exceptAddress: Option<Json>, registered: seq<ServiceObject>): (r: seq<ServiceObject>)
      reads this
      ensures |registered| <= |r| && r[|r| - |registered|..] == registered
      ensures var remote := r[..|r| - |registered|];
              && IsSubsequence(remote, remoteServiceObjects)
              && (forall x :: x in remote <==> x in remoteServiceObjects && !StrictEq(Prop(x, "serviceAddress"), exceptAddress))
              && forall x :: multiset(remote)[x] ==
                   if StrictEq(Prop(x, "serviceAddress"), exceptAddress) then 0 else multiset(remoteServiceObjects)[x]
    {
      var remote := Filter(remoteServiceObjects, OtherThan(exceptAddress));
      FilterCounts(remoteServiceObjects, OtherThan(exceptAddress));
      assert (remote + registered)[..|remote|] == remote;
      remote + registered
    }
  }

  /** The test the removal loop applies to one entry: whether it is at
      `address`, or whether splitting its address throws first. */
  method Classify(services: ServiceObject, address: Option<Json>) returns (remove: bool, stuck: bool)
    ensures remove <==> AtAddress(services, address)
    ensures stuck <==> !remove && Unsplittable(services, address)
  {
    if StrictEq(Prop(services, "serviceAddress"), address) {
      return true, false;
    }
    var tempAddress := Prop(services, "serviceAddress");
    if tempAddress.Some? && Truthy(tempAddress.value) {
      if !tempAddress.value.JStr? {
        return false, true;
      }
      tempAddress := Some(JStr(BeforeSlash(tempAddress.value.s)));
    }
    return StrictEq(tempAddress, address), false;
  }

  /** The removal loop's invariant: the entries before the cursor i are
      the survivors so far, and removing from the rest finishes the job. */
  predicate SpliceInvariant(arr0: seq<ServiceObject>, address: Option<Json>, localArr: seq<ServiceObject>, i: nat) {
    i <= |localArr|
    && RemoveFrom(arr0, address).0 == localArr[..i] + RemoveFrom(localArr[i..], address).0
    && RemoveFrom(arr0, address).1 == RemoveFrom(localArr[i..], address).1
  }

  /** One turn of the removal loop at cursor i: the entry is spliced out,
      stepped over, or stops the loop by throwing. */
  method SpliceStep(ghost arr0: seq<ServiceObject>, address: Option<Json>, localArr: seq<ServiceObject>, i: nat)
    returns (next: seq<ServiceObject>, j: nat, stuck: bool)
    requires i < |localArr| && SpliceInvariant(arr0, address, localArr, i)
    ensures stuck ==> RemoveFrom(arr0, address) == (localArr, true)
    ensures !stuck ==> SpliceInvariant(arr0, address, next, j) && |next| - j < |localArr| - i
    ensures !stuck ==> |next| == |localArr| - 1 || |next| == |localArr|
  {
    var services := localArr[i];
    ghost var before, rest := localArr[..i], localArr[i + 1..];
    assert localArr[i..] == [services] + rest;
    RemoveFromCons(services, rest, address);
    var remove;
    remove, stuck := Classify(services, address);
    next, j := localArr, i;
    if stuck {
      assert localArr == before + localArr[i..];
    } else if remove {
      next := localArr[..i] + localArr[i + 1..];
      assert next[..i] == before && next[i..] == rest;
    } else {
      assert localArr[..i + 1] == before + [services];
      j := i + 1;
    }
  }

  /** The removal loop of removeRemoteServiceObjects over the registry's
      array, which it splices at the cursor i. */
  method SpliceOut(arr0: seq<ServiceObject>, address: Option<Json>) returns (localArr: seq<ServiceObject>, threw: bool)
    ensures (localArr, threw) == RemoveFrom(arr0, address)
  {
    localArr := arr0;
    var len := |localArr|;
    var i: nat := 0;
    assert localArr[..i] + RemoveFrom(localArr[i..], address).0 == RemoveFrom(arr0, address).0;
    while i < len
      invariant len == |localArr| && SpliceInvariant(arr0, address, localArr, i)
      decreases len - i
    {
      var next, j, stuck := SpliceStep(arr0, address, localArr, i);
      if stuck {
        return localArr, true;
      }
      if |next| < len {
        len := len - 1;
      }
      localArr, i := next, j;
    }
    assert localArr[..i] == localArr && localArr[i..] == [];
    assert RemoveFrom(localArr[i..], address) == ([], false);
    assert RemoveFrom(arr0, address).0 == localArr + [] == localArr;
    return localArr, false;
  }

  /** The `contains` helper of addRemoteServiceObjects. */
  method ContainsService(localArr: seq<ServiceObject>, lname: ServiceObject) returns (b: bool)
    ensures b <==> Contains(localArr, lname)
  {
    for i := 0 to |localArr|
      invariant forall j :: 0 <= j < i ==> !SameIdentity(localArr[j], lname)
    {
      if StrictEq(Prop(localArr[i], "id"), Prop(lname, "id"))
         && StrictEq(Prop(localArr[i], "serviceAddress"), Prop(lname, "serviceAddress")) {
        return true;
      }
    }
    return false;
  }

  // ---------------------------------------------------------------------
  // Request ids
  // ---------------------------------------------------------------------

  /** JavaScript's Number.MAX_VALUE, (2 - 2^-52) * 2^1023. */
  const MAX_VALUE: nat := 179769313486231570814527423731704356798070567525844996598917476803157260780028538760589558632766878171540458953514382464234321326889464182768467546703537516986049910576551282076245490090389328944075868508455133942304583236903222948165808559332123348274797826204144723168738177180919299881250404026184124858368

  /** The module-wide counter behind getNextID. */
  class IdCounter {
    var idCount: nat

    predicate Valid()
      reads this
    {
      idCount <= MAX_VALUE
    }

    constructor()
      ensures Valid() && idCount == 0
    {
      idCount := 0;
    }

    /** getNextID(sessionId): the counter, reset to 0 when it has reached
        Number.MAX_VALUE, is incremented and appended to the session id. */
    method GetNextID(sessionId: string) returns (id: string)
      requires Valid()
      modifies this
      ensures Valid() && 1 <= idCount
      ensures idCount == (if old(idCount) == MAX_VALUE then 0 else old(idCount)) + 1
      ensures id == sessionId + DecimalString(idCount)
    {
      if idCount == MAX_VALUE {
        idCount := 0;
      }
      idCount := idCount + 1;
      id := sessionId + DecimalString(idCount);
    }
  }

  /** Ids drawn for the same session with different counter values differ,
      so no id repeats before the counter wraps. */
  lemma NextIdsDistinct(sessionId: string, m: nat, n: nat)
    requires m != n
    ensures sessionId + DecimalString(m) != sessionId + DecimalString(n)
  {
    if sessionId + DecimalString(m) == sessionId + DecimalString(n) {
      assert DecimalString(m) == (sessionId + DecimalString(m))[|sessionId|..];
      assert DecimalString(n) == (sessionId + DecimalString(n))[|sessionId|..];
      DecimalStringInjective(m, n);
    }
  }
}
