/** lib/notifications.js: the notification list (a map from id to
    notification plus an optional `config` object), lookups over it, adding a
    notification, and merging a list received from the hub. The file that
    holds the list is the object's own state here: every operation reads it
    and a save replaces it. */
module Notifications {
  import opened Wrappers
  import opened JsonValue

  /** An `emit(name, item)` call: the event name as the value it was read
      from (absent when the item has no `type`), and the item. */
  datatype Event = Event(name: Option<Json>, item: Json)

  /** The result of `getNotifications`: the selected entries and the config. */
  datatype Listing = Listing(notifications: map<string, Json>, config: Option<map<string, Json>>)

  /** notifyType.all */
  const ALL: string := "all"

  /** The record addNotification stores. */
  function NewNotification(id: string, timestamp: string, ty: string, data: Json): (n: Json)
    ensures Field(n, "id") == Some(JStr(id)) && Field(n, "type") == Some(JStr(ty))
    ensures Field(n, "data") == Some(data) && Field(n, "timestamp") == Some(JStr(timestamp))
  {
    JObj(map["id" := JStr(id), "timestamp" := JStr(timestamp), "type" := JStr(ty), "data" := data])
  }

  // ---------------------------------------------------------------------
  // getNotifications
  // ---------------------------------------------------------------------

  /** Whether an entry is listed for the requested type: every entry when the
      type is undefined or "", otherwise those whose `type` is that string. */
  predicate Selected(entry: Json, ty: Option<string>) {
    ty.None? || ty == Some("") || StrictEq(Field(entry, "type"), Some(JStr(ty.value)))
  }

  /** Reading `.type` of a null entry throws; it is read only when a
      non-empty type is requested. */
  predicate ReadsNullEntry(ns: map<string, Json>, ty: Option<string>) {
    ty.Some? && ty.value != "" && exists id :: id in ns && ns[id].JNull?
  }

  // ---------------------------------------------------------------------
  // updateAfterRemoteSync: notifications
  // ---------------------------------------------------------------------

  /** The notifications of a received list: the own keys of its
      `notifications` property. */
  function RemoteNotifications(remoteList: Json): map<string, Json> {
    OwnFields(Field(remoteList, "notifications").GetOr(JNull))
  }

  /** The local notifications with the remote ones whose id is new added. */
  function AddNew(local: map<string, Json>, remote: map<string, Json>): (r: map<string, Json>)
    ensures r.Keys == local.Keys + remote.Keys
  {
    map id | id in local.Keys + remote.Keys :: if id in local then local[id] else remote[id]
  }

  /** The add-only merge never replaces a local notification and takes every
      remote one whose id is new. */
  lemma AddNewKeepsLocal(local: map<string, Json>, remote: map<string, Json>, id: string)
    ensures id in local ==> AddNew(local, remote)[id] == local[id]
    ensures id !in local && id in remote ==> AddNew(local, remote)[id] == remote[id]
    ensures id !in local && id !in remote ==> id !in AddNew(local, remote)
  {
  }

  /** Receiving the same notifications again adds nothing. */
  lemma {:induction false} AddNewIdempotent(local: map<string, Json>, remote: map<string, Json>)
    ensures AddNew(AddNew(local, remote), remote) == AddNew(local, remote)
    ensures remote.Keys - AddNew(local, remote).Keys == {}
  {
    var once := AddNew(local, remote);
    forall id | id in once ensures AddNew(once, remote)[id] == once[id] {
      AddNewKeepsLocal(once, remote, id);
    }
  }

  /** The items of the added ids, in the order they were added. */
  function Items(remote: map<string, Json>, added: seq<string>): (r: seq<Json>)
    requires forall i :: 0 <= i < |added| ==> added[i] in remote
    ensures |r| == |added| && forall i :: 0 <= i < |added| ==> r[i] == remote[added[i]]
  {
    seq(|added|, i requires 0 <= i < |added| && added[i] in remote => remote[added[i]])
  }

  /** A list of distinct ids. */
  predicate Distinct(s: seq<string>) {
    forall i, j :: 0 <= i < j < |s| ==> s[i] != s[j]
  }

  /** The first loop of updateAfterRemoteSync: each remote notification
      whose id the local list lacks is added, and recorded as new. */
  method AddNewNotifications(local: map<string, Json>, remote: map<string, Json>)
    returns (merged: map<string, Json>, added: seq<string>)
    ensures merged == AddNew(local, remote)
    ensures Distinct(added) && (forall i :: 0 <= i < |added| ==> added[i] in remote)
    ensures forall id :: id in added <==> id in remote && id !in local
  {
    merged := local;
    added := [];
    var todo := remote.Keys;
    while todo != {}
      invariant todo <= remote.Keys
      invariant merged.Keys == local.Keys + (remote.Keys - todo)
      invariant forall id :: id in merged ==> merged[id] == if id in local then local[id] else remote[id]
      invariant Distinct(added) && (forall i :: 0 <= i < |added| ==> added[i] in remote)
      invariant forall id :: id in added <==> id in remote && id !in todo && id !in local
    {
      var nId :| nId in todo;
      if nId !in merged {
        merged := merged[nId := remote[nId]];
        added := added + [nId];
      }
      todo := todo - {nId};
    }
    assert merged == AddNew(local, remote);
  }

  // ---------------------------------------------------------------------
  // updateAfterRemoteSync: config
  // ---------------------------------------------------------------------

  /** A local config entry marked as modified locally (`isNew` truthy). */
  predicate Protected(e: Json) {
    HasOwn(e, "isNew") && Truthy(e.fields["isNew"])
  }

  /** Whether the remote entry for key k is taken: the key is new locally, or
      the local entry is not protected and has a `devices` list. */
  predicate Takes(local: map<string, Json>, k: string) {
    k !in local || (!Protected(local[k]) && HasOwn(local[k], "devices"))
  }

  /** The config after the merge. */
  function MergeConfig(local: map<string, Json>, remote: map<string, Json>): (r: map<string, Json>)
    ensures r.Keys == local.Keys + remote.Keys
  {
    map k | k in local.Keys + remote.Keys :: if k in remote && Takes(local, k) then remote[k] else local[k]
  }

  /** Whether the merge adds or replaces any entry. */
  predicate ConfigChanges(local: map<string, Json>, remote: map<string, Json>) {
    exists k :: k in remote && Takes(local, k)
  }

  /** A remote key whose local entry is null: `hasOwnProperty` on it throws. */
  predicate ConfigThrows(local: map<string, Json>, remote: map<string, Json>) {
    exists k :: k in remote && k in local && local[k].JNull?
  }

  /** The four cases of the config merge, key by key. */
  lemma MergeConfigCases(local: map<string, Json>, remote: map<string, Json>, k: string)
    ensures k !in local && k in remote ==> MergeConfig(local, remote)[k] == remote[k]
    ensures k in local && k in remote && Protected(local[k]) ==> MergeConfig(local, remote)[k] == local[k]
    ensures k in local && k in remote && !Protected(local[k]) && HasOwn(local[k], "devices") ==>
              MergeConfig(local, remote)[k] == remote[k]
    ensures k in local && k in remote && !Protected(local[k]) && !HasOwn(local[k], "devices") ==>
              MergeConfig(local, remote)[k] == local[k]
    ensures k in local && k !in remote ==> MergeConfig(local, remote)[k] == local[k]
  {
  }

  /** A remote entry with a `devices` list and no `isNew` flag, once taken,
      is taken again by every later merge with the same remote config: such a
      sync reports a change each time it is repeated. */
  lemma DevicesEntryStaysDirty(local: map<string, Json>, remote: map<string, Json>, k: string)
    requires k in remote && Takes(local, k)
    requires !Protected(remote[k]) && HasOwn(remote[k], "devices")
    ensures ConfigChanges(MergeConfig(local, remote), remote)
  {
    MergeConfigCases(local, remote, k);
    assert Takes(MergeConfig(local, remote), k);
  }

  /** The config once the remote keys in `done` have been merged. */
  function MergedOn(local: map<string, Json>, remote: map<string, Json>, done: set<string>): (r: map<string, Json>)
    requires done <= remote.Keys
    ensures r.Keys == local.Keys + done
  {
    map k | k in local.Keys + done :: if k in done && Takes(local, k) then remote[k] else local[k]
  }

  /** The remote keys in `done` whose entry is taken. */
  function TakenIn(local: map<string, Json>, done: set<string>): set<string> {
    set k | k in done && Takes(local, k)
  }

  /** Merging one more key changes at most that key's entry. */
  lemma MergedOnStep(local: map<string, Json>, remote: map<string, Json>, done: set<string>, cfg: string)
    requires done <= remote.Keys && cfg in remote && cfg !in done
    ensures MergedOn(local, remote, done + {cfg}) ==
              if Takes(local, cfg) then MergedOn(local, remote, done)[cfg := remote[cfg]]
              else MergedOn(local, remote, done)
    ensures TakenIn(local, done + {cfg}) == TakenIn(local, done) + (if Takes(local, cfg) then {cfg} else {})
  {
  }

  /** With every remote key merged, the partial merge is the whole one. */
  lemma MergedOnAll(local: map<string, Json>, remote: map<string, Json>)
    ensures MergedOn(local, remote, remote.Keys) == MergeConfig(local, remote)
    ensures TakenIn(local, remote.Keys) != {} <==> ConfigChanges(local, remote)
  {
    if ConfigChanges(local, remote) {
      var k :| k in remote && Takes(local, k);
      assert k in TakenIn(local, remote.Keys);
    }
  }

  /** One pass of the config loop for key cfg, over the config with the keys
      in `done` merged: `clash` when the local entry is null, otherwise
      whether the remote entry was taken. */
  method MergeEntry(local: map<string, Json>, remote: map<string, Json>, merged: map<string, Json>,
                    ghost done: set<string>, cfg: string)
    returns (next: map<string, Json>, took: bool, clash: bool)
    requires done <= remote.Keys && cfg in remote && cfg !in done
    requires merged == MergedOn(local, remote, done)
    ensures clash <==> cfg in local && local[cfg].JNull?
    ensures !clash ==> took == Takes(local, cfg) && next == MergedOn(local, remote, done + {cfg})
  {
    MergedOnStep(local, remote, done, cfg);
    next, took, clash := merged, false, false;
    if cfg in merged {
      var e := merged[cfg];
      if e.JNull? {
        clash := true;
      } else if HasOwn(e, "isNew") && Truthy(e.fields["isNew"]) {
      } else if HasOwn(e, "devices") {
        next, took := merged[cfg := remote[cfg]], true;
      }
    } else {
      next, took := merged[cfg := remote[cfg]], true;
    }
  }

  /** The second loop of updateAfterRemoteSync over the remote config keys;
      `threw` when a local entry it reads is null. */
  method MergeConfigEntries(local: map<string, Json>, remote: map<string, Json>)
    returns (merged: map<string, Json>, dirty: bool, threw: bool)
    ensures threw <==> ConfigThrows(local, remote)
    ensures !threw ==> merged == MergeConfig(local, remote) && dirty == ConfigChanges(local, remote)
  {
    merged := local;
    dirty := false;
    var todo := remote.Keys;
    ghost var done: set<string> := {};
    assert merged == MergedOn(local, remote, done);
    while todo != {}
      invariant done == remote.Keys - todo && todo <= remote.Keys
      invariant merged == MergedOn(local, remote, done)
      invariant forall k :: k in done && k in local ==> !local[k].JNull?
      invariant dirty <==> TakenIn(local, done) != {}
    {
      var cfg :| cfg in todo;
      var next, took, clash := MergeEntry(local, remote, merged, done, cfg);
      if clash {
        return merged, dirty, true;
      }
      merged := next;
      dirty := dirty || took;
      todo := todo - {cfg};
      done := done + {cfg};
    }
    threw := false;
    MergedOnAll(local, remote);
  }

  // ---------------------------------------------------------------------
  // The manager
  // ---------------------------------------------------------------------

  /** The events of the last loop of updateAfterRemoteSync: every new item
      under `name` and under "all". */
  function SyncEvents(name: Option<Json>, items: seq<Json>): (r: seq<Event>)
    ensures |r| == 2 * |items|
    ensures forall i :: 0 <= i < |items| ==>
              r[2 * i] == Event(name, items[i]) && r[2 * i + 1] == Event(Some(JStr(ALL)), items[i])
    decreases |items|
  {
    if items == [] then []
    else SyncEvents(name, items[..|items| - 1]) + [Event(name, items[|items| - 1]), Event(Some(JStr(ALL)), items[|items| - 1])]
  }

    /** The list after a sync with remoteList that does not throw while
      merging: notifications added, config merged when the remote list has
      one (an empty local config is created first). */
  function SyncedConfig(config: Option<map<string, Json>>, remoteList: Json): Option<map<string, Json>> {
    var rc := Field(remoteList, "config");
    if rc.None? then config else Some(MergeConfig(config.GetOr(map[]), OwnFields(rc.value)))
  }

  /** Whether the config merge of a sync adds or replaces anything. */
  predicate SyncConfigChanges(config: Option<map<string, Json>>, remoteList: Json) {
    var rc := Field(remoteList, "config");
    rc.Some? && ConfigChanges(config.GetOr(map[]), OwnFields(rc.value))
  }

  /** Whether the config merge of a sync throws. */
  predicate SyncConfigThrows(config: Option<map<string, Json>>, remoteList: Json) {
    var rc := Field(remoteList, "config");
    rc.Some? && ConfigThrows(config.GetOr(map[]), OwnFields(rc.value))
  }

/** Both merge loops of updateAfterRemoteSync, computed before anything is
      saved: the merged notifications and the ids added in order, then the
      merged config and whether it changed, or `threw` when the config merge
      reads a null local entry. */
  method MergeRemote(notifications: map<string, Json>, config: Option<map<string, Json>>, remoteList: Json)
    returns (syncNotifications: map<string, Json>, added: seq<string>,
             syncConfig: Option<map<string, Json>>, configDirty: bool, threw: bool)
    ensures syncNotifications == AddNew(notifications, RemoteNotifications(remoteList))
    ensures Distinct(added)
    ensures forall id :: id in added <==> id in RemoteNotifications(remoteList) && id !in notifications
    ensures threw <==> SyncConfigThrows(config, remoteList)
    ensures !threw ==> syncConfig == SyncedConfig(config, remoteList) && configDirty == SyncConfigChanges(config, remoteList)
  {
    syncNotifications, added := AddNewNotifications(notifications, RemoteNotifications(remoteList));
    syncConfig, configDirty, threw := config, false, false;
    var rc := Field(remoteList, "config");
    if rc.Some? {
      var merged;
      merged, configDirty, threw := MergeConfigEntries(config.GetOr(map[]), OwnFields(rc.value));
      syncConfig := Some(merged);
    }
  }

  class NotificationManager {
    /** list.notifications: id -> notification. */
    var notifications: map<string, Json>
    /** list.config, when the list has one. */
    var config: Option<map<string, Json>>
    /** The module's `locked` flag. */
    var locked: bool
    /** Events emitted, in order. */
    var events: seq<Event>

    /** A manager over the stored list (`{notifications: {}}` when there is
        no file). */
    constructor (notifications: map<string, Json>, config: Option<map<string, Json>>)
      ensures this.notifications == notifications && this.config == config
      ensures !locked && events == []
    {
      this.notifications := notifications;
      this.config := config;
      locked := false;
      events := [];
    }

    /** getConfig: the stored config, or an empty one when there is none. */
    function GetConfig(): (c: map<string, Json>)
      reads this
      ensures config.Some? ==> c == config.value
      ensures config.None? ==> c == map[]
    {
      config.GetOr(map[])
    }

    /** getNotification(id): the entry stored under id, if any. */
    function GetNotification(id: string): (n: Option<Json>)
      reads this
      ensures n.Some? <==> id in notifications
      ensures n.Some? ==> n.value == notifications[id]
    {
      if id in notifications then Some(notifications[id]) else None
    }

    /** getNotifications(type): the entries of the requested type (all of
        them for undefined or ""), with the config carried over. */
    method GetNotifications(ty: Option<string>) returns (r: Result<Listing>)
      ensures r.Throws? <==> ReadsNullEntry(notifications, ty)
      ensures r.Ok? ==> r.value.config == config
      ensures r.Ok? ==> forall id :: id in r.value.notifications <==> id in notifications && Selected(notifications[id], ty)
      ensures r.Ok? ==> forall id :: id in r.value.notifications ==> r.value.notifications[id] == notifications[id]
      ensures ty.None? || ty == Some("") ==> r == Ok(Listing(notifications, config))
    {
      var lst: map<string, Json> := map[];
      var todo := notifications.Keys;
      while todo != {}
        invariant todo <= notifications.Keys
        invariant forall id :: id in lst <==> id in notifications && id !in todo && Selected(notifications[id], ty)
        invariant forall id :: id in lst ==> lst[id] == notifications[id]
        invariant ty.Some? && ty.value != "" ==> forall id :: id in notifications && id !in todo ==> !notifications[id].JNull?
      {
        var id :| id in todo;
        var entry := notifications[id];
        if ty.None? || ty.value == "" {
          lst := lst[id := entry];
        } else if entry.JNull? {
          return Throws("TypeError");
        } else if Field(entry, "type") == Some(JStr(ty.value)) {
          lst := lst[id := entry];
        }
        todo := todo - {id};
      }
      if ty.None? || ty == Some("") {
        assert lst == notifications;
      }
      return Ok(Listing(lst, config));
    }

    /** addNotification(type, data), with the fresh id and the creation
        time as inputs: stores the record, emits it under its type and under
        "all", and leaves `locked` false. */
    method AddNotification(ty: string, data: Json, id: string, timestamp: string) returns (notify: Json)
      modifies this
      ensures notify == NewNotification(id, timestamp, ty, data)
      ensures notifications == old(notifications)[id := notify]
      ensures GetNotification(id) == Some(notify)
      ensures forall other :: other != id ==> GetNotification(other) == old(GetNotification(other))
      ensures config == old(config)
      ensures events == old(events) + [Event(Some(JStr(ty)), notify), Event(Some(JStr(ALL)), notify)]
      ensures !locked
    {
      locked := true;
      notify := NewNotification(id, timestamp, ty, data);
      notifications := notifications[id := notify];
      events := events + [Event(Some(JStr(ty)), notify), Event(Some(JStr(ALL)), notify)];
      locked := false;
    }

    /** updateAfterRemoteSync(remoteList). A null list throws at once; a
        null local config entry read by the merge throws before anything is
        saved. Otherwise the merged list is saved exactly when something was
        added or replaced, and then each new item is emitted under the type
        of the last one added (the loop reads `notify`, the variable of the
        first loop) and under "all"; that read throws when the last item
        added is null. The result is whether anything changed; `added` lists
        the new ids in the order the loop added them. */
    method UpdateAfterRemoteSync(remoteList: Json) returns (r: Result<bool>, ghost added: seq<string>)
      modifies this
      ensures remoteList.JNull? || SyncConfigThrows(old(config), remoteList) ==>
                r.Throws? && notifications == old(notifications) && config == old(config) && events == old(events)
      ensures !remoteList.JNull? ==>
                && Distinct(added)
                && (forall id :: id in added <==> id in RemoteNotifications(remoteList) && id !in old(notifications))
      ensures !remoteList.JNull? && !SyncConfigThrows(old(config), remoteList) ==>
                var changed := added != [] || SyncConfigChanges(old(config), remoteList);
                && (changed ==> notifications == AddNew(old(notifications), RemoteNotifications(remoteList))
                                && config == SyncedConfig(old(config), remoteList))
                && (!changed ==> notifications == old(notifications) && config == old(config))
                && (r.Throws? <==> added != [] && RemoteNotifications(remoteList)[added[|added| - 1]].JNull?)
                && (r.Ok? ==> r.value == changed)
                && (r.Ok? && added != [] ==>
                      events == old(events) + SyncEvents(Field(RemoteNotifications(remoteList)[added[|added| - 1]], "type"),
                                                         Items(RemoteNotifications(remoteList), added)))
                && (r.Throws? || added == [] ==> events == old(events))
      ensures forall id :: id in old(notifications) ==> id in notifications && notifications[id] == old(notifications)[id]
      ensures locked == old(locked)
    {
      added := [];
      if remoteList.JNull? {
        return Throws("TypeError"), added;
      }
      var remote := RemoteNotifications(remoteList);
      var syncNotifications, newIds, syncConfig, configDirty, threw := MergeRemote(notifications, config, remoteList);
      added := newIds;
      if threw {
        return Throws("TypeError"), added;
      }
      var newItems := Items(remote, newIds);
      if configDirty || |newItems| > 0 {
        AddNewKeepsAll(notifications, remote);
        notifications, config := syncNotifications, syncConfig;
        if |newItems| > 0 {
          var notify := newItems[|newItems| - 1];
          if notify.JNull? {
            return Throws("TypeError"), added;
          }
          EmitAll(Field(notify, "type"), newItems);
        }
      }
      return Ok(configDirty || |newItems| > 0), added;
    }

    /** The emit loop: every item under `name`, then under "all". */
    method EmitAll(name: Option<Json>, items: seq<Json>)
      modifies this
      ensures events == old(events) + SyncEvents(name, items)
      ensures notifications == old(notifications) && config == old(config) && locked == old(locked)
    {
      for n := 0 to |items|
        invariant events == old(events) + SyncEvents(name, items[..n])
        invariant notifications == old(notifications) && config == old(config) && locked == old(locked)
      {
        assert items[..n + 1][..n] == items[..n];
        events := events + [Event(name, items[n]), Event(Some(JStr(ALL)), items[n])];
      }
      assert items[..|items|] == items;
    }
  }

  /** Every local notification survives the add-only merge unchanged. */
  lemma AddNewKeepsAll(local: map<string, Json>, remote: map<string, Json>)
    ensures forall id :: id in local ==> id in AddNew(local, remote) && AddNew(local, remote)[id] == local[id]
  {
  }
}
