# webinos-core: a verified model of the core library

This project models the core of the webinos-core library in Dafny and proves
properties of the model. It covers seven JavaScript files:

- **Action replication** (`lib/actions.js`). A personal zone hub (PZH) and its
  devices (PZPs) replicate *actions*. Each entity keeps an actions store
  (id -> action) and a tracking store. The tracking store holds, for each
  known peer, the set of action ids still to send to it, and for each action
  the peers that acknowledged it. Both stores are lazily loaded, cached
  documents (`Db`). The model covers creating, ingesting, sending,
  broadcasting and acknowledging actions, and the processors run on
  received actions.
- **Object synchronisation** (`lib/synchronization.js`). A per-key MD5 digest
  of an object, with arrays hashed order-independently. The comparison of
  two digests yields the keys to request and a bundle of local values. The
  answer to such a request is modelled, and so is the recursive merge that
  applies received values, including the array union by
  `(api, serviceAddress)`.
- **Message framing** (`lib/messageProcessing.js`). JSON text is framed
  behind a 4-byte little-endian byte length. A streaming reader reassembles
  frames split across socket reads and keeps one unfinished frame per
  connection. Buffer concatenation is modelled as well.
- **Notifications** (`lib/notifications.js`). The notification list and its
  config: lookups, adding a notification (with its events), and merging a
  list received from the hub.
- **Service discovery** (`lib/rpc_servicedisco.js`):
  - the request-id counter;
  - the list of remote services and adding to it or removing from it by
    address;
  - the de-duplication and zone filtering of search results;
  - the listing of all services except those at one address.
- **Configuration comparison** (`lib/loadconfig.js`, `compareObjects`).
- **Entity naming** (`lib/webinosId.js`, `fetchWebinosName`).

JavaScript values are modelled by one `Json` datatype (`json_value.dfy`),
with integers for numbers. `undefined` is an absent key or `None`. An
exception is a `Throws` outcome or a `threw` flag. JavaScript's `===` is
`StrictEq`: two arrays or objects are never equal, because `===` compares
references and the model does not track identity. Where the source mutates
state, the model is a class: `ActionHandler`, `Db`, `JsonObject`,
`FrameReader`, `NotificationManager`, `Discovery` and `IdCounter`. The
source's loops are methods with loop invariants, each proved against a
specification function. The exception is the nested `forEach` loops of
`findDiffApply`, which sit inside a recursive pure function and are
modelled as the recursive functions `ScanRemote` and `ScanLocal`. Pure
logic is functions and lemmas.

Behaviour that follows the code, including where the code looks
unintended:

- An ingested action's `originator` is always overwritten with its previous
  owner.
- `compareObjectHash` never bundles an empty key that only the local digest
  has. An empty key that the remote digest has and the local digest lacks
  is requested, and it is bundled with the local value, which is undefined.
- `findDiffApply` drops a shared key whose remote value is a number or a
  boolean. Applying the same nested remote object twice therefore differs
  from applying it once.
- After a sync, `updateAfterRemoteSync` emits every new notification under
  the `type` of the last one added.
- A config entry with a `devices` list is replaced, and reported as a
  change, on every sync.
- `compareObjects` compares by index, not by key.
- A service whose `id` or `serviceAddress` is an object or an array matches
  only itself, because `===` compares references. Search results keep it,
  since `isDuplicate` compares it with its own position. Adding it appends
  it every time, because the incoming object is never the listed one.

## Model

| member | source | states |
|---|---|---|
| Actions.Restamp | lib/actions.js:144-145 | the stored copy has the new owner and the old owner as originator; every other field is unchanged |
| Actions.Ingest | lib/actions.js:141-167 | ingesting stores the restamped action under its id; the id becomes pending for every known peer except the action's owner; the owner is the only peer recorded as having acknowledged it; store consistency is preserved |
| Actions.IngestAllGrows | lib/actions.js:13-43 | ingesting a received batch keeps the stores consistent and the peer set unchanged; it never removes an action, and every action of the batch ends up stored |
| Actions.Resync | lib/actions.js:89-97 | an unknown peer gets every stored action as pending; known peers and the actions store are untouched |
| Actions.Acknowledge | lib/actions.js:114-139 | for a known peer, the acknowledged ids leave its pending set, and the peer joins the acknowledgers of each acknowledged id that is stored; other peers are unchanged; an unknown peer changes nothing |
| Actions.AcknowledgeIdempotent | lib/actions.js:114-139 | acknowledging the same list twice has the same effect as once |
| Actions.AcknowledgeConsistent | lib/actions.js:114-139 | acknowledgement preserves the store invariant |
| Actions.InsertByTimestamp | lib/actions.js:103-111 | inserting keeps a batch ordered by timestamp, adds exactly the one action and loses none |
| Actions.SortedBatch | lib/actions.js:99-111 | the batch for a peer is ordered by timestamp and holds exactly the stored actions of its pending ids, once each |
| Actions.BatchMessage | lib/actions.js:99-112 | the message to a peer is addressed to it and carries exactly its pending actions, sorted |
| Actions.AckedIds | lib/actions.js:20-38 | the acknowledgement list is no longer than the batch and names only actions of the batch |
| Actions.DistinctRecipientsCount | lib/actions.js:66-74 | messages to pairwise distinct peers number as many as their recipients |
| Actions.BatchesSnoc | lib/actions.js:66-74 | appending a correct batch message keeps every message of a broadcast a correct batch |
| Actions.Db.constructor | lib/actions.js:235-238 | a new document handle starts with no cache over the given file |
| Actions.Db.LoadDb | lib/actions.js:240-249 | loading returns the cached document, or else the file's or the empty one, and caches it; a loaded cache is never replaced |
| Actions.Db.Update | lib/actions.js:147-162 | an in-place change to the loaded document replaces the cache and leaves the file alone until saved |
| Actions.Db.SaveDb | lib/actions.js:251-255 | saving writes the cache to the file when there is one and leaves the document unchanged |
| Actions.MarkPending | lib/actions.js:154-158 | the loop over the tracked peers makes the action pending for every peer except its originator; the peer set is unchanged |
| Actions.ApplyAckList | lib/actions.js:121-133 | the acknowledgement loop removes every listed id from the peer's pending set and records the peer for each listed id that is stored |
| Actions.ActionHandler.constructor | lib/actions.js:4-11 | a handler starts with no processors, no pending sync and nothing sent, over consistent stores |
| Actions.ActionHandler.RegisterActionProcessor | lib/actions.js:76-81 | the processor is appended to the list for its type; nothing else changes |
| Actions.ActionHandler.TriggerSync | lib/actions.js:169-178 | a sync is scheduled at most once until it runs |
| Actions.ActionHandler.AddActionInternal | lib/actions.js:141-167 | the new state is the ingest of the action; both stores are saved and a sync is scheduled |
| Actions.ActionHandler.AddAction | lib/actions.js:49-60 | a created action is owned by and originates from this entity, is pending for every other peer and is acknowledged only by this entity |
| Actions.ActionHandler.SendPendingActions | lib/actions.js:45-47 | the state is the resync for the peer; exactly one correct batch message is sent when the peer has pending actions, else nothing |
| Actions.ActionHandler.ActionsAcknowledged | lib/actions.js:62-64 | the tracking store becomes the acknowledgement of the list; it is saved only when the peer is known |
| Actions.ActionHandler.ReceivePendingActions | lib/actions.js:13-43 | the state is the in-order ingest of the batch; processors are called in order up to the first that throws; an acknowledgement of the surviving ids is sent back exactly when there is one |
| Actions.ActionHandler.ReceiveNext | lib/actions.js:16-38 | one loop step extends the ingest, the acknowledgement list and the processor calls by one action |
| Actions.ActionHandler.ReceiveAction | lib/actions.js:16-38 | one received action is ingested; it is acknowledged exactly when none of its processors throws |
| Actions.ActionHandler.RunProcessors | lib/actions.js:23-29 | the processors for a type run in order and stop at the first that throws |
| Actions.ActionHandler.BroadcastActions | lib/actions.js:66-74 | the stores are unchanged; one correct batch goes to each connected peer with pending actions, and to no other peer |
| Actions.ActionHandler.SweepStep | lib/actions.js:69-72 | one iteration of the broadcast loop sends a connected peer with pending actions its correct batch, keeps the recipients distinct, and sends nothing to any other peer |
| Actions.ActionHandler.BroadcastTo | lib/actions.js:66-74 | a peer with pending actions gets exactly one batch message; a peer without gets none |
| Actions.ActionHandler.RunQueuedSweep | lib/actions.js:169-178 | the queued sync clears the flag and leaves the stores unchanged; it appends exactly the broadcast, one correct batch to each connected peer with pending actions and to no other; with nothing queued it sends nothing |
| SyncDigest.LexLeTotal | lib/synchronization.js:33 | JavaScript's default string order is total |
| SyncDigest.LexLeAntisymmetric | lib/synchronization.js:33 | JavaScript's default string order is antisymmetric |
| SyncDigest.LexLeTransitive | lib/synchronization.js:33 | JavaScript's default string order is transitive |
| SyncDigest.InsertString | lib/synchronization.js:33 | inserting into a sorted list keeps it sorted and adds exactly one element |
| SyncDigest.SortStrings | lib/synchronization.js:33 | sorting yields a sorted permutation |
| SyncDigest.SortedUnique | lib/synchronization.js:33 | two sorted permutations of the same strings are equal, so the sort's result does not depend on input order |
| SyncDigest.ElementHashes | lib/synchronization.js:30-32 | one digest per array element, in order |
| SyncDigest.ObjectHash | lib/synchronization.js:35-40 | the digest has exactly the object's own keys |
| SyncDigest.ElementHashesPermutation | lib/synchronization.js:28-34 | permuted arrays have permuted element digests |
| SyncDigest.ArrayDigestPermutation | lib/synchronization.js:28-38 | an array's digest does not depend on the order of its elements |
| SyncDigest.ArrayHashes | lib/synchronization.js:28-34 | the hashing loop returns the element digests sorted |
| SyncDigest.GetObjectHash | lib/synchronization.js:26-42 | the digest holds one entry per own key, each the digest of that key's value |
| SyncDigest.BundleOf | lib/synchronization.js:53-66 | the bundle has exactly the chosen keys |
| SyncDigest.CompareObjectHash | lib/synchronization.js:47-71 | a falsy local object throws; so does a null remote digest when the local digest has a key, and with no local key it gives the empty diff; otherwise the result lists the requested keys, followed by the bundle of local values when the bundle is non-empty |
| SyncDigest.LocalOnly | lib/synchronization.js:53-57 | the bundle gets every non-empty local key that the remote digest lacks |
| SyncDigest.RequestedNames | lib/synchronization.js:60-67 | every remote key whose digest differs or is missing locally is requested and bundled |
| SyncDigest.RequestedIffDigestDiffers | lib/synchronization.js:63 | a key with a non-empty remote digest is requested exactly when the local digest is missing or differs |
| SyncDigest.ReorderedArraysNoDiff | lib/synchronization.js:26-71 | objects that differ only in the order of array elements have equal digests, so nothing is requested or bundled |
| SyncMerge.PushNew | lib/synchronization.js:89-94 | the push adds the element's identity, keeps identities unique and adds no other value |
| SyncMerge.PushAll | lib/synchronization.js:118-120 | pushing a list adds exactly its identities and keeps them unique |
| SyncMerge.ScanLocal | lib/synchronization.js:103-112 | the inner loop keeps identities unique, adds only the remote entry or local entries, and adds the remote entry's identity once the scan ends |
| SyncMerge.ScanRemote | lib/synchronization.js:100-123 | the outer loop covers every local identity and every remote entry with an id, and adds nothing else |
| SyncMerge.MergeArrays | lib/synchronization.js:98-129 | the array merge has no duplicate identity, keeps every local identity and holds only entries of either side |
| SyncMerge.MergeArraysUnion | lib/synchronization.js:98-129 | the merged array is the duplicate-free union of the local entries and the remote entries with an id |
| SyncMerge.FindDiffApply | lib/synchronization.js:96-153 | arrays merge into an array, which is empty unless the local side is an array; an object result keeps the keys of both sides, minus shared keys whose remote value is a number or a boolean; any other remote value gives `{}` |
| SyncMerge.FindDiffApplyArrays | lib/synchronization.js:98-129 | two arrays merge into their union by identity |
| SyncMerge.FindDiffApplyValues | lib/synchronization.js:130-150 | in an object merge, a remote-only key takes the remote value; a local-only key keeps the local value; a shared string key takes the remote string; a shared key whose remote value is null, an array or an object holds the recursive merge |
| SyncMerge.NestedObjectsMerge | lib/synchronization.js:135-136 | nested objects merge key by key: `{"a": {"x": 1}}` over `{"a": {"y": 2}}` gives `{"a": {"x": 1, "y": 2}}` |
| SyncMerge.FlatMergeIsUnion | lib/synchronization.js:130-150 | on flat string objects the merge is a union where the remote side wins |
| SyncMerge.NumericConflictDropped | lib/synchronization.js:132-137 | a shared numeric key disappears from the merge |
| SyncMerge.SendKeys | lib/synchronization.js:73-87 | the reply has exactly the requested names, and the local object gains exactly the bundle's keys |
| SyncMerge.SendNamesThenBundle | lib/synchronization.js:73-87 | a request of names followed by a bundle answers each name with its previous local value, then writes the bundle |
| SyncMerge.AppliedOnStep | lib/synchronization.js:164-175 | applying one more remote key changes only that key |
| SyncMerge.AppliedEffects | lib/synchronization.js:158-176 | applying adds remote-only keys, takes differing remote strings, keeps local-only keys and keeps the local value on a numeric or boolean conflict |
| SyncMerge.FlatApplyIdempotent | lib/synchronization.js:158-176 | applying flat string contents twice equals applying them once |
| SyncMerge.NestedApplyNotIdempotent | lib/synchronization.js:158-176 | applying a nested object with a numeric conflict twice differs from applying it once |
| SyncMerge.JsonObject.SendObjectContents | lib/synchronization.js:73-87 | the reply and the updated object are the specification's fold over the received diff |
| SyncMerge.JsonObject.WriteAll | lib/synchronization.js:79-83 | a bundle's own keys are written over the object |
| SyncMerge.JsonObject.ApplyObjectContents | lib/synchronization.js:158-176 | a null remote throws and changes nothing; otherwise the object becomes the specified merge |
| MessageProcessing.Le32RoundTrip | lib/messageProcessing.js:72 | reading back a written 32-bit little-endian length gives the length |
| MessageProcessing.Packet | lib/messageProcessing.js:69-75 | a frame is the 4-byte length of its payload followed by the payload |
| MessageProcessing.JsonStr2Buffer | lib/messageProcessing.js:69-75 | the fresh buffer holds the frame of the text's UTF-8 bytes; a text too long for the prefix throws |
| MessageProcessing.Available | lib/messageProcessing.js:99-107 | the bytes read are the whole body when it is there, otherwise the rest of the buffer |
| MessageProcessing.Body | lib/messageProcessing.js:96-111 | one pass reads a saved frame's rest, or a length prefix and the available body; a missing prefix is an error |
| MessageProcessing.ReadLoop | lib/messageProcessing.js:94-128 | the read loop keeps no unfinished frame when it throws for a missing length prefix |
| MessageProcessing.ReadJsonSpec | lib/messageProcessing.js:84-129 | a fresh connection given fewer than four bytes throws; a saved frame the buffer still does not complete is saved again with the buffer appended and the missing count reduced |
| MessageProcessing.ReadLoopExtends | lib/messageProcessing.js:94-128 | handler calls already made are never taken back |
| MessageProcessing.ReadPacketsAt | lib/messageProcessing.js:94-128 | a buffer of whole frames hands every payload to the handler in order and keeps nothing |
| MessageProcessing.FrameRoundTrip | lib/messageProcessing.js:69-129 | reading a written frame hands its text's bytes to the handler once |
| MessageProcessing.FramesBackToBack | lib/messageProcessing.js:69-129 | several frames in one buffer are delivered one handler call each, in order |
| MessageProcessing.SplitFrame | lib/messageProcessing.js:96-118 | a frame split across two reads is saved after the first and completed by the second |
| MessageProcessing.FrameReader.constructor | lib/messageProcessing.js:22 | no connection starts with a saved frame |
| MessageProcessing.FrameReader.ReadJson | lib/messageProcessing.js:84-129 | the handler calls, the error and the saved frame are the specification's; other connections are untouched; an instance that is not a string throws first |
| MessageProcessing.FrameReader.ReadPass | lib/messageProcessing.js:96-111 | one pass of the loop matches its specification |
| MessageProcessing.ConcatBuffers | lib/messageProcessing.js:28-56 | a non-array throws; no buffers gives an empty buffer; one buffer is returned itself; more give a fresh buffer of their bytes in order |
| MessageProcessing.TotalLength | lib/messageProcessing.js:40-46 | the length is that of all bytes together |
| MessageProcessing.CopyAt | lib/messageProcessing.js:52 | the copy writes the buffer at the position and keeps the earlier bytes |
| Notifications.NewNotification | lib/notifications.js:124-134 | the record carries the given id, timestamp, type and data |
| Notifications.AddNew | lib/notifications.js:154-162 | the merged notifications have the ids of both lists |
| Notifications.AddNewKeepsLocal | lib/notifications.js:154-162 | a local notification is kept; a remote-only one is added |
| Notifications.AddNewIdempotent | lib/notifications.js:154-162 | merging the same remote list twice equals merging once, and every remote id is present afterwards |
| Notifications.AddNewKeepsAll | lib/notifications.js:154-162 | no local notification is lost or changed |
| Notifications.AddNewNotifications | lib/notifications.js:154-162 | the loop builds the merge and lists each added id once: exactly the remote ids not held locally |
| Notifications.MergeConfig | lib/notifications.js:170-186 | the merged config has the keys of both sides |
| Notifications.MergeConfigCases | lib/notifications.js:170-186 | a new key is added; a locally modified entry is kept; an entry with devices is replaced; any other entry is kept |
| Notifications.DevicesEntryStaysDirty | lib/notifications.js:175-179 | an entry with devices still counts as a change on the next sync |
| Notifications.MergedOn | lib/notifications.js:170-186 | the config merged over the remote keys handled so far has the local keys and those keys |
| Notifications.MergedOnAll | lib/notifications.js:170-186 | the loop's partial merge over all remote keys is the whole merge, and something was taken exactly when the config changed |
| Notifications.MergeEntry | lib/notifications.js:171-185 | one key of the loop either throws on a null local entry or extends the partial merge by that key |
| Notifications.MergeConfigEntries | lib/notifications.js:170-186 | the config loop throws exactly on a null local entry for a remote key; otherwise it returns the merge and whether it changed anything |
| Notifications.SyncEvents | lib/notifications.js:192-195 | two events per new item, its type's and then "all", in order |
| Notifications.MergeRemote | lib/notifications.js:151-187 | both merge loops together: the merged list, the added ids, and the merged config, its change flag or a throw |
| Notifications.NotificationManager.constructor | lib/notifications.js:66-80 | the manager starts unlocked over the stored list with no events |
| Notifications.NotificationManager.GetConfig | lib/notifications.js:84-90 | the config, or `{}` when the list has none |
| Notifications.NotificationManager.GetNotification | lib/notifications.js:93-102 | a notification is found exactly when its id is stored |
| Notifications.NotificationManager.GetNotifications | lib/notifications.js:105-119 | exactly the entries of the requested type (all of them for no type or ""), with the config; reading the type of a null entry throws |
| Notifications.NotificationManager.AddNotification | lib/notifications.js:121-147 | the new record is stored under its id, other ids are unchanged, and it is emitted under its type and under "all" |
| Notifications.NotificationManager.UpdateAfterRemoteSync | lib/notifications.js:150-199 | local notifications are never changed; the list is saved and the new items emitted exactly when something changed; the result says whether anything changed |
| Notifications.NotificationManager.EmitAll | lib/notifications.js:192-195 | the emit loop appends the two events of each item in order and changes nothing else |
| ServiceDiscovery.StrictEqLaws | lib/rpc_servicedisco.js:211 | `===` is symmetric and transitive |
| ServiceDiscovery.BeforeSlash | lib/rpc_servicedisco.js:342 | the part before the first "/" is a prefix without "/" followed by "/" or the end |
| ServiceDiscovery.Filter | lib/rpc_servicedisco.js:219-228 | filtering keeps exactly the passing elements, in order |
| ServiceDiscovery.FilterCounts | lib/rpc_servicedisco.js:219-228 | filtering keeps every copy of a passing entry and no copy of a failing one |
| ServiceDiscovery.AddAll | lib/rpc_servicedisco.js:319-323 | adding keeps the old list as a prefix and appends at most one entry per message element |
| ServiceDiscovery.AddAllExtends | lib/rpc_servicedisco.js:304-324 | adding keeps the old list as a prefix and only appends elements of the message |
| ServiceDiscovery.AddAllNoDuplicates | lib/rpc_servicedisco.js:311-323 | adding keeps a duplicate-free list duplicate-free |
| ServiceDiscovery.AddAllContains | lib/rpc_servicedisco.js:311-323 | afterwards the list contains every service of the message whose id and address are primitive, and everything it contained before |
| ServiceDiscovery.RemoveFrom | lib/rpc_servicedisco.js:330-353 | removal never lengthens the list |
| ServiceDiscovery.RemoveFromFilters | lib/rpc_servicedisco.js:330-353 | removal throws exactly when a kept service's address cannot be split; otherwise it keeps exactly the services not at the address, in order |
| ServiceDiscovery.Dedup | lib/rpc_servicedisco.js:207-219 | de-duplication never lengthens the results |
| ServiceDiscovery.DedupWithin | lib/rpc_servicedisco.js:207-219 | de-duplication only keeps elements of the results |
| ServiceDiscovery.DedupNoDuplicates | lib/rpc_servicedisco.js:207-219 | the de-duplicated results have no two services with the same identity |
| ServiceDiscovery.DedupCovers | lib/rpc_servicedisco.js:207-219 | every result is represented after de-duplication: one with a primitive id and address by the first result naming its service, one with a composite id or address by itself |
| ServiceDiscovery.IsFirstNaming | lib/rpc_servicedisco.js:207-218 | a result is kept exactly when no earlier result names its service; it always matches itself at its own position |
| ServiceDiscovery.HasZoneId | lib/rpc_servicedisco.js:222-227 | a service passes exactly when its address is one of the zone ids |
| ServiceDiscovery.Delivered | lib/rpc_servicedisco.js:206-232 | the delivered results are no more than the results and only results; a throw needs at least one result |
| ServiceDiscovery.CompositeIdResultDelivered | lib/rpc_servicedisco.js:207-219 | a lone result whose id is an object is delivered |
| ServiceDiscovery.DeliverResults | lib/rpc_servicedisco.js:206-232 | the results are de-duplicated, then filtered by zone when a zone filter is given |
| ServiceDiscovery.FilterSnoc | lib/rpc_servicedisco.js:219-228 | filtering one more element appends it exactly when it passes |
| ServiceDiscovery.Discovery.constructor | lib/rpc_servicedisco.js:64 | discovery starts with no remote services |
| ServiceDiscovery.Discovery.AddRemoteServiceObjects | lib/rpc_servicedisco.js:304-324 | merge === false clears the list first; each new service is appended unless one with its identity is there |
| ServiceDiscovery.Discovery.RemoveRemoteServiceObjects | lib/rpc_servicedisco.js:330-353 | the list and the throw are the removal's specification |
| ServiceDiscovery.Discovery.GetAllServices | lib/rpc_servicedisco.js:384-395 | the remote services not at the excepted address, in order and with every duplicate copy kept, followed by the registered services |
| ServiceDiscovery.Classify | lib/rpc_servicedisco.js:336-347 | a service is removed when at the address and stuck when its address cannot be split |
| ServiceDiscovery.SpliceStep | lib/rpc_servicedisco.js:335-352 | one loop step keeps the removal invariant or ends in the throw |
| ServiceDiscovery.SpliceOut | lib/rpc_servicedisco.js:330-353 | the in-place splice loop computes the removal |
| ServiceDiscovery.ContainsService | lib/rpc_servicedisco.js:311-318 | the search finds a service exactly when one with the same identity is listed |
| ServiceDiscovery.IdCounter.constructor | lib/rpc_servicedisco.js:29-33 | the counter starts at zero |
| ServiceDiscovery.IdCounter.GetNextID | lib/rpc_servicedisco.js:29-33 | the counter advances by one, wrapping at the largest number; the id is the session id followed by the counter's digits |
| ServiceDiscovery.NextIdsDistinct | lib/rpc_servicedisco.js:29-33 | different counter values give different ids |
| LoadConfig.Compared | lib/loadconfig.js:32-48 | values not both of object type compare unequal; only a null argument throws; equal objects have the same key count |
| LoadConfig.CompareObjects | lib/loadconfig.js:32-48 | the loop's answer is the comparison's specification |
| LoadConfig.CompareArrays | lib/loadconfig.js:32-48 | two arrays compare equal exactly when they have the same length and their elements are `===` in order |
| LoadConfig.CompositeElementNotSelfEqual | lib/loadconfig.js:42 | two separately built arrays with equal contents, one element an object or an array, compare unequal |
| LoadConfig.PlainObjectsCompareEqual | lib/loadconfig.js:37-45 | same-size objects without digit keys compare equal whatever their values |
| LoadConfig.CompareSymmetric | lib/loadconfig.js:32-48 | the comparison is symmetric |
| WebinosId.FirstChars | lib/webinosId.js:30 | a substring is a prefix of at most n characters, the whole string when it is short enough |
| WebinosId.FetchWebinosName | lib/webinosId.js:26-64 | the callback is called unless there is no forced name and the type contains none of "Pzp", "PzhP", "Pzh" |
| WebinosId.Forced | lib/webinosId.js:29 | a forced name is truthy |
| WebinosId.ForcedNameWins | lib/webinosId.js:29-32 | a forced string name wins, cut to 34 characters; a forced name that is not a string throws |
| WebinosId.HostNamePrefix | lib/webinosId.js:57-60 | without a forced name, a device's or a hub web server's name is the host name cut to 34 or 33 characters |
| WebinosId.HubFriendlyName | lib/webinosId.js:61-62 | a hub gets its friendly name, or "defaultPzh" |
| WebinosId.HubWebServerIsNotHub | lib/webinosId.js:57-62 | a "PzhP" type also contains "Pzh" but takes the host-name branch |
| JsonValue.DecimalStringInjective | lib/rpc_servicedisco.js:32 | different numbers print to different digit strings |

## Left out

- File I/O: every `Db` file and the notification list file are state of the model. Load failures, file names and the directory layout are not modelled.
- Clocks and ids: `uuid.v1()` and `Date` are parameters. An action's `new Date()` timestamp is an integer, the time that the batch sort compares. A notification's timestamp is a string, the text the `Date` becomes once the list is saved as JSON.
- MD5 and `JSON.stringify` are opaque functions of a `Hasher`. Digest collisions are not excluded.
- `JSON.parse` in `readJson` is not modelled. The handler receives the payload bytes, and a malformed payload or a throwing handler is not modelled.
- Numbers are integers: floating point, `NaN` and exponent notation are not modelled.
- Strings are sequences of Unicode scalar values, not UTF-16 code units.
- Object key order is not modelled. Where the source iterates keys in insertion order, the model's order is unspecified.
- Prototype chains: `for…in` and `Object.keys` see only the own keys of a plain object. An array or a string used as an object has no keys, except in `compareObjects`, where an array's keys are its indices.
- SyncMerge.MergeArrays: a `null` element of the local array can make the source throw, at `lname.api` or inside `contains`. A lone `null` with an empty remote array is pushed without a throw, and there the model agrees. The model reads it as an entry with no `api` and no `serviceAddress`, and does not throw.
- LoadConfig.Compared: values are compared as values, so comparing one and the same reference is not modelled. `compareObjects(x, x)` on one array holding an object is true in the source (`x[k] === x[k]`), as when `updateWebinosConfig` compares `ports` again after it has shared one reference (lib/loadconfig.js:78-79); in the model such an array is compared as if it were two separately built copies.
- Notifications.NotificationManager.AddNotification, Notifications.NotificationManager.UpdateAfterRemoteSync and Notifications.NotificationManager.EmitAll: an emit appends to an event log. In the source `this.emit` runs the listeners synchronously (lib/notifications.js:138-139 and 193-194). A throwing listener, or an `"error"` event with no listener, stops the emits. In `addNotification` the catch swallows it after the save and `"all"` is never emitted; in `updateAfterRemoteSync` it propagates after `saveList`. Neither is modelled.
- Actions.ActionHandler.ReceivePendingActions: a `null` action in a received batch is not representable. The source throws in `addActionInternal` (lib/actions.js:141-145), its catch (lines 34-37) skips the action, and it is not acknowledged.
- SyncMerge.IdentOf: identities are compared by value, and a missing `api` or `serviceAddress` differs from every present one. The source's `contains` (lib/synchronization.js:88-93) uses the loose `==`, which differs in four ways, none of them modelled:
  - it compares an array or object `api` or `serviceAddress` by reference, so such an entry never matches;
  - it converts between numbers and strings;
  - it converts booleans to numbers (`true == 1`);
  - it treats `null` and `undefined` as equal, so an entry with `api: null` and one with no `api` count as one identity in the source (only the first is pushed) but as two in the model (both are pushed). The same holds for `serviceAddress`.
- SyncMerge.JsonObject.ApplyObjectContents: a non-object local value is not modelled. The local object is always a plain object.
- Processor side effects: a processor is an opaque value. Only whether it throws on an action is observed.
- Scheduling: `process.nextTick` and `setTimeout` are the explicit `RunQueuedSweep` step. Sending a message appends to an outbox.
- MessageProcessing.ConcatBuffers: the explicit `length` argument of `concatBufferAndroid` is not modelled. The total is always computed.
- MessageProcessing.FrameReader.ReadJson: `instanceMap` is per reader, not one global map.
- WebinosId.FetchWebinosName: the Android branch, which asks the device for its identity, is not modelled.
- `search` in `fetchWebinosName` is modelled as a plain substring test. The patterns have no special characters.
- ServiceDiscovery.IdCounter.GetNextID: the counter is an exact integer that wraps at the largest double. The loss of precision above 2^53 is not modelled.
- SyncDigest.CompareObjectHash: a remote digest that is a string, a number or a boolean is not modelled. Only an object digest or a missing (null or undefined) one is modelled.
- Notifications.NotificationManager.UpdateAfterRemoteSync: a stored `config` that is `null` is not representable, because the config is an object or absent. The throw at `syncList.config.hasOwnProperty` for such a config is not modelled.
- Notifications.NotificationManager.GetConfig: a stored `null` config, which the source returns as is, is not representable.
- ServiceDiscovery.Discovery.AddRemoteServiceObjects: a `null` entry in the message or the list makes the source throw in `contains`. Entries are always objects here.
- ServiceDiscovery.Discovery.AddRemoteServiceObjects: `msg` is always a list here. A `null` or non-array `msg` makes the source first clear the list when `merge === false` (lib/rpc_servicedisco.js:307-309) and then throw at `msg.forEach` (line 319), so with `merge === false` the list is left empty. The model does not capture this.
- ServiceDiscovery.Discovery.RemoveRemoteServiceObjects: a `null` entry in the list makes the source throw at `services.serviceAddress`. This is not modelled.
- ServiceDiscovery.DeliverResults: a `null` search result makes the source throw in `isDuplicate`. This is not modelled.
- ServiceDiscovery.DeliverResults: a `zoneId` that is an object but not an array gets no zones. The source indexes `zoneId[i]` up to `zoneId.length` (lib/rpc_servicedisco.js:224-225), so an array-like object such as `{length: 1, "0": "a"}` keeps the services at `"a"` there but none in the model.
- Not part of this model: `findServices`, `findConfigurableAPIs`, `search` and its remote callbacks, and `getRegisteredServices`, which is the `registered` parameter of `GetAllServices`.
- Logging, console output and the dashboard are left out.
- ServiceDiscovery.AddAllContains: for a service whose `id` or `serviceAddress` is an array or an object the lemma promises nothing. Such a value is `===` only to the same reference, and the message's object is never the listed one, so the source appends it on every call.
