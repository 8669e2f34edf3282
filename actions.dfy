/** The action replication engine of lib/actions.js: an actions store
    (id -> action), a tracking store (peer -> pending ids, id -> peers that
    acknowledged it), both behind lazily loaded caches, and the operations that
    ingest, create, send and acknowledge actions. */
module Actions {
  import opened Wrappers
  import opened JsonValue

  /** A replicated action. `originator` is `None` on a freshly created record
      until it is ingested; ingestion sets it to the record's previous owner. */
  datatype Action = Action(
    id: string,
    actionType: string,
    action: string,
    owner: string,
    originator: Option<string>,
    payload: Json,
    timestamp: int)

  /** The tracking document: for each known peer its pending action ids, and
      for each action id the peers that acknowledged it. */
  datatype Tracking = Tracking(entities: map<string, set<string>>, acks: map<string, set<string>>)

  /** The two stores the handler owns. */
  datatype Stores = Stores(actions: map<string, Action>, tracking: Tracking)

  /** The body of a message sent through the message channel. */
  datatype Payload =
    | ActionsReceivePending(actions: seq<Action>)
    | ActionAck(ids: seq<string>)

  /** The envelope `{type: "prop", from, to, payload: {status, message}}`. */
  datatype Message = Message(from: string, to: string, payload: Payload)

  /** A registered action processor; what it does is outside this model,
      only whether it throws on an action is observed. */
  datatype Processor = Processor(name: string)

  const EmptyTracking := Tracking(map[], map[])

  /** The store invariant: every action is stored under its own id, every
      pending id refers to a stored action, and exactly the stored actions
      have an acknowledgement set. */
  predicate Consistent(s: Stores) {
    && (forall id :: id in s.actions ==> s.actions[id].id == id)
    && (forall e, id :: e in s.tracking.entities && id in s.tracking.entities[e] ==> id in s.actions)
    && s.tracking.acks.Keys == s.actions.Keys
  }

  /** The record as stored on ingestion: the previous owner becomes the
      originator and the local identity becomes the owner. */
  function Restamp(a: Action, newOwner: string): (r: Action)
    ensures r.originator == Some(a.owner) && r.owner == newOwner
    ensures r.(originator := a.originator, owner := a.owner) == a
  {
    a.(originator := Some(a.owner), owner := newOwner)
  }

  /** addActionInternal on the two stores. */
  function Ingest(s: Stores, newOwner: string, a: Action): (r: Stores)
    ensures r.actions == s.actions[a.id := Restamp(a, newOwner)]
    ensures r.tracking.entities.Keys == s.tracking.entities.Keys
    ensures forall e :: e in s.tracking.entities && e != a.owner ==>
              r.tracking.entities[e] == s.tracking.entities[e] + {a.id}
    ensures a.owner in s.tracking.entities ==>
              r.tracking.entities[a.owner] == s.tracking.entities[a.owner]
    ensures r.tracking.acks == s.tracking.acks[a.id := {a.owner}]
    ensures Consistent(s) ==> Consistent(r)
  {
    var stored := Restamp(a, newOwner);
    var entities := map e | e in s.tracking.entities ::
      if e != a.owner then s.tracking.entities[e] + {a.id} else s.tracking.entities[e];
    Stores(s.actions[a.id := stored], Tracking(entities, s.tracking.acks[a.id := {a.owner}]))
  }

  /** Ingesting a batch in order (the loop of receivePendingActions). */
  function IngestAll(s: Stores, newOwner: string, batch: seq<Action>): Stores
    decreases |batch|
  {
    if batch == [] then s
    else Ingest(IngestAll(s, newOwner, batch[..|batch| - 1]), newOwner, batch[|batch| - 1])
  }

  /** Ingesting a batch keeps the stores consistent, only adds to the actions
      store, and leaves every action of the batch stored. */
  lemma {:induction false} IngestAllGrows(s: Stores, newOwner: string, batch: seq<Action>)
    requires Consistent(s)
    ensures var r := IngestAll(s, newOwner, batch);
      && Consistent(r)
      && s.actions.Keys <= r.actions.Keys
      && s.tracking.entities.Keys == r.tracking.entities.Keys
      && (forall a :: a in batch ==> a.id in r.actions)
    decreases |batch|
  {
    if batch != [] {
      var init := batch[..|batch| - 1];
      IngestAllGrows(s, newOwner, init);
      forall a | a in batch ensures a.id in IngestAll(s, newOwner, batch).actions {
        if a != batch[|batch| - 1] {
          assert a in init;
        }
      }
    }
  }

  /** The tracking document after sending to `entity`: an unknown peer gets an
      entry with every stored action pending (full resync). */
  function Resync(s: Stores, entity: string): (r: Stores)
    ensures r.actions == s.actions && r.tracking.acks == s.tracking.acks
    ensures entity in r.tracking.entities
    ensures entity !in s.tracking.entities ==> r.tracking.entities[entity] == s.actions.Keys
    ensures forall e :: e in s.tracking.entities ==> e in r.tracking.entities && r.tracking.entities[e] == s.tracking.entities[e]
    ensures r.tracking.entities.Keys == s.tracking.entities.Keys + {entity}
    ensures Consistent(s) ==> Consistent(r)
  {
    if entity in s.tracking.entities then s
    else s.(tracking := s.tracking.(entities := s.tracking.entities[entity := s.actions.Keys]))
  }

  /** actionsAcknowledgedInternal on the tracking document: for a known peer,
      every acknowledged id stops being pending for it, and it is recorded as
      having acknowledged every stored action it lists. */
  function Acknowledge(t: Tracking, stored: set<string>, entity: string, ackList: seq<string>): (r: Tracking)
    ensures entity !in t.entities ==> r == t
    ensures r.entities.Keys == t.entities.Keys && r.acks.Keys == t.acks.Keys
    ensures entity in t.entities ==>
              r.entities[entity] == t.entities[entity] - (set id | id in ackList)
    ensures forall e :: e in t.entities && e != entity ==> r.entities[e] == t.entities[e]
    ensures entity in t.entities ==>
              forall id :: id in t.acks ==>
                r.acks[id] == if id in ackList && id in stored then t.acks[id] + {entity} else t.acks[id]
  {
    if entity !in t.entities then t
    else
      Tracking(
        t.entities[entity := t.entities[entity] - (set id | id in ackList)],
        map id | id in t.acks :: if id in ackList && id in stored then t.acks[id] + {entity} else t.acks[id])
  }

  /** Acknowledging the same list twice leaves the same state as once. */
  lemma AcknowledgeIdempotent(t: Tracking, stored: set<string>, entity: string, ackList: seq<string>)
    ensures Acknowledge(Acknowledge(t, stored, entity, ackList), stored, entity, ackList)
         == Acknowledge(t, stored, entity, ackList)
  {
    var once := Acknowledge(t, stored, entity, ackList);
    var twice := Acknowledge(once, stored, entity, ackList);
    if entity in t.entities {
      var acked := set id | id in ackList;
      assert once.entities[entity] - acked == once.entities[entity];
      assert twice.entities == once.entities;
      assert twice.acks == once.acks;
    }
  }

  /** Acknowledgements keep the stores consistent. */
  lemma AcknowledgeConsistent(s: Stores, entity: string, ackList: seq<string>)
    requires Consistent(s)
    ensures Consistent(Stores(s.actions, Acknowledge(s.tracking, s.actions.Keys, entity, ackList)))
  {
  }

  /** Timestamps ascend along the batch. */
  predicate SortedByTimestamp(batch: seq<Action>) {
    forall i, j :: 0 <= i < j < |batch| ==> batch[i].timestamp <= batch[j].timestamp
  }

  /** Inserts `a` after every element whose timestamp is not larger. */
  function InsertByTimestamp(batch: seq<Action>, a: Action): (r: seq<Action>)
    requires SortedByTimestamp(batch)
    ensures SortedByTimestamp(r)
    ensures |r| == |batch| + 1
    ensures forall x :: x in r <==> x in batch || x == a
    decreases |batch|
  {
    if batch == [] then [a]
    else if a.timestamp < batch[0].timestamp then [a] + batch
    else
      var rest := InsertByTimestamp(batch[1..], a);
      assert batch == [batch[0]] + batch[1..];
      assert forall k :: 0 <= k < |rest| ==> batch[0].timestamp <= rest[k].timestamp by {
        forall k | 0 <= k < |rest| ensures batch[0].timestamp <= rest[k].timestamp {
          assert rest[k] in rest;
        }
      }
      [batch[0]] + rest
  }

  /** The batch of actions pending for a peer, sorted ascending by timestamp
      (the body of sendPendingActionsInternal before the send). */
  method SortedBatch(store: map<string, Action>, pending: set<string>) returns (batch: seq<Action>)
    requires pending <= store.Keys
    requires forall id :: id in store ==> store[id].id == id
    ensures SortedByTimestamp(batch)
    ensures |batch| == |pending|
    ensures forall id :: id in pending ==> store[id] in batch
    ensures forall a :: a in batch ==> a.id in pending && store[a.id] == a
  {
    var rest := pending;
    batch := [];
    while rest != {}
      invariant rest <= pending
      invariant SortedByTimestamp(batch)
      invariant |batch| + |rest| == |pending|
      invariant forall id :: id in pending - rest ==> store[id] in batch
      invariant forall a :: a in batch ==> a.id in pending - rest && store[a.id] == a
    {
      var id :| id in rest;
      batch := InsertByTimestamp(batch, store[id]);
      rest := rest - {id};
    }
  }

  /** A message carrying exactly the actions pending for `entity`, sorted. */
  predicate IsBatchFor(m: Message, from: string, entity: string, s: Stores)
    requires entity in s.tracking.entities
  {
    var pending := s.tracking.entities[entity];
    && m.from == from && m.to == entity && m.payload.ActionsReceivePending?
    && SortedByTimestamp(m.payload.actions)
    && |m.payload.actions| == |pending|
    && (forall id :: id in pending ==> id in s.actions && s.actions[id] in m.payload.actions)
    && (forall a :: a in m.payload.actions ==> a.id in pending && a.id in s.actions && s.actions[a.id] == a)
  }

  /** The message of sendPendingActionsInternal: the peer's pending actions,
      sorted by timestamp. */
  method BatchMessage(s: Stores, from: string, entity: string) returns (m: Message)
    requires Consistent(s) && entity in s.tracking.entities
    ensures IsBatchFor(m, from, entity, s)
  {
    var batch := SortedBatch(s.actions, s.tracking.entities[entity]);
    m := Message(from, entity, ActionsReceivePending(batch));
  }

  /** The processors called for one ingested action: in registration order,
      up to and including the first that throws. */
  function ProcessorCalls(procs: seq<Processor>, a: Action, fails: (Processor, Action) -> bool): seq<(Processor, Action)>
    decreases |procs|
  {
    if procs == [] then []
    else if fails(procs[0], a) then [(procs[0], a)]
    else [(procs[0], a)] + ProcessorCalls(procs[1..], a, fails)
  }

  /** No processor registered for the action's type throws on it. */
  predicate Survives(procs: seq<Processor>, a: Action, fails: (Processor, Action) -> bool) {
    forall i :: 0 <= i < |procs| ==> !fails(procs[i], a)
  }

  /** The processors registered for a type (none when the type is unknown). */
  function ProcessorsFor(processors: map<string, seq<Processor>>, actionType: string): seq<Processor> {
    if actionType in processors then processors[actionType] else []
  }

  /** The acknowledgement list receivePendingActions builds: in batch order,
      the ids of the actions on which no processor threw. */
  function AckedIds(batch: seq<Action>, localId: string, processors: map<string, seq<Processor>>,
                    fails: (Processor, Action) -> bool): (ids: seq<string>)
    ensures |ids| <= |batch|
    ensures forall id :: id in ids ==> exists a :: a in batch && a.id == id
    decreases |batch|
  {
    if batch == [] then []
    else
      var init := AckedIds(batch[..|batch| - 1], localId, processors, fails);
      var last := batch[|batch| - 1];
      assert forall id :: id in init ==> exists a :: a in batch && a.id == id by {
        forall id | id in init ensures exists a :: a in batch && a.id == id {
          var a :| a in batch[..|batch| - 1] && a.id == id;
          assert a in batch;
        }
      }
      if Survives(ProcessorsFor(processors, last.actionType), Restamp(last, localId), fails)
      then init + [last.id] else init
  }

  /** All processor calls made while receiving a batch. */
  function AllProcessorCalls(batch: seq<Action>, localId: string, processors: map<string, seq<Processor>>,
                             fails: (Processor, Action) -> bool): seq<(Processor, Action)>
    decreases |batch|
  {
    if batch == [] then []
    else
      var last := batch[|batch| - 1];
      AllProcessorCalls(batch[..|batch| - 1], localId, processors, fails)
        + ProcessorCalls(ProcessorsFor(processors, last.actionType), Restamp(last, localId), fails)
  }

  lemma IngestAllSnoc(s: Stores, newOwner: string, batch: seq<Action>, a: Action)
    ensures IngestAll(s, newOwner, batch + [a]) == Ingest(IngestAll(s, newOwner, batch), newOwner, a)
  {
    assert (batch + [a])[..|batch|] == batch;
  }

  lemma ReceiveSnoc(batch: seq<Action>, a: Action, localId: string, processors: map<string, seq<Processor>>,
                    fails: (Processor, Action) -> bool)
    ensures AckedIds(batch + [a], localId, processors, fails)
         == AckedIds(batch, localId, processors, fails)
            + (if Survives(ProcessorsFor(processors, a.actionType), Restamp(a, localId), fails) then [a.id] else [])
    ensures AllProcessorCalls(batch + [a], localId, processors, fails)
         == AllProcessorCalls(batch, localId, processors, fails)
            + ProcessorCalls(ProcessorsFor(processors, a.actionType), Restamp(a, localId), fails)
  {
    assert (batch + [a])[..|batch|] == batch;
  }

  /** The peers a sweep sends to: known, connected, with something pending. */
  function SweepTargets(s: Stores, connected: set<string>): set<string> {
    set e | e in s.tracking.entities && e in connected && s.tracking.entities[e] != {}
  }

  /** The peers a list of messages is addressed to. */
  function Recipients(msgs: seq<Message>): set<string> {
    set m | m in msgs :: m.to
  }

  /** Every message is the sorted pending batch of a known peer. */
  predicate AllBatches(msgs: seq<Message>, from: string, s: Stores) {
    forall k :: 0 <= k < |msgs| ==>
      msgs[k].to in s.tracking.entities && IsBatchFor(msgs[k], from, msgs[k].to, s)
  }

  lemma RecipientsSnoc(msgs: seq<Message>, m: Message)
    ensures Recipients(msgs + [m]) == Recipients(msgs) + {m.to}
  {
    assert forall x :: x in msgs + [m] <==> x in msgs || x == m;
  }

  /** No peer is addressed twice. */
  predicate DistinctRecipients(msgs: seq<Message>) {
    forall i, j :: 0 <= i < j < |msgs| ==> msgs[i].to != msgs[j].to
  }

  lemma DistinctRecipientsSnoc(msgs: seq<Message>, m: Message)
    requires DistinctRecipients(msgs) && m.to !in Recipients(msgs)
    ensures DistinctRecipients(msgs + [m])
  {
    forall i, j | 0 <= i < j < |msgs| + 1
      ensures (msgs + [m])[i].to != (msgs + [m])[j].to
    {
      if j == |msgs| {
        assert msgs[i] in msgs;
      }
    }
  }

  /** Messages to distinct peers: one message per recipient. */
  lemma {:induction false} DistinctRecipientsCount(msgs: seq<Message>)
    requires DistinctRecipients(msgs)
    ensures |Recipients(msgs)| == |msgs|
  {
    if msgs != [] {
      var init, last := msgs[..|msgs| - 1], msgs[|msgs| - 1];
      assert msgs == init + [last];
      assert DistinctRecipients(init);
      DistinctRecipientsCount(init);
      RecipientsSnoc(init, last);
    }
  }

  lemma BatchesSnoc(msgs: seq<Message>, m: Message, from: string, s: Stores)
    requires AllBatches(msgs, from, s)
    requires m.to in s.tracking.entities && IsBatchFor(m, from, m.to, s)
    ensures AllBatches(msgs + [m], from, s)
  {
    forall k | 0 <= k < |msgs| + 1
      ensures (msgs + [m])[k].to in s.tracking.entities && IsBatchFor((msgs + [m])[k], from, (msgs + [m])[k].to, s)
    {
      if k < |msgs| { assert (msgs + [m])[k] == msgs[k]; }
    }
  }

  /** The lazily loaded cache over one JSON document of lib/actions.js. */
  class Db<T> {
    /** The document used when the backing file does not exist. */
    const empty: T
    /** The durable copy: `None` while the backing file does not exist. */
    var file: Option<T>
    /** The in-memory copy: `None` until the first load. */
    var cache: Option<T>

    constructor (empty: T, file: Option<T>)
      ensures this.empty == empty && this.file == file && cache == None
    {
      this.empty := empty;
      this.file := file;
      cache := None;
    }

    /** The document a load returns now. */
    function Current(): T
      reads this
    {
      match cache
      case Some(d) => d
      case None => file.GetOr(empty)
    }

    /** loadDb: reads the file (or takes the empty document) on first use
        only; later loads return the cached document. */
    method LoadDb() returns (doc: T)
      modifies this
      ensures doc == old(Current()) && Current() == doc
      ensures cache == Some(doc) && file == old(file)
      ensures old(cache).Some? ==> cache == old(cache)
    {
      if cache.None? {
        cache := Some(file.GetOr(empty));
      }
      doc := cache.value;
    }

    /** An in-place change to the loaded document. */
    method Update(doc: T)
      requires cache.Some?
      modifies this
      ensures cache == Some(doc) && file == old(file)
    {
      cache := Some(doc);
    }

    /** saveDb: writes the cached document back, only if it was loaded. */
    method SaveDb()
      modifies this
      ensures cache == old(cache) && Current() == old(Current())
      ensures file == if cache.Some? then cache else old(file)
    {
      if cache.Some? {
        file := cache;
      }
    }
  }

  /** The loop of addActionInternal over the tracked peers: the action
      becomes pending for every peer except its owner. */
  method MarkPending(entities0: map<string, set<string>>, owner: string, id: string)
    returns (entities: map<string, set<string>>)
    ensures entities.Keys == entities0.Keys
    ensures forall e :: e in entities0 ==>
              entities[e] == if e != owner then entities0[e] + {id} else entities0[e]
  {
    entities := entities0;
    var todo := entities0.Keys;
    while todo != {}
      invariant todo <= entities0.Keys
      invariant entities.Keys == entities0.Keys
      invariant forall e :: e in entities0 && e !in todo ==>
                  entities[e] == if e != owner then entities0[e] + {id} else entities0[e]
      invariant forall e :: e in todo ==> entities[e] == entities0[e]
    {
      var e :| e in todo;
      if e != owner {
        entities := entities[e := entities[e] + {id}];
      }
      todo := todo - {e};
    }
  }

  /** The loop of actionsAcknowledgedInternal over the acknowledgement list:
      each id stops being pending for the peer, and the peer joins the
      acknowledgement set of each stored id. */
  method ApplyAckList(pending0: set<string>, acks0: map<string, set<string>>, stored: set<string>,
                      entity: string, ackList: seq<string>)
    returns (pending: set<string>, acks: map<string, set<string>>)
    requires stored <= acks0.Keys
    ensures pending == pending0 - (set id | id in ackList)
    ensures acks == map id | id in acks0 :: if id in ackList && id in stored then acks0[id] + {entity} else acks0[id]
  {
    pending, acks := pending0, acks0;
    var i := 0;
    while i < |ackList|
      invariant 0 <= i <= |ackList|
      invariant pending == pending0 - (set id | id in ackList[..i])
      invariant acks.Keys == acks0.Keys
      invariant acks == map id | id in acks0 ::
                  if id in ackList[..i] && id in stored then acks0[id] + {entity} else acks0[id]
    {
      var ackId := ackList[i];
      assert ackList[..i + 1] == ackList[..i] + [ackId];
      pending := pending - {ackId};
      if ackId in stored {
        acks := acks[ackId := acks[ackId] + {entity}];
      }
      i := i + 1;
    }
    assert ackList[..i] == ackList;
  }

  /** The ActionHandler mixed into a zone entity. */
  class ActionHandler {
    /** parent.getSessionId(): the local identity. */
    const sessionId: string
    const actionsDb: Db<map<string, Action>>
    const trackingDb: Db<Tracking>
    /** actionProcessors: type -> registered processors, in order. */
    var processors: map<string, seq<Processor>>
    /** The debounce flag of triggerSync. */
    var syncPending: bool
    /** Sweeps queued with process.nextTick and not yet run. */
    var queuedSweeps: nat
    /** Messages handed to parent.sendMessage, in order. */
    var outbox: seq<Message>
    /** Processor calls made, in order. */
    var invoked: seq<(Processor, Action)>

    ghost predicate Valid()
      reads this, actionsDb, trackingDb
    {
      && Consistent(State())
      && queuedSweeps == (if syncPending then 1 else 0)
    }

    /** The documents the stores hold (loaded or not). */
    ghost function State(): Stores
      reads this, actionsDb, trackingDb
    {
      Stores(actionsDb.Current(), trackingDb.Current())
    }

    constructor (sessionId: string, actionsFile: Option<map<string, Action>>, trackingFile: Option<Tracking>)
      requires Consistent(Stores(actionsFile.GetOr(map[]), trackingFile.GetOr(EmptyTracking)))
      ensures Valid() && fresh(actionsDb) && fresh(trackingDb)
      ensures this.sessionId == sessionId
      ensures actionsDb.file == actionsFile && trackingDb.file == trackingFile
      ensures processors == map[] && !syncPending && outbox == [] && invoked == []
    {
      this.sessionId := sessionId;
      actionsDb := new Db(map[], actionsFile);
      trackingDb := new Db(EmptyTracking, trackingFile);
      processors := map[];
      syncPending := false;
      queuedSweeps := 0;
      outbox := [];
      invoked := [];
    }

    /** registerActionProcessor: appends a processor for a type. */
    method RegisterActionProcessor(actionType: string, p: Processor)
      requires Valid()
      modifies this
      ensures Valid()
      ensures processors == old(processors)[actionType := ProcessorsFor(old(processors), actionType) + [p]]
      ensures syncPending == old(syncPending) && queuedSweeps == old(queuedSweeps)
      ensures outbox == old(outbox) && invoked == old(invoked)
    {
      processors := processors[actionType := ProcessorsFor(processors, actionType) + [p]];
    }

    /** triggerSync: queues one broadcast unless one is already queued. */
    method TriggerSync()
      requires Valid()
      modifies this
      ensures Valid() && syncPending && queuedSweeps == 1
      ensures old(syncPending) ==> queuedSweeps == old(queuedSweeps)
      ensures processors == old(processors) && outbox == old(outbox) && invoked == old(invoked)
    {
      if !syncPending {
        syncPending := true;
        queuedSweeps := queuedSweeps + 1;
      }
    }

    /** addActionInternal: restamps and stores the action, marks it pending
        for every known peer except its originator, resets its acknowledgement
        set to the originator, saves both stores and schedules a sweep. */
    method AddActionInternal(newOwner: string, a: Action)
      requires Valid()
      modifies this, actionsDb, trackingDb
      ensures Valid()
      ensures State() == Ingest(old(State()), newOwner, a)
      ensures actionsDb.file == Some(actionsDb.Current())
      ensures trackingDb.file == Some(trackingDb.Current())
      ensures syncPending && queuedSweeps == 1
      ensures processors == old(processors) && outbox == old(outbox) && invoked == old(invoked)
    {
      ghost var s0 := State();
      var store := actionsDb.LoadDb();
      var stored := Restamp(a, newOwner);
      actionsDb.Update(store[a.id := stored]);
      actionsDb.SaveDb();

      var t := trackingDb.LoadDb();
      var entities := MarkPending(t.entities, a.owner, a.id);
      trackingDb.Update(Tracking(entities, t.acks[a.id := {a.owner}]));
      trackingDb.SaveDb();
      assert State() == Ingest(s0, newOwner, a);
      TriggerSync();
    }

    /** addAction: creates a record owned by the local identity, with the
        given (fresh) id and creation time, and ingests it. */
    method AddAction(actionType: string, action: string, payload: Json, id: string, now: int)
      requires Valid()
      modifies this, actionsDb, trackingDb
      ensures Valid()
      ensures var created := Action(id, actionType, action, sessionId, Some(sessionId), payload, now);
              State() == Ingest(old(State()), sessionId, Action(id, actionType, action, sessionId, None, payload, now))
              && State().actions[id] == created
      ensures forall e :: e in State().tracking.entities && e != sessionId ==> id in State().tracking.entities[e]
      ensures State().tracking.acks[id] == {sessionId}
      ensures syncPending && queuedSweeps == 1
      ensures processors == old(processors) && outbox == old(outbox) && invoked == old(invoked)
    {
      var newAction := Action(id, actionType, action, sessionId, None, payload, now);
      AddActionInternal(sessionId, newAction);
    }

    /** sendPendingActionsInternal: seeds an unknown peer with every stored
        action, then sends its pending actions sorted by timestamp, unless
        there are none. */
    method SendPendingActions(entity: string)
      requires Valid()
      modifies this, actionsDb, trackingDb
      ensures Valid()
      ensures State() == Resync(old(State()), entity)
      ensures actionsDb.file == old(actionsDb.file)
      ensures trackingDb.file == if entity in old(State().tracking.entities) then old(trackingDb.file) else Some(trackingDb.Current())
      ensures old(outbox) <= outbox
      ensures State().tracking.entities[entity] == {} ==> outbox == old(outbox)
      ensures State().tracking.entities[entity] != {} ==>
                |outbox| == |old(outbox)| + 1 && IsBatchFor(outbox[|outbox| - 1], sessionId, entity, State())
      ensures processors == old(processors) && invoked == old(invoked)
      ensures syncPending == old(syncPending) && queuedSweeps == old(queuedSweeps)
    {
      ghost var s0 := State();
      var t := trackingDb.LoadDb();
      var store := actionsDb.LoadDb();
      if entity !in t.entities {
        t := t.(entities := t.entities[entity := store.Keys]);
        trackingDb.Update(t);
        trackingDb.SaveDb();
      }
      assert State() == Resync(s0, entity);
      if t.entities[entity] != {} {
        var m := BatchMessage(Stores(store, t), sessionId, entity);
        outbox := outbox + [m];
      }
    }

    /** actionsAcknowledgedInternal: applies an acknowledgement list from a
        peer; a list from an unknown peer changes nothing and saves nothing. */
    method ActionsAcknowledged(entity: string, ackList: seq<string>)
      requires Valid()
      modifies this, actionsDb, trackingDb
      ensures Valid()
      ensures State().actions == old(State().actions)
      ensures State().tracking == Acknowledge(old(State().tracking), old(State().actions.Keys), entity, ackList)
      ensures actionsDb.file == old(actionsDb.file)
      ensures trackingDb.file == if entity in old(State().tracking.entities) then Some(trackingDb.Current()) else old(trackingDb.file)
      ensures processors == old(processors) && outbox == old(outbox) && invoked == old(invoked)
      ensures syncPending == old(syncPending) && queuedSweeps == old(queuedSweeps)
    {
      ghost var s0 := State();
      var t := trackingDb.LoadDb();
      var store := actionsDb.LoadDb();
      if entity in t.entities {
        var pending, acks := ApplyAckList(t.entities[entity], t.acks, store.Keys, entity, ackList);
        trackingDb.Update(Tracking(t.entities[entity := pending], acks));
        trackingDb.SaveDb();
      }
      AcknowledgeConsistent(s0, entity, ackList);
    }

    /** receivePendingActions: ingests each action of the batch in order,
        runs its processors, and acknowledges to the sender, in one message
        sent only when non-empty, the actions on which no processor threw. */
    method ReceivePendingActions(from: string, batch: seq<Action>, fails: (Processor, Action) -> bool)
      returns (acks: seq<string>)
      requires Valid()
      modifies this, actionsDb, trackingDb
      ensures Valid()
      ensures State() == IngestAll(old(State()), sessionId, batch)
      ensures acks == AckedIds(batch, sessionId, processors, fails)
      ensures invoked == old(invoked) + AllProcessorCalls(batch, sessionId, processors, fails)
      ensures acks == [] ==> outbox == old(outbox)
      ensures acks != [] ==> outbox == old(outbox) + [Message(sessionId, from, ActionAck(acks))]
      ensures batch != [] ==> syncPending && queuedSweeps == 1
      ensures batch == [] ==> syncPending == old(syncPending) && queuedSweeps == old(queuedSweeps)
      ensures processors == old(processors)
    {
      acks := [];
      ghost var s0 := State();
      var i := 0;
      while i < |batch|
        invariant 0 <= i <= |batch|
        invariant Valid()
        invariant State() == IngestAll(s0, sessionId, batch[..i])
        invariant acks == AckedIds(batch[..i], sessionId, processors, fails)
        invariant invoked == old(invoked) + AllProcessorCalls(batch[..i], sessionId, processors, fails)
        invariant outbox == old(outbox) && processors == old(processors)
        invariant i > 0 ==> syncPending && queuedSweeps == 1
        invariant i == 0 ==> syncPending == old(syncPending) && queuedSweeps == old(queuedSweeps)
      {
        assert batch[..i + 1] == batch[..i] + [batch[i]];
        acks := ReceiveNext(s0, old(invoked), batch[..i], batch[i], fails, acks);
        i := i + 1;
      }
      assert batch[..i] == batch;
      if acks != [] {
        outbox := outbox + [Message(sessionId, from, ActionAck(acks))];
      }
    }

    /** One iteration of the loop of receivePendingActions, with what the
        loop has done for the actions before it. */
    method ReceiveNext(ghost s0: Stores, ghost invoked0: seq<(Processor, Action)>, ghost prefix: seq<Action>,
                       a: Action, fails: (Processor, Action) -> bool, acks0: seq<string>)
      returns (acks: seq<string>)
      requires Valid()
      requires State() == IngestAll(s0, sessionId, prefix)
      requires acks0 == AckedIds(prefix, sessionId, processors, fails)
      requires invoked == invoked0 + AllProcessorCalls(prefix, sessionId, processors, fails)
      modifies this, actionsDb, trackingDb
      ensures Valid()
      ensures State() == IngestAll(s0, sessionId, prefix + [a])
      ensures acks == AckedIds(prefix + [a], sessionId, processors, fails)
      ensures invoked == invoked0 + AllProcessorCalls(prefix + [a], sessionId, processors, fails)
      ensures syncPending && queuedSweeps == 1
      ensures processors == old(processors) && outbox == old(outbox)
    {
      var ok := ReceiveAction(a, fails);
      IngestAllSnoc(s0, sessionId, prefix, a);
      ReceiveSnoc(prefix, a, sessionId, processors, fails);
      acks := acks0;
      if ok {
        acks := acks + [a.id];
      }
    }

    /** One iteration of receivePendingActions: ingests the action, then
        runs the processors registered for its type; reports whether none
        threw. */
    method ReceiveAction(a: Action, fails: (Processor, Action) -> bool) returns (ok: bool)
      requires Valid()
      modifies this, actionsDb, trackingDb
      ensures Valid()
      ensures State() == Ingest(old(State()), sessionId, a)
      ensures ok == Survives(ProcessorsFor(processors, a.actionType), Restamp(a, sessionId), fails)
      ensures invoked == old(invoked) + ProcessorCalls(ProcessorsFor(processors, a.actionType), Restamp(a, sessionId), fails)
      ensures syncPending && queuedSweeps == 1
      ensures processors == old(processors) && outbox == old(outbox)
    {
      AddActionInternal(sessionId, a);
      ok := RunProcessors(ProcessorsFor(processors, a.actionType), Restamp(a, sessionId), fails);
    }

    /** Calls the processors in order until one throws; reports whether none
        threw. */
    method RunProcessors(procs: seq<Processor>, a: Action, fails: (Processor, Action) -> bool) returns (ok: bool)
      modifies this
      ensures ok == Survives(procs, a, fails)
      ensures invoked == old(invoked) + ProcessorCalls(procs, a, fails)
      ensures processors == old(processors) && outbox == old(outbox)
      ensures syncPending == old(syncPending) && queuedSweeps == old(queuedSweeps)
    {
      var j := 0;
      ok := true;
      while j < |procs| && ok
        invariant 0 <= j <= |procs|
        invariant ok ==> Survives(procs[..j], a, fails)
        invariant ok ==> invoked == old(invoked) + CallsBefore(procs, a, j)
        invariant !ok ==> !Survives(procs, a, fails) && invoked == old(invoked) + ProcessorCalls(procs, a, fails)
        invariant processors == old(processors) && outbox == old(outbox)
        invariant syncPending == old(syncPending) && queuedSweeps == old(queuedSweeps)
      {
        CallsPrefix(procs, a, fails, j);
        invoked := invoked + [(procs[j], a)];
        if fails(procs[j], a) {
          ok := false;
          CallsStopAt(procs, a, fails, j);
        }
        j := j + 1;
      }
      if ok {
        assert procs[..j] == procs;
        CallsAll(procs, a, fails);
      }
    }

    /** broadcastActions: sends every connected known peer with pending
        actions exactly one batch, and leaves the stores as they were. */
    method BroadcastActions(connected: set<string>) returns (ghost sent: seq<Message>)
      requires Valid()
      modifies this, actionsDb, trackingDb
      ensures Valid()
      ensures State() == old(State())
      ensures actionsDb.file == old(actionsDb.file) && trackingDb.file == old(trackingDb.file)
      ensures outbox == old(outbox) + sent
      ensures Recipients(sent) == SweepTargets(State(), connected)
      ensures |sent| == |SweepTargets(State(), connected)|
      ensures AllBatches(sent, sessionId, State())
      ensures processors == old(processors) && invoked == old(invoked)
      ensures syncPending == old(syncPending) && queuedSweeps == old(queuedSweeps)
    {
      var t := trackingDb.LoadDb();
      ghost var s0 := State();
      ghost var o0 := outbox;
      ghost var targets := SweepTargets(s0, connected);
      ghost var reached: set<string> := {};
      sent := [];
      var todo := t.entities.Keys;
      while todo != {}
        invariant todo <= s0.tracking.entities.Keys
        invariant Valid() && State() == s0
        invariant actionsDb.file == old(actionsDb.file) && trackingDb.file == old(trackingDb.file)
        invariant reached == targets - todo
        invariant outbox == o0 + sent
        invariant DistinctRecipients(sent) && Recipients(sent) == reached
        invariant AllBatches(sent, sessionId, s0)
        invariant processors == old(processors) && invoked == old(invoked)
        invariant syncPending == old(syncPending) && queuedSweeps == old(queuedSweeps)
      {
        var e :| e in todo;
        sent := SweepStep(e, connected, s0, o0, sent);
        if e in targets {
          assert e !in reached;
          assert reached + {e} == targets - (todo - {e});
          reached := reached + {e};
        } else {
          assert reached == targets - (todo - {e});
        }
        todo := todo - {e};
      }
      assert reached == targets;
      DistinctRecipientsCount(sent);
    }

    /** One iteration of broadcastActions: a connected peer is sent its
        pending batch, which extends the messages sent so far. */
    method SweepStep(e: string, connected: set<string>, ghost s0: Stores, ghost o0: seq<Message>,
                     ghost sent: seq<Message>) returns (ghost sent': seq<Message>)
      requires Valid() && State() == s0 && e in s0.tracking.entities
      requires outbox == o0 + sent && AllBatches(sent, sessionId, s0)
      requires DistinctRecipients(sent) && e !in Recipients(sent)
      modifies this, actionsDb, trackingDb
      ensures Valid() && State() == s0
      ensures actionsDb.file == old(actionsDb.file) && trackingDb.file == old(trackingDb.file)
      ensures outbox == o0 + sent' && AllBatches(sent', sessionId, s0)
      ensures DistinctRecipients(sent')
      ensures e in SweepTargets(s0, connected) ==>
                |sent'| == |sent| + 1 && Recipients(sent') == Recipients(sent) + {e}
      ensures e !in SweepTargets(s0, connected) ==> sent' == sent
      ensures processors == old(processors) && invoked == old(invoked)
      ensures syncPending == old(syncPending) && queuedSweeps == old(queuedSweeps)
    {
      sent' := sent;
      if e in connected {
        ghost var before := outbox;
        ghost var m := BroadcastTo(e);
        if m.Some? {
          RecipientsSnoc(sent, m.value);
          BatchesSnoc(sent, m.value, sessionId, s0);
          DistinctRecipientsSnoc(sent, m.value);
          sent' := sent + [m.value];
        }
      }
    }

    /** One step of broadcastActions: sendPendingActions to a known peer. */
    method BroadcastTo(e: string) returns (ghost m: Option<Message>)
      requires Valid() && e in State().tracking.entities
      modifies this, actionsDb, trackingDb
      ensures Valid()
      ensures State() == old(State())
      ensures actionsDb.file == old(actionsDb.file) && trackingDb.file == old(trackingDb.file)
      ensures State().tracking.entities[e] == {} ==> m.None? && outbox == old(outbox)
      ensures State().tracking.entities[e] != {} ==>
                m.Some? && outbox == old(outbox) + [m.value] && m.value.to == e
                && IsBatchFor(m.value, sessionId, e, State())
      ensures processors == old(processors) && invoked == old(invoked)
      ensures syncPending == old(syncPending) && queuedSweeps == old(queuedSweeps)
    {
      SendPendingActions(e);
      if State().tracking.entities[e] != {} {
        m := Some(outbox[|outbox| - 1]);
        assert outbox == old(outbox) + [m.value];
      } else {
        m := None;
      }
    }

    /** The queued process.nextTick callback: broadcasts, then clears the
        debounce flag. `sent` is what the broadcast appended to the outbox. */
    method RunQueuedSweep(connected: set<string>) returns (ghost sent: seq<Message>)
      requires Valid()
      modifies this, actionsDb, trackingDb
      ensures Valid() && !syncPending && queuedSweeps == 0
      ensures State() == old(State())
      ensures actionsDb.file == old(actionsDb.file) && trackingDb.file == old(trackingDb.file)
      ensures outbox == old(outbox) + sent
      ensures old(queuedSweeps) == 0 ==> sent == []
      ensures old(queuedSweeps) > 0 ==>
                && Recipients(sent) == SweepTargets(State(), connected)
                && |sent| == |SweepTargets(State(), connected)|
                && AllBatches(sent, sessionId, State())
      ensures processors == old(processors) && invoked == old(invoked)
    {
      sent := [];
      if queuedSweeps > 0 {
        sent := BroadcastActions(connected);
        queuedSweeps := queuedSweeps - 1;
        syncPending := false;
      }
    }
  }

  /** The calls made to the first `j` processors when none of them throws. */
  function CallsBefore(procs: seq<Processor>, a: Action, j: nat): seq<(Processor, Action)>
    requires j <= |procs|
  {
    seq(j, k requires 0 <= k < j => (procs[k], a))
  }

  lemma {:induction false} CallsPrefix(procs: seq<Processor>, a: Action, fails: (Processor, Action) -> bool, j: nat)
    requires j < |procs| && Survives(procs[..j], a, fails)
    ensures CallsBefore(procs, a, j) + [(procs[j], a)] == CallsBefore(procs, a, j + 1)
  {
  }

  lemma {:induction false} CallsStopAt(procs: seq<Processor>, a: Action, fails: (Processor, Action) -> bool, j: nat)
    requires j < |procs| && Survives(procs[..j], a, fails) && fails(procs[j], a)
    ensures ProcessorCalls(procs, a, fails) == CallsBefore(procs, a, j + 1)
    ensures !Survives(procs, a, fails)
    decreases j
  {
    if j > 0 {
      assert procs[1..][..j - 1] == procs[1..j];
      assert !fails(procs[0], a) by { assert procs[0] == procs[..j][0]; }
      assert Survives(procs[1..][..j - 1], a, fails) by {
        forall k | 0 <= k < j - 1 ensures !fails(procs[1..j][k], a) {
          assert procs[1..j][k] == procs[..j][k + 1];
        }
      }
      CallsStopAt(procs[1..], a, fails, j - 1);
    }
  }

  lemma {:induction false} CallsAll(procs: seq<Processor>, a: Action, fails: (Processor, Action) -> bool)
    requires Survives(procs, a, fails)
    ensures ProcessorCalls(procs, a, fails) == CallsBefore(procs, a, |procs|)
    decreases |procs|
  {
    if procs != [] {
      CallsAll(procs[1..], a, fails);
    }
  }
}
