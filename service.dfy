/**
 * PmidManagerService: routes peers' Synchronise messages to the matching Sync instance,
 * commits resolved actions to the account store, re-broadcasts pending actions, and answers
 * account and health requests. The Dispatcher is an append-only outbox of messages.
 */
module PmidManagerServiceModel {
  import opened Wrappers
  import opened PmidTypes
  import opened GroupDbModel
  import opened SyncModel

  /** The action-type tag of a Synchronise message (nfs::MessageAction). */
  datatype ActionType = ActionPut | ActionDelete | ActionSetAvailableSize | OtherAction(raw: int)

  /** A parsed protobuf::Sync: the tag and the serialised unresolved action. */
  datatype SyncMessage = SyncMessage(actionType: ActionType, serialisedAction: Bytes)

  /** The three Sync instances. */
  datatype SyncKind = Puts | Deletes | SetAvailableSizes

  /** The metadata a health response carries: the PMID node and its available size. */
  datatype HealthReport = HealthReport(pmidName: Name, availableSize: Int64)

  /** A message handed to the Dispatcher. */
  datatype Outgoing =
    | PutResponse(dataName: DataName, pmidNode: Name, size: Int32, messageId: Int32)
    | PmidAccount(pmidNode: Name, dataNames: seq<DataName>, code: ErrorCode)
    | HealthResponse(maidNode: Name, pmidNode: Name, report: HealthReport, messageId: Int32, code: ErrorCode)
    | SyncBroadcast(kind: SyncKind, localActions: nat)

  /** Why a handler did not complete: an error was thrown, or an assert fired. */
  datatype Fault = Thrown(code: ErrorCode) | AssertionFailed

  /** The available size the health response currently reports for every node. */
  const DummyAvailableSize: Int64 := 100000000

  function DataNameOf(e: Entry): DataName
  {
    DataName(e.key.dataType, e.key.name)
  }

  /** The data names of an account's contents, in the same order. */
  function DataNames(entries: seq<Entry>): (names: seq<DataName>)
    ensures |names| == |entries|
    ensures forall k :: 0 <= k < |entries| ==> names[k] == DataNameOf(entries[k])
  {
    if entries == [] then [] else [DataNameOf(entries[0])] + DataNames(entries[1..])
  }

  /** After a committed put, the account dump lists the put's data name. */
  lemma PutIsListed<M>(groups: GroupMap<M>, key: EntryKey, action: KeyAction<M>, ops: MetadataOps<M>)
    requires action.value.Some?
    requires key.groupName in CommittedKey(groups, key, action, ops)
    ensures DataName(key.dataType, key.name) in DataNames(CommittedKey(groups, key, action, ops)[key.groupName].entries)
  {
  }

  /**
   * After a committed delete, the account dump no longer lists the key's data name: every
   * entry of the account is filed under it, so an entry with that type and name has that key.
   */
  lemma DeletedIsNotListed<M>(groups: GroupMap<M>, key: EntryKey, mutate: M -> M, ops: MetadataOps<M>)
    requires Filed(groups)
    requires key.groupName in CommittedKey(groups, key, KeyAction(mutate, None), ops)
    ensures DataName(key.dataType, key.name) !in
              DataNames(CommittedKey(groups, key, KeyAction(mutate, None), ops)[key.groupName].entries)
  {
  }

  /**
   * In a store whose entries are filed under their account and keyed uniquely, an account
   * dump lists each data name at most once.
   */
  lemma DumpListsEachNameOnce<M>(groups: GroupMap<M>, groupName: Name)
    requires Filed(groups) && Unique(groups) && groupName in groups
    ensures var names := DataNames(groups[groupName].entries);
            forall i, j :: 0 <= i < j < |names| ==> names[i] != names[j]
  {
    var es := groups[groupName].entries;
    forall i, j | 0 <= i < j < |es|
      ensures DataNameOf(es[i]) != DataNameOf(es[j])
    {
      assert es[i] in es && es[j] in es;
    }
  }

  /** The put response for a resolved put: its data name, account, size and message id. */
  function PutResponseFor(synced: Resolved<PutAction>): Outgoing
  {
    PutResponse(DataName(synced.key.dataType, synced.key.name), synced.key.groupName,
                synced.action.size, synced.action.messageId)
  }

  /**
   * What one DoSync hands to the Dispatcher: the put, delete and set-available-size instances,
   * in that order, each with the number of local proposals it holds.
   */
  function SyncRound(puts: nat, deletes: nat, sizes: nat): seq<Outgoing>
  {
    [SyncBroadcast(Puts, puts), SyncBroadcast(Deletes, deletes), SyncBroadcast(SetAvailableSizes, sizes)]
  }

  class PmidManagerService<M> {
    /** routing_.kNodeId() */
    const thisNode: NodeId
    /** protobuf::Sync::ParseFromString */
    const parseSync: Bytes -> Option<SyncMessage>
    /** The metadata mutations a resolved put or delete commits, and the value a put stores. */
    const putMutation: PutAction -> (M -> M)
    const putValue: PutAction -> Bytes
    const deleteMutation: DeleteAction -> (M -> M)

    const groupDb: GroupDb<M>
    const syncPuts: Sync<PutAction>
    const syncDeletes: Sync<DeleteAction>
    const syncSetAvailableSizes: Sync<SetAvailableSizeAction>
    /** Everything sent through the Dispatcher, oldest first. */
    var outbox: seq<Outgoing>

    ghost predicate Valid()
      reads this, groupDb
    {
      groupDb.Valid()
    }

    /** The key-level action of a resolved put: mutate the metadata, store the put's value. */
    function PutCommit(action: PutAction): KeyAction<M>
    {
      KeyAction(putMutation(action), Some(putValue(action)))
    }

    /** The key-level action of a resolved delete: mutate the metadata, remove the entry. */
    function DeleteCommit(action: DeleteAction): KeyAction<M>
    {
      KeyAction(deleteMutation(action), None)
    }

    constructor (thisNode: NodeId, parseSync: Bytes -> Option<SyncMessage>,
                 putMutation: PutAction -> (M -> M), putValue: PutAction -> Bytes,
                 deleteMutation: DeleteAction -> (M -> M), ops: MetadataOps<M>)
      ensures Valid()
      ensures this.thisNode == thisNode && this.parseSync == parseSync
      ensures this.putMutation == putMutation && this.putValue == putValue
      ensures this.deleteMutation == deleteMutation
      ensures fresh(groupDb) && groupDb.ops == ops && groupDb.groups == map[]
      ensures fresh(syncPuts) && syncPuts.received == [] && syncPuts.local == [] && syncPuts.attempts == 0
      ensures fresh(syncDeletes) && syncDeletes.received == [] && syncDeletes.local == [] && syncDeletes.attempts == 0
      ensures fresh(syncSetAvailableSizes) && syncSetAvailableSizes.received == []
      ensures syncSetAvailableSizes.local == [] && syncSetAvailableSizes.attempts == 0
      ensures outbox == []
    {
      this.thisNode := thisNode;
      this.parseSync := parseSync;
      this.putMutation := putMutation;
      this.putValue := putValue;
      this.deleteMutation := deleteMutation;
      groupDb := new GroupDb(ops);
      syncPuts := new Sync();
      syncDeletes := new Sync();
      syncSetAvailableSizes := new Sync();
      outbox := [];
    }

    /** Commits a resolved put under its key, then sends exactly one put response. */
    method HandleSyncedPut(synced: Resolved<PutAction>)
      requires Valid()
      modifies this, groupDb
      ensures Valid()
      ensures groupDb.groups == CommittedKey(old(groupDb.groups), synced.key, PutCommit(synced.action), groupDb.ops)
      ensures outbox == old(outbox) + [PutResponseFor(synced)]
    {
      groupDb.CommitKey(synced.key, PutCommit(synced.action));
      outbox := outbox + [PutResponseFor(synced)];
    }

    /** Commits a resolved delete under its key; nothing is sent. */
    method HandleSyncedDelete(synced: Resolved<DeleteAction>)
      requires Valid()
      modifies groupDb
      ensures Valid()
      ensures groupDb.groups == CommittedKey(old(groupDb.groups), synced.key, DeleteCommit(synced.action), groupDb.ops)
    {
      groupDb.CommitKey(synced.key, DeleteCommit(synced.action));
    }

    /**
     * detail::IncrementAttemptsAndSendSync(dispatcher_, sync) for one instance: one more round,
     * and one broadcast of that instance carrying its local proposals.
     */
    method IncrementAttemptsAndSendSync<A>(kind: SyncKind, sync: Sync<A>)
      requires (kind == Puts) == (sync as object == syncPuts as object)
      requires (kind == Deletes) == (sync as object == syncDeletes as object)
      requires (kind == SetAvailableSizes) == (sync as object == syncSetAvailableSizes as object)
      modifies this, sync
      ensures sync.attempts == old(sync.attempts) + 1
      ensures sync.received == old(sync.received) && sync.local == old(sync.local)
      ensures outbox == old(outbox) + [SyncBroadcast(kind, |sync.local|)]
    {
      sync.IncrementAttempts();
      outbox := outbox + [SyncBroadcast(kind, |sync.local|)];
    }

    /** Re-broadcasts each Sync instance once: puts, deletes, set-available-sizes. */
    method DoSync()
      requires Valid()
      modifies this, syncPuts, syncDeletes, syncSetAvailableSizes
      ensures Valid()
      ensures outbox == old(outbox) + SyncRound(|syncPuts.local|, |syncDeletes.local|, |syncSetAvailableSizes.local|)
      ensures syncPuts.attempts == old(syncPuts.attempts) + 1
      ensures syncDeletes.attempts == old(syncDeletes.attempts) + 1
      ensures syncSetAvailableSizes.attempts == old(syncSetAvailableSizes.attempts) + 1
      ensures syncPuts.received == old(syncPuts.received) && syncPuts.local == old(syncPuts.local)
      ensures syncDeletes.received == old(syncDeletes.received) && syncDeletes.local == old(syncDeletes.local)
      ensures syncSetAvailableSizes.received == old(syncSetAvailableSizes.received)
      ensures syncSetAvailableSizes.local == old(syncSetAvailableSizes.local)
    {
      IncrementAttemptsAndSendSync(Puts, syncPuts);
      IncrementAttemptsAndSendSync(Deletes, syncDeletes);
      IncrementAttemptsAndSendSync(SetAvailableSizes, syncSetAvailableSizes);
    }

    /**
     * HandleMessage<SynchroniseFromPmidManagerToPmidManager>. A put tag feeds only the put
     * instance and a delete tag only the delete instance; the store changes only when that
     * instance answers with a resolved action (putVerdict / deleteVerdict). An unparsable
     * payload throws parsing_error and any other tag hits assert(false); both change nothing.
     */
    method HandleSynchronise(contents: Bytes, sender: NodeId,
                             putVerdict: Option<Resolved<PutAction>>,
                             deleteVerdict: Option<Resolved<DeleteAction>>) returns (outcome: Outcome<Fault>)
      requires Valid()
      modifies this, groupDb, syncPuts, syncDeletes
      ensures Valid()
      ensures var p := parseSync(contents);
              outcome == if p.None? then Fail(Thrown(ParsingError))
                         else if p.value.actionType.ActionPut? || p.value.actionType.ActionDelete? then Pass
                         else Fail(AssertionFailed)
      ensures var p := parseSync(contents);
              syncPuts.received ==
                if p.Some? && p.value.actionType.ActionPut?
                then old(syncPuts.received) + [Received(p.value.serialisedAction, sender, thisNode)]
                else old(syncPuts.received)
      ensures var p := parseSync(contents);
              syncDeletes.received ==
                if p.Some? && p.value.actionType.ActionDelete?
                then old(syncDeletes.received) + [Received(p.value.serialisedAction, sender, thisNode)]
                else old(syncDeletes.received)
      ensures syncPuts.local == old(syncPuts.local) && syncPuts.attempts == old(syncPuts.attempts)
      ensures syncDeletes.local == old(syncDeletes.local) && syncDeletes.attempts == old(syncDeletes.attempts)
      ensures var p := parseSync(contents);
              if p.Some? && p.value.actionType.ActionPut? && putVerdict.Some? then
                && groupDb.groups == CommittedKey(old(groupDb.groups), putVerdict.value.key,
                                                  PutCommit(putVerdict.value.action), groupDb.ops)
                && outbox == old(outbox) + [PutResponseFor(putVerdict.value)]
              else if p.Some? && p.value.actionType.ActionDelete? && deleteVerdict.Some? then
                && groupDb.groups == CommittedKey(old(groupDb.groups), deleteVerdict.value.key,
                                                  DeleteCommit(deleteVerdict.value.action), groupDb.ops)
                && outbox == old(outbox)
              else
                groupDb.groups == old(groupDb.groups) && outbox == old(outbox)
    {
      var parsed := parseSync(contents);
      if parsed.None? {
        return Fail(Thrown(ParsingError));
      }
      var proto := parsed.value;
      match proto.actionType {
        case ActionPut =>
          var unresolved := Received(proto.serialisedAction, sender, thisNode);
          var resolved := syncPuts.AddUnresolvedAction(unresolved, putVerdict);
          if resolved.Some? {
            HandleSyncedPut(resolved.value);
          }
          outcome := Pass;
        case ActionDelete =>
          var unresolved := Received(proto.serialisedAction, sender, thisNode);
          var resolved := syncDeletes.AddUnresolvedAction(unresolved, deleteVerdict);
          if resolved.Some? {
            HandleSyncedDelete(resolved.value);
          }
          outcome := Pass;
        case _ =>
          outcome := Fail(AssertionFailed);
      }
    }

    /**
     * Sends the account's data names, in the order of its contents, with status success; then
     * proposes the reported available size locally and runs DoSync, so that round's
     * set-available-size broadcast already carries the new proposal. For an unknown account it
     * sends an empty list with status no_such_account and proposes nothing.
     */
    method HandleSendPmidAccount(pmidNode: Name, availableSize: Int64)
      requires Valid()
      modifies this, syncPuts, syncDeletes, syncSetAvailableSizes
      ensures Valid()
      ensures pmidNode in groupDb.groups ==>
                && outbox == old(outbox) + [PmidAccount(pmidNode, DataNames(groupDb.groups[pmidNode].entries), Ok)]
                                         + SyncRound(|old(syncPuts.local)|, |old(syncDeletes.local)|,
                                                     |old(syncSetAvailableSizes.local)| + 1)
                && syncSetAvailableSizes.local ==
                     old(syncSetAvailableSizes.local) + [LocalAction(pmidNode, SetAvailableSizeAction(availableSize), thisNode)]
                && syncPuts.attempts == old(syncPuts.attempts) + 1
                && syncDeletes.attempts == old(syncDeletes.attempts) + 1
                && syncSetAvailableSizes.attempts == old(syncSetAvailableSizes.attempts) + 1
      ensures pmidNode !in groupDb.groups ==>
                && outbox == old(outbox) + [PmidAccount(pmidNode, [], NoSuchAccount)]
                && syncSetAvailableSizes.local == old(syncSetAvailableSizes.local)
                && syncPuts.attempts == old(syncPuts.attempts)
                && syncDeletes.attempts == old(syncDeletes.attempts)
                && syncSetAvailableSizes.attempts == old(syncSetAvailableSizes.attempts)
      ensures syncPuts.received == old(syncPuts.received) && syncPuts.local == old(syncPuts.local)
      ensures syncDeletes.received == old(syncDeletes.received) && syncDeletes.local == old(syncDeletes.local)
      ensures syncSetAvailableSizes.received == old(syncSetAvailableSizes.received)
    {
      var dataNames: seq<DataName> := [];
      var contents := groupDb.GetContents(pmidNode);
      match contents {
        case Success(entries) =>
          var i := 0;
          while i < |entries|
            invariant 0 <= i <= |entries|
            invariant |dataNames| == i
            invariant forall k :: 0 <= k < i ==> dataNames[k] == DataNameOf(entries[k])
          {
            dataNames := dataNames + [DataNameOf(entries[i])];
            i := i + 1;
          }
          assert dataNames == DataNames(entries);
          outbox := outbox + [PmidAccount(pmidNode, dataNames, Ok)];
          syncSetAvailableSizes.AddLocalAction(LocalAction(pmidNode, SetAvailableSizeAction(availableSize), thisNode));
          DoSync();
        case Failure(_) =>
          outbox := outbox + [PmidAccount(pmidNode, dataNames, NoSuchAccount)];
      }
    }

    /** Replies with a dummy metadata for the node, available size 100000000, status success. */
    method HandleHealthRequest(pmidNode: Name, maidNode: Name, messageId: Int32)
      modifies this
      ensures outbox == old(outbox) + [HealthResponse(maidNode, pmidNode, HealthReport(pmidNode, DummyAvailableSize),
                                                      messageId, Ok)]
    {
      var dummy := HealthReport(pmidNode, DummyAvailableSize);
      outbox := outbox + [HealthResponse(maidNode, pmidNode, dummy, messageId, Ok)];
    }
  }
}
