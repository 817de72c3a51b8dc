/**
 * The PMID manager's account store: a map from account (group) name to the account's
 * Metadata and its key/value contents, with the create-or-mutate-then-prune Commit.
 */
module GroupDbModel {
  import opened Wrappers
  import opened PmidTypes

  /** One account: its Metadata record and its key/value contents, in the store's order. */
  datatype Group<M> = Group(metadata: M, entries: seq<Entry>)

  /**
   * What the store knows of the Metadata record: whether GroupStatus() reports kGroupEmpty,
   * and the default record Metadata(group_name) a new account starts with.
   */
  datatype MetadataOps<!M> = MetadataOps(isGroupEmpty: M -> bool, newMetadata: Name -> M)

  type GroupMap<M> = map<Name, Group<M>>

  /** Every entry is filed under the account its key names. */
  ghost predicate Filed<M>(groups: GroupMap<M>)
  {
    forall g, e :: g in groups && e in groups[g].entries ==> e.key.groupName == g
  }

  /** No two entries share a key: the contents are keyed by EntryKey. */
  predicate UniqueKeys(entries: seq<Entry>)
  {
    forall i, j :: 0 <= i < j < |entries| ==> entries[i].key != entries[j].key
  }

  /** Every account holds at most one entry per key. */
  ghost predicate Unique<M>(groups: GroupMap<M>)
  {
    forall g :: g in groups ==> UniqueKeys(groups[g].entries)
  }

  /** The accounts after one Commit(groupName, mutation). */
  function Committed<M>(groups: GroupMap<M>, groupName: Name, mutation: M -> M, ops: MetadataOps<M>): (r: GroupMap<M>)
    // an existing account survives exactly when the mutated metadata is not empty
    ensures groupName in groups ==>
              (groupName in r <==> !ops.isGroupEmpty(mutation(groups[groupName].metadata)))
    // a surviving account holds the mutated metadata and the same entries
    ensures groupName in groups && groupName in r ==>
              r[groupName] == Group(mutation(groups[groupName].metadata), groups[groupName].entries)
    // an unknown account is created with default metadata, even an empty one; the mutation is dropped
    ensures groupName !in groups ==>
              groupName in r && r[groupName] == Group(ops.newMetadata(groupName), [])
    // no other account appears, disappears or changes
    ensures forall h :: h != groupName ==> (h in r <==> h in groups)
    ensures forall h :: h != groupName && h in groups ==> r[h] == groups[h]
  {
    if groupName in groups then
      var updated := groups[groupName].(metadata := mutation(groups[groupName].metadata));
      if ops.isGroupEmpty(updated.metadata) then groups - {groupName} else groups[groupName := updated]
    else
      groups[groupName := Group(ops.newMetadata(groupName), [])]
  }

  lemma CommitKeepsFiled<M>(groups: GroupMap<M>, groupName: Name, mutation: M -> M, ops: MetadataOps<M>)
    requires Filed(groups)
    ensures Filed(Committed(groups, groupName, mutation, ops))
  {
  }

  /** On an unknown account the mutation does not matter: Commit only creates the account. */
  lemma CreateIgnoresMutation<M>(groups: GroupMap<M>, groupName: Name, f: M -> M, f': M -> M, ops: MetadataOps<M>)
    requires groupName !in groups
    ensures Committed(groups, groupName, f, ops) == Committed(groups, groupName, f', ops)
  {
  }

  /** One call of Commit, as a value. */
  datatype CommitCall<!M> = CommitCall(groupName: Name, mutation: M -> M)

  /** The accounts after a series of Commits, in order. */
  function CommitAll<M>(groups: GroupMap<M>, calls: seq<CommitCall<M>>, ops: MetadataOps<M>): GroupMap<M>
    decreases |calls|
  {
    if calls == [] then groups
    else CommitAll(Committed(groups, calls[0].groupName, calls[0].mutation, ops), calls[1..], ops)
  }

  /** Every series of Commits keeps entries filed under their own account. */
  lemma {:induction false} CommitAllKeepsFiled<M>(groups: GroupMap<M>, calls: seq<CommitCall<M>>, ops: MetadataOps<M>)
    requires Filed(groups)
    ensures Filed(CommitAll(groups, calls, ops))
    decreases |calls|
  {
    if calls != [] {
      CommitKeepsFiled(groups, calls[0].groupName, calls[0].mutation, ops);
      CommitAllKeepsFiled(Committed(groups, calls[0].groupName, calls[0].mutation, ops), calls[1..], ops);
    }
  }

  /** An account no Commit of the series names is exactly as it was (present or absent). */
  lemma {:induction false} CommitAllUntouched<M>(groups: GroupMap<M>, calls: seq<CommitCall<M>>, ops: MetadataOps<M>, h: Name)
    requires forall i :: 0 <= i < |calls| ==> calls[i].groupName != h
    ensures h in CommitAll(groups, calls, ops) <==> h in groups
    ensures h in groups ==> CommitAll(groups, calls, ops)[h] == groups[h]
    decreases |calls|
  {
    if calls != [] {
      CommitAllUntouched(Committed(groups, calls[0].groupName, calls[0].mutation, ops), calls[1..], ops, h);
    }
  }

  /**
   * Once a Commit empties an account, it stays absent (so GetContents fails with
   * NoSuchAccount) until a later Commit names it again.
   */
  lemma PrunedStaysAbsent<M>(groups: GroupMap<M>, groupName: Name, mutation: M -> M,
                             later: seq<CommitCall<M>>, ops: MetadataOps<M>)
    requires groupName in groups && ops.isGroupEmpty(mutation(groups[groupName].metadata))
    requires forall i :: 0 <= i < |later| ==> later[i].groupName != groupName
    ensures groupName !in CommitAll(groups, [CommitCall(groupName, mutation)] + later, ops)
  {
    var calls := [CommitCall(groupName, mutation)] + later;
    assert calls[0] == CommitCall(groupName, mutation) && calls[1..] == later;
    CommitAllUntouched(Committed(groups, groupName, mutation, ops), later, ops, groupName);
  }

  /**
   * The first Commit on an unknown account creates it with default metadata; only the second
   * Commit's mutation reaches the record, and that Commit may prune the account.
   */
  lemma CreateThenMutate<M>(groups: GroupMap<M>, groupName: Name, first: M -> M, second: M -> M, ops: MetadataOps<M>)
    requires groupName !in groups
    ensures var r := CommitAll(groups, [CommitCall(groupName, first), CommitCall(groupName, second)], ops);
            && (groupName in r <==> !ops.isGroupEmpty(second(ops.newMetadata(groupName))))
            && (groupName in r ==> r[groupName] == Group(second(ops.newMetadata(groupName)), []))
  {
    var calls := [CommitCall(groupName, first), CommitCall(groupName, second)];
    var once := Committed(groups, groupName, first, ops);
    var twice := Committed(once, groupName, second, ops);
    assert calls[1..][1..] == [];
    assert CommitAll(groups, calls, ops) == CommitAll(once, calls[1..], ops);
    assert CommitAll(once, calls[1..], ops) == CommitAll(twice, [], ops);
  }

  /**
   * A key-level action: the mutation of the account's metadata, and what becomes of the
   * key's entry (Some(v): v is stored under the key; None: the key's entry is removed).
   */
  datatype KeyAction<!M> = KeyAction(mutate: M -> M, value: Option<Bytes>)

  /** The entries without any entry for key. */
  function Without(entries: seq<Entry>, key: EntryKey): (r: seq<Entry>)
    ensures forall e :: e in r <==> e in entries && e.key != key
    ensures UniqueKeys(entries) ==> UniqueKeys(r)
  {
    if entries == [] then []
    else if entries[0].key == key then Without(entries[1..], key)
    else [entries[0]] + Without(entries[1..], key)
  }

  /** The entries after the key's entry is set to value, or removed when value is None. */
  function Stored(entries: seq<Entry>, key: EntryKey, value: Option<Bytes>): (r: seq<Entry>)
    ensures forall e :: e in r <==>
              (e in entries && e.key != key) || (value.Some? && e == Entry(key, value.value))
    ensures UniqueKeys(entries) ==> UniqueKeys(r)
  {
    match value
    case Some(v) => Without(entries, key) + [Entry(key, v)]
    case None => Without(entries, key)
  }

  /** The account a key-level Commit works on: the existing one, or a new default one. */
  function FoundOrCreated<M>(groups: GroupMap<M>, groupName: Name, ops: MetadataOps<M>): Group<M>
  {
    if groupName in groups then groups[groupName] else Group(ops.newMetadata(groupName), [])
  }

  /** The accounts after one key-level Commit(key, action). */
  function CommittedKey<M>(groups: GroupMap<M>, key: EntryKey, action: KeyAction<M>, ops: MetadataOps<M>): (r: GroupMap<M>)
    // the key's account survives exactly when its mutated metadata is not empty
    ensures key.groupName in r <==>
              !ops.isGroupEmpty(action.mutate(FoundOrCreated(groups, key.groupName, ops).metadata))
    // a surviving account holds the mutated metadata
    ensures key.groupName in r ==>
              r[key.groupName].metadata == action.mutate(FoundOrCreated(groups, key.groupName, ops).metadata)
    // its entries are the old ones, minus the key's, plus the stored value if any
    ensures key.groupName in r ==>
              forall e :: e in r[key.groupName].entries <==>
                (e in FoundOrCreated(groups, key.groupName, ops).entries && e.key != key)
                || (action.value.Some? && e == Entry(key, action.value.value))
    // and it still holds at most one entry per key
    ensures key.groupName in r && UniqueKeys(FoundOrCreated(groups, key.groupName, ops).entries) ==>
              UniqueKeys(r[key.groupName].entries)
    // no other account appears, disappears or changes
    ensures forall h :: h != key.groupName ==> (h in r <==> h in groups)
    ensures forall h :: h != key.groupName && h in groups ==> r[h] == groups[h]
  {
    var before := FoundOrCreated(groups, key.groupName, ops);
    var after := Group(action.mutate(before.metadata), Stored(before.entries, key, action.value));
    if ops.isGroupEmpty(after.metadata) then groups - {key.groupName} else groups[key.groupName := after]
  }

  /** A key-level Commit files the stored entry under the key's own account. */
  lemma CommitKeyKeepsFiled<M>(groups: GroupMap<M>, key: EntryKey, action: KeyAction<M>, ops: MetadataOps<M>)
    requires Filed(groups)
    ensures Filed(CommittedKey(groups, key, action, ops))
  {
  }

  /** A key-level Commit keeps every account at most one entry per key. */
  lemma CommitKeyKeepsUnique<M>(groups: GroupMap<M>, key: EntryKey, action: KeyAction<M>, ops: MetadataOps<M>)
    requires Unique(groups)
    ensures Unique(CommittedKey(groups, key, action, ops))
  {
  }

  /**
   * After a key-level Commit that stores v, the surviving account holds exactly one entry
   * for the key, and that entry carries v.
   */
  lemma CommitKeyStores<M>(groups: GroupMap<M>, key: EntryKey, v: Bytes, mutate: M -> M, ops: MetadataOps<M>)
    requires !ops.isGroupEmpty(mutate(FoundOrCreated(groups, key.groupName, ops).metadata))
    ensures var r := CommittedKey(groups, key, KeyAction(mutate, Some(v)), ops);
            key.groupName in r
            && exists i :: 0 <= i < |r[key.groupName].entries| && r[key.groupName].entries[i] == Entry(key, v)
                 && forall j :: 0 <= j < |r[key.groupName].entries| && r[key.groupName].entries[j].key == key ==> j == i
  {
    var r := CommittedKey(groups, key, KeyAction(mutate, Some(v)), ops);
    var rest := Without(FoundOrCreated(groups, key.groupName, ops).entries, key);
    var es := r[key.groupName].entries;
    assert es == rest + [Entry(key, v)];
    assert es[|rest|] == Entry(key, v);
  }

  /** After a key-level Commit that removes the key, no entry for it is left. */
  lemma CommitKeyRemoves<M>(groups: GroupMap<M>, key: EntryKey, mutate: M -> M, ops: MetadataOps<M>)
    ensures var r := CommittedKey(groups, key, KeyAction(mutate, None), ops);
            key.groupName in r ==> forall e :: e in r[key.groupName].entries ==> e.key != key
  {
  }

  /** GroupDb<PmidManager>: the account map, updated in place under Commit. */
  class GroupDb<M> {
    const ops: MetadataOps<M>
    var groups: GroupMap<M>

    ghost predicate Valid()
      reads this
    {
      Filed(groups) && Unique(groups)
    }

    constructor (ops: MetadataOps<M>)
      ensures Valid()
      ensures this.ops == ops && groups == map[]
    {
      this.ops := ops;
      groups := map[];
    }

    /**
     * Applies functor to an existing account's metadata and then prunes the account if it
     * became empty; for an unknown account, creates it with default metadata instead.
     * The functor is a total function, so it always exists.
     */
    method Commit(groupName: Name, functor: M -> M)
      requires Valid()
      modifies this
      ensures Valid()
      ensures groups == Committed(old(groups), groupName, functor, ops)
    {
      CommitKeepsFiled(groups, groupName, functor, ops);
      if groupName in groups {
        // FindGroup found the account: mutate its metadata in place, then UpdateGroup
        var group := groups[groupName];
        groups := groups[groupName := group.(metadata := functor(group.metadata))];
        UpdateGroup(groupName);
      } else {
        // FindGroup threw: AddGroupToMap with Metadata(group_name), functor not applied
        groups := groups[groupName := Group(ops.newMetadata(groupName), [])];
      }
    }

    /**
     * The key/action overload: finds the key's account or creates it with default metadata,
     * applies the action to the metadata and to the key's entry, then prunes the account if
     * its metadata reports empty.
     */
    method CommitKey(key: EntryKey, action: KeyAction<M>)
      requires Valid()
      modifies this
      ensures Valid()
      ensures groups == CommittedKey(old(groups), key, action, ops)
    {
      CommitKeyKeepsFiled(groups, key, action, ops);
      CommitKeyKeepsUnique(groups, key, action, ops);
      ghost var before := groups;
      var group: Group<M>;
      if key.groupName in groups {
        group := groups[key.groupName];
      } else {
        group := Group(ops.newMetadata(key.groupName), []);
      }
      group := Group(action.mutate(group.metadata), Stored(group.entries, key, action.value));
      groups := groups[key.groupName := group];
      UpdateGroup(key.groupName);
      assert groups == CommittedKey(before, key, action, ops);
    }

    /** Deletes the account and its entries if its metadata reports empty. */
    method UpdateGroup(groupName: Name)
      requires groupName in groups
      modifies this
      ensures ops.isGroupEmpty(old(groups)[groupName].metadata) ==> groups == old(groups) - {groupName}
      ensures !ops.isGroupEmpty(old(groups)[groupName].metadata) ==> groups == old(groups)
    {
      if ops.isGroupEmpty(groups[groupName].metadata) {
        groups := groups - {groupName};
      }
    }

    /** The account's key/value contents, or NoSuchAccount. */
    method GetContents(groupName: Name) returns (r: Result<seq<Entry>, ErrorCode>)
      requires Valid()
      ensures r.Success? <==> groupName in groups
      ensures r.Success? ==> r.value == groups[groupName].entries
      ensures r.Success? ==> forall e :: e in r.value ==> e.key.groupName == groupName
      ensures r.Success? ==> UniqueKeys(r.value)
      ensures r.Failure? ==> r.error == NoSuchAccount
    {
      if groupName in groups {
        r := Success(groups[groupName].entries);
      } else {
        r := Failure(NoSuchAccount);
      }
    }
  }
}
