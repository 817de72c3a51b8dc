# PMID manager account layer — Dafny model

This project models two parts of the PMID-manager persona of a MaidSafe vault.

- **GroupDb** is the account store. It maps an account (group) name to the account's Metadata
  record and its key/value contents. Its `Commit` handles accounts in three ways:
  - it mutates an existing account's metadata, then deletes the account if the metadata now
    reports `kGroupEmpty`;
  - for an unknown account, it creates the account with the default `Metadata(group_name)`
    and does not apply the mutation;
  - an account it has just created is never pruned in that same call.

  The service commits resolved puts and deletes through a second, key-level `Commit`, which
  is declared outside the modelled files. The model stands in for it with `CommitKey`: it
  finds or creates the key's account and applies the action to the metadata and to the key's
  entry (a put stores a value under the key, a delete removes the key's entry), then prunes
  the account if it is now empty. These behaviours are assumptions of the model; the
  `HandleSyncedPut:` and `HandleSyncedDelete:` lines under "## Left out" list them.

  The store keeps two invariants: every entry is filed under the account its key names, and
  no account holds two entries with the same key.
- **PmidManagerService** holds the store, three Sync instances (puts, deletes,
  set-available-sizes) and the Dispatcher, modelled here as an append-only outbox. Its
  handlers do four things:
  - commit resolved puts and deletes;
  - route peers' Synchronise messages by action tag;
  - re-broadcast the Sync instances;
  - answer account-dump and health requests.

The Metadata record is abstract. The store is generic in its type `M`. A `MetadataOps<M>`
value supplies the two things the store uses: whether `GroupStatus()` reports
`kGroupEmpty`, and the default record for a new account. A mutation is a total function
`M -> M`, so the functor that `Commit` asserts is present always exists.

The Sync instances' quorum logic is not modelled. Each instance records the actions it was
given and counts its re-broadcast rounds. What its `AddUnresolvedAction` answers comes in
as a parameter of the handler (`putVerdict`, `deleteVerdict`), so the model covers every
resolution behaviour. The protobuf parse of a Synchronise payload is the service's
`parseSync` function, and `routing_.kNodeId()` is the constant `thisNode`.

Files: `wrappers.dfy` (Option/Result/Outcome), `types.dfy` (keys, entries, actions, error
codes, 32- and 64-bit integer ranges), `group_db.dfy` (the store), `sync.dfy` (the Sync
instances), `service.dfy` (the service).

The group-level `Commit` is modelled as written, including two behaviours that the comments
at group_db.cc:28-32 leave open:
- A newly created account is kept even if its default metadata would report empty and it has
  no entries (third `ensures` of `Committed`).
- The mutation is dropped on the create path (`CreateIgnoresMutation`, `CreateThenMutate`).

## Model

| member | source | states |
|---|---|---|
| GroupDbModel.Committed | src/maidsafe/vault/group_db.cc:26-45 | An existing account survives exactly when its mutated metadata is not empty, and keeps its entries with the mutated metadata. An unknown account is always created with default metadata and no entries, whatever the mutation. No other account appears, disappears or changes. |
| GroupDbModel.GroupDb.Commit | src/maidsafe/vault/group_db.cc:26-45 | The map after the in-place find / mutate / UpdateGroup or create sequence is exactly `Committed` of the old map. Both store invariants (every entry filed under its key's account; at most one entry per key) are preserved. The functor is total, so the non-null assert holds. |
| GroupDbModel.GroupDb.UpdateGroup | src/maidsafe/vault/group_db.cc:60-68 | The account and its entries are removed exactly when its metadata reports empty; otherwise the map is unchanged. |
| GroupDbModel.GroupDb.GetContents | src/maidsafe/vault/pmid_manager/service.cc:229 | Succeeds exactly when the account exists, returning its contents in order, every entry filed under that account and no key listed twice; otherwise fails with NoSuchAccount. |
| GroupDbModel.Without | src/maidsafe/vault/pmid_manager/service.cc:60-72 | Keeps exactly the entries whose key differs from the given one; if the input has no repeated key, neither has the result. |
| GroupDbModel.Stored | src/maidsafe/vault/pmid_manager/service.cc:60-72 | The entries after a key-level action: the old entries for other keys, plus the new value under the key when there is one, and nothing for the key otherwise. No key is repeated if none was before. |
| GroupDbModel.CommittedKey | src/maidsafe/vault/group_db.cc:47-68 | The key's account, found or created with default metadata, gets the mutated metadata and its entries as in `Stored`. It survives exactly when the mutated metadata is not empty, and holds no repeated key if it held none. No other account appears, disappears or changes. |
| GroupDbModel.GroupDb.CommitKey | src/maidsafe/vault/pmid_manager/service.cc:60 | The map after the in-place find-or-create / apply / UpdateGroup sequence is exactly `CommittedKey` of the old map, and both store invariants are preserved. |
| GroupDbModel.CommitKeyKeepsUnique | src/maidsafe/vault/pmid_manager/service.cc:60-72 | A key-level Commit leaves every account with at most one entry per key. |
| GroupDbModel.CommitKeyKeepsFiled | src/maidsafe/vault/pmid_manager/service.cc:60-72 | A key-level Commit files the stored entry under the key's own account and keeps every other entry filed. |
| GroupDbModel.CommitKeyStores | src/maidsafe/vault/pmid_manager/service.cc:60 | After a key-level Commit that stores a value and leaves the account non-empty, the account holds exactly one entry for the key, and it carries that value. |
| GroupDbModel.CommitKeyRemoves | src/maidsafe/vault/pmid_manager/service.cc:72 | After a key-level Commit that removes the key, the account holds no entry for it. |
| GroupDbModel.GroupDb.constructor | src/maidsafe/vault/pmid_manager/service.cc:51 | A new store holds no accounts and satisfies both invariants. |
| GroupDbModel.CommitKeepsFiled | src/maidsafe/vault/group_db.cc:36-44 | One Commit keeps every entry filed under its own account. |
| GroupDbModel.CreateIgnoresMutation | src/maidsafe/vault/group_db.cc:39-44 | On an unknown account, Commits with any two mutations give the same map: the mutation is dropped. |
| GroupDbModel.CommitAllKeepsFiled | src/maidsafe/vault/group_db.cc:26-45 | Any series of Commits keeps every entry filed under its own account. |
| GroupDbModel.CommitAllUntouched | src/maidsafe/vault/group_db.cc:26-45 | An account that no Commit of a series names is present afterwards exactly when it was present before, with the same metadata and entries. |
| GroupDbModel.PrunedStaysAbsent | src/maidsafe/vault/group_db.cc:36-68 | An account emptied by a Commit stays absent through any later Commits on other accounts, so GetContents then fails with NoSuchAccount. |
| GroupDbModel.CreateThenMutate | src/maidsafe/vault/group_db.cc:36-44 | Two Commits on an unknown account leave `second(default)` as its metadata; the first mutation is lost. The account is present exactly when that value is not empty. |
| SyncModel.Sync.constructor | src/maidsafe/vault/pmid_manager/service.cc:52 | A new Sync instance has recorded nothing and has run no rounds. |
| SyncModel.Sync.AddUnresolvedAction | src/maidsafe/vault/pmid_manager/service.cc:180 | Appends the action to the received log, returns the supplied resolution, and changes nothing else. |
| SyncModel.Sync.AddLocalAction | src/maidsafe/vault/pmid_manager/service.cc:234-236 | Appends this node's proposal to the local log and changes nothing else. |
| SyncModel.Sync.IncrementAttempts | src/maidsafe/vault/pmid_manager/service.cc:78-80 | Counts one re-broadcast round and changes nothing else. |
| PmidManagerServiceModel.DataNames | src/maidsafe/vault/pmid_manager/service.cc:230-231 | One data name per entry, in the same order, each the entry key's type and name. |
| PmidManagerServiceModel.PutIsListed | src/maidsafe/vault/pmid_manager/service.cc:229-231 | After a committed put whose account survives, the account dump lists the put's data name. |
| PmidManagerServiceModel.DeletedIsNotListed | src/maidsafe/vault/pmid_manager/service.cc:229-231 | After a committed delete whose account survives, the account dump no longer lists the key's data name. This relies on every entry being filed under its own account. |
| PmidManagerServiceModel.DumpListsEachNameOnce | src/maidsafe/vault/pmid_manager/service.cc:229-231 | In a store that keeps both invariants, an account dump lists no data name twice. |
| PmidManagerServiceModel.PmidManagerService.constructor | src/maidsafe/vault/pmid_manager/service.cc:50-52 | Starts with an empty store, three fresh empty Sync instances and an empty outbox. |
| PmidManagerServiceModel.PmidManagerService.HandleSyncedPut | src/maidsafe/vault/pmid_manager/service.cc:55-65 | The store becomes the key-level Commit of the put under its key: the metadata gets the put's mutation and the put's value is stored under the key. Then exactly one put response is appended, carrying the key's data name and account and the action's size and message id. |
| PmidManagerServiceModel.PmidManagerService.HandleSyncedDelete | src/maidsafe/vault/pmid_manager/service.cc:68-73 | The store becomes the key-level Commit of the delete under its key: the metadata gets the delete's mutation and the key's entry is removed. The outbox and the Sync instances are untouched. |
| PmidManagerServiceModel.PmidManagerService.IncrementAttemptsAndSendSync | src/maidsafe/vault/pmid_manager/service.cc:78-80 | Called only with the kind that names the given instance. That instance's round count goes up by one, and one broadcast of that kind is appended, carrying the number of local proposals the instance holds. |
| PmidManagerServiceModel.PmidManagerService.DoSync | src/maidsafe/vault/pmid_manager/service.cc:77-81 | Each of the three instances is re-broadcast exactly once, in the order puts, deletes, set-available-sizes, each broadcast carrying that instance's current number of local proposals. Each gains one round; their logs are unchanged. |
| PmidManagerServiceModel.PmidManagerService.HandleSynchronise | src/maidsafe/vault/pmid_manager/service.cc:164-202 | An unparsable payload fails with parsing_error and changes nothing. A put tag feeds only the put instance and a delete tag only the delete instance. Any other tag, SetAvailableSize included, fails as an assertion and changes nothing. The store and outbox change only when the fed instance returns a resolved action, as in HandleSyncedPut / HandleSyncedDelete. |
| PmidManagerServiceModel.PmidManagerService.HandleSendPmidAccount | src/maidsafe/vault/pmid_manager/service.cc:226-244 | For an existing account, it sends the account's data names in content order with status success. It then adds exactly one local SetAvailableSize proposal with the reported size, and then runs one DoSync round: that round's set-available-size broadcast counts one more proposal than before the call, so it includes the new one. For a missing account, it sends an empty list with status no_such_account and proposes nothing. The store never changes. |
| PmidManagerServiceModel.PmidManagerService.HandleHealthRequest | src/maidsafe/vault/pmid_manager/service.cc:246-264 | Appends exactly one health response with status success. It carries a dummy record for the PMID node with available size 100000000, whatever the store holds. |

## Left out

- The Accumulator-gated handlers (put, put-failure, health, delete and get-account requests, `service.cc:85-160`) are not modelled. They only wrap an Accumulator, `ValidateSender` and `RequiredRequests`, none of which is part of this model.
- Sync internals are not modelled: how `AddUnresolvedAction`, `AddLocalAction` and `IncrementAttemptsAndSendSync` dedupe senders and reach quorum. The resolution is a handler parameter, and no quorum threshold is assumed.
- The account-transfer handler and `HandleChurnEvent` are not modelled: each is only `assert(0)`. The commented-out helpers are not modelled either.
- `detail::ForThisPersona` is not modelled: no modelled handler uses it.
- `SendPutResponse`'s visitor over `DataNameVariant` is not modelled: each put response is one `PutResponse` outbox event.
- HandleSyncedPut: the key/action `Commit` it calls (`service.cc:60`) is declared in group_db.h, which is not part of this model. `CommitKey` stands in for it, and three parts of that stand-in are assumptions, not shown by the source. First, find-or-create on an unknown account, following the commented-out `FindOrCreateGroup` (group_db.cc:47-58). Second, a prune check afterwards, as in `UpdateGroup`. Third, the put's effect: `putMutation` on the metadata, and the value `putValue` stored under the key, appended after the account's other entries.
- HandleSyncedDelete: the same stand-in is used for `service.cc:72`. The delete's effect is an assumption: `deleteMutation` on the metadata, and removal of the key's entry.
- The Metadata class is not part of this model. `GroupStatus()` and `Metadata(group_name)` are the functions in `MetadataOps`.
- The group id stored beside each account's metadata is not modelled. How `AddGroupToMap` allocates it is not part of this model.
- The mutex in `Commit` and `accumulator_mutex_` are not modelled: each operation is atomic.
- Functors that throw, and their interaction with `on_scope_exit`, are not modelled: mutations are total.
- HandleSendPmidAccount: the rethrow of errors other than no_such_account is not modelled. In the model, `GetContents` fails only with NoSuchAccount, so nothing else can reach it.
- HandleHealthRequest: the `catch(...)` reply with no_such_element is not modelled. Nothing in its try block can fail in the model.
- HandleSynchronise: decoding the serialised unresolved action is not modelled. The Sync instance records the raw bytes with the sender and this node's id. Protobuf decoding is the `parseSync` function, and logging is omitted.
- HandleSynchronise: with assertions compiled out, an unknown tag would fall through silently. The model reports `AssertionFailed`; either way no state changes.
- DoSync: what one re-broadcast actually sends is not modelled beyond the number of local proposals the instance holds. Each broadcast is one `SyncBroadcast` event with that count; the received actions it may carry are not part of it.
- PutAction's size is taken as a 32-bit value, because `SendPutResponse` takes an `int32_t`. The declared type of `kSize` is not part of this model.
