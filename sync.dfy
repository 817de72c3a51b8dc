/**
 * The service's view of one Sync instance (unresolved-action resolver). How it counts
 * proposals and decides resolution is not part of this model: it records what it was given,
 * and the answer of AddUnresolvedAction is supplied by the caller.
 */
module SyncModel {
  import opened Wrappers
  import opened PmidTypes

  /** An unresolved action built from a peer's Synchronise message. */
  datatype Received = Received(serialised: Bytes, sender: NodeId, thisNode: NodeId)

  /** This node's own proposal for an account's metadata. */
  datatype LocalAction<A> = LocalAction(groupName: Name, action: A, thisNode: NodeId)

  /** A resolved action: the key it targets and the agreed action. */
  datatype Resolved<A> = Resolved(key: EntryKey, action: A)

  class Sync<A> {
    /** Every action passed to AddUnresolvedAction, in order. */
    var received: seq<Received>
    /** Every action passed to AddLocalAction, in order. */
    var local: seq<LocalAction<A>>
    /** How many re-broadcast rounds have run. */
    var attempts: nat

    constructor ()
      ensures received == [] && local == [] && attempts == 0
    {
      received, local, attempts := [], [], 0;
    }

    /** Records a peer's proposal; verdict is the instance's (unmodelled) resolution. */
    method AddUnresolvedAction(action: Received, verdict: Option<Resolved<A>>) returns (resolved: Option<Resolved<A>>)
      modifies this
      ensures received == old(received) + [action]
      ensures local == old(local) && attempts == old(attempts)
      ensures resolved == verdict
    {
      received := received + [action];
      resolved := verdict;
    }

    /** Records this node's own proposal. */
    method AddLocalAction(action: LocalAction<A>)
      modifies this
      ensures local == old(local) + [action]
      ensures received == old(received) && attempts == old(attempts)
    {
      local := local + [action];
    }

    /** Counts one re-broadcast round. */
    method IncrementAttempts()
      modifies this
      ensures attempts == old(attempts) + 1
      ensures received == old(received) && local == old(local)
    {
      attempts := attempts + 1;
    }
  }
}
