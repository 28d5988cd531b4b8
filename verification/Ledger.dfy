/** The submission ledger: what was last broadcast at each (chain, address, nonce). */
module Ledger {
  import opened Text
  import opened Fees

  /** The address is already lowercased, as in the ledger's own key. */
  datatype Key = Key(chain: nat, from: string, nonce: nat)

  datatype Origin = Payload | Recovery

  datatype Entry = Entry(origin: Origin, hash: nat, submittedAt: int, fees: Snapshot, resolvedAt: Option<int>)

  type Entries = map<Key, Entry>

  function Get(l: Entries, k: Key): Option<Entry> {
    if k in l then Some(l[k]) else None
  }

  /** An entry that some later submission may still have to replace. */
  predicate Pending(l: Entries, k: Key) {
    k in l && l[k].resolvedAt.None?
  }

  /** The earlier fees a new submission at `k` has to beat: those of an unresolved entry. */
  function PreviousFees(l: Entries, k: Key): Option<Snapshot> {
    if Pending(l, k) then Some(l[k].fees) else None
  }

  function Resolved(l: Entries, k: Key, at: int): Entries {
    if k in l then l[k := l[k].(resolvedAt := Some(at))] else l
  }

  class MemoryLedger {
    var entries: Entries

    constructor ()
      ensures entries == map[]
    {
      entries := map[];
    }

    method GetTxSubmission(k: Key) returns (entry: Option<Entry>)
      ensures entry == Get(entries, k)
    {
      entry := if k in entries then Some(entries[k]) else None;
    }

    method RecordTxSubmission(k: Key, entry: Entry)
      modifies this
      ensures entries == old(entries)[k := entry]
    {
      entries := entries[k := entry];
    }

    method MarkTxSubmissionResolved(k: Key, resolvedAt: int)
      modifies this
      ensures entries == Resolved(old(entries), k, resolvedAt)
    {
      if k in entries {
        entries := entries[k := entries[k].(resolvedAt := Some(resolvedAt))];
      }
    }
  }
}
