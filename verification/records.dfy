/** The stored message record and the per-recipient index that
    `MessageRecorder.messages` holds. */
module Records {

  /** Python's `None` or a present value. */
  datatype Option<+T> = None | Some(value: T)

  /** One recorded message, immutable once built. `atList` keeps the
      mentioned ids in segment order with duplicates; `groupId` is `None`
      for messages that did not come from a group. */
  datatype Record = Record(
    time: int,
    userId: string,
    rawMessage: string,
    atList: seq<string>,
    isReply: bool,
    replyUserId: Option<string>,
    groupId: Option<string>,
    senderName: string)

  /** Recipient id to the records naming it, in append order. */
  type Index = map<string, seq<Record>>

  /** The records listed under `u`, or none when `u` is not a key. */
  function Lookup(idx: Index, u: string): (r: seq<Record>)
    ensures u !in idx ==> r == []
  {
    if u in idx then idx[u] else []
  }

  /** No recipient is kept with an empty list. */
  ghost predicate NoEmptyLists(idx: Index) {
    forall u :: u in idx ==> idx[u] != []
  }

  /** Indexes without empty lists are equal when every lookup agrees,
      so an index is determined by what `Lookup` returns. */
  lemma LookupDetermines(a: Index, b: Index)
    requires NoEmptyLists(a) && NoEmptyLists(b)
    requires forall u :: Lookup(a, u) == Lookup(b, u)
    ensures a == b
  {
    forall u | u in a
      ensures u in b && a[u] == b[u]
    {
      assert Lookup(a, u) == a[u];
    }
    forall u | u in b
      ensures u in a
    {
      assert Lookup(b, u) == b[u];
    }
  }
}
