/** `POST /api/friends/reject` (app/api/friends/reject/route.ts). */
module RejectRoute {
  import opened Wrappers
  import opened Store

  /** The handler: an unconditional `status := rejected` on the given id,
      with no receiver check and no look at the current status. */
  function Reject(s: Store, caller: Option<UserId>, requestId: Id, faults: Faults): (h: Handled)
    ensures caller.None? ==> h == Handled(Unauthorized, s)
    ensures h.reply.status in {200, 400, 401}
    ensures h.reply.status != 200 ==> h.store == s
    ensures h.reply.status == 200 <==> caller.Some? && UpdateRequest !in faults
    ensures h.reply.status == 200 ==> h.reply.body == Ok
    // a failed update: 400 carrying the backend's error text
    ensures caller.Some? && UpdateRequest in faults ==> h == Handled(Reply(400, Error(faults[UpdateRequest])), s)
    // whoever calls, whatever the status was
    ensures h.reply.status == 200 && requestId in s.requests ==>
      h.store.requests == s.requests[requestId := s.requests[requestId].(status := Rejected)]
    // an unknown id changes nothing
    ensures requestId !in s.requests ==> h.store == s
    // friendships, chats and profiles are never modified
    ensures h.store.friendships == s.friendships && h.store.chats == s.chats
    ensures h.store.profiles == s.profiles && h.store.nextId == s.nextId
  {
    match caller
    case None => Handled(Unauthorized, s)
    case Some(_) =>
      if UpdateRequest in faults then Handled(Reply(400, Error(faults[UpdateRequest])), s)
      else Handled(Reply(200, Ok), SetStatus(s, requestId, Rejected))
  }

  /** Rejecting twice gives the same tables and reply as rejecting once. */
  lemma RejectIdempotent(s: Store, caller: Option<UserId>, requestId: Id, faults: Faults)
    ensures var once := Reject(s, caller, requestId, faults);
            Reject(once.store, caller, requestId, faults) == once
  {
  }

  /** Rejecting keeps the table invariant. */
  lemma RejectKeepsValid(s: Store, caller: Option<UserId>, requestId: Id, faults: Faults)
    requires Valid(s)
    ensures Valid(Reject(s, caller, requestId, faults).store)
  {
  }
}
