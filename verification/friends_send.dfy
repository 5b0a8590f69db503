/** `POST /api/friends/send` (app/api/friends/send/route.ts). */
module SendRoute {
  import opened Wrappers
  import opened Store

  /** The handler: `caller` is the session user (None without a session) and
      `receiverId` the body's field. Only the exact sender -> receiver
      orientation is looked up, whatever the status of what it finds. */
  function Send(s: Store, caller: Option<UserId>, receiverId: UserId, faults: Faults): (h: Handled)
    requires Valid(s)
    ensures Valid(h.store)
    ensures caller.None? ==> h == Handled(Unauthorized, s)
    ensures h.reply.status in {200, 400, 401}
    ensures h.reply.status != 200 ==> h.store == s
    ensures h.reply.status == 200 <==> h.reply.body.RequestRef?
    // duplicate found: that id, no insert
    ensures caller.Some? && SelectRequest !in faults && |Outgoing(s, caller.value, receiverId)| == 1 ==>
      h.store == s && h.reply.body.RequestRef? && Outgoing(s, caller.value, receiverId) == {h.reply.body.requestId}
    // nothing found: exactly one pending request inserted and returned
    ensures caller.Some? && SelectRequest !in faults && InsertRequest !in faults
            && Outgoing(s, caller.value, receiverId) == {} ==>
      && h.reply.body.RequestRef?
      && h.reply.body.requestId !in s.requests
      && h.store.requests == s.requests[h.reply.body.requestId := FriendRequest(caller.value, receiverId, Pending)]
    // nothing found but the insert fails: 400 with its error text, nothing inserted
    ensures caller.Some? && SelectRequest !in faults && InsertRequest in faults
            && Outgoing(s, caller.value, receiverId) == {} ==>
      h == Handled(Reply(400, Error(faults[InsertRequest])), s)
    // a failing lookup answers with its error text, several matches with maybeSingle's
    ensures caller.Some? && SelectRequest in faults ==> h == Handled(Reply(400, Error(faults[SelectRequest])), s)
    ensures caller.Some? && SelectRequest !in faults && |Outgoing(s, caller.value, receiverId)| > 1 ==>
      h == Handled(Reply(400, Error(MultipleRows)), s)
    // a failing lookup or more than one matching request: 400, nothing inserted
    ensures caller.Some? && (SelectRequest in faults || |Outgoing(s, caller.value, receiverId)| > 1) ==>
      h.reply.status == 400 && h.store == s
    // the other tables are never touched
    ensures h.store.friendships == s.friendships && h.store.chats == s.chats && h.store.profiles == s.profiles
  {
    match caller
    case None => Handled(Unauthorized, s)
    case Some(user) =>
      match MaybeSingle(Outgoing(s, user, receiverId), FaultAt(faults, SelectRequest))
      case Failed(msg) => Handled(Reply(400, Error(msg)), s)
      case Found(id) => Handled(Reply(200, RequestRef(id)), s)
      case Absent =>
        if InsertRequest in faults then Handled(Reply(400, Error(faults[InsertRequest])), s)
        else
          var (id, s') := AddRequest(s, FriendRequest(user, receiverId, Pending));
          Handled(Reply(200, RequestRef(id)), s')
  }

  /** After a successful send exactly one request from the caller to the
      receiver exists, and it is the one returned. */
  lemma SuccessLeavesOneRequest(s: Store, user: UserId, receiverId: UserId, faults: Faults)
    requires Valid(s)
    requires Send(s, Some(user), receiverId, faults).reply.status == 200
    ensures Outgoing(Send(s, Some(user), receiverId, faults).store, user, receiverId)
         == {Send(s, Some(user), receiverId, faults).reply.body.requestId}
  {
  }

  /** Sending twice: the second call returns the id of the first and leaves
      the tables as the first call left them. */
  lemma SendTwiceSameId(s: Store, user: UserId, receiverId: UserId, faults: Faults)
    requires Valid(s)
    requires Send(s, Some(user), receiverId, faults).reply.status == 200
    ensures var first := Send(s, Some(user), receiverId, faults);
            var second := Send(first.store, Some(user), receiverId, map[]);
            second.reply == first.reply && second.store == first.store
  {
    SuccessLeavesOneRequest(s, user, receiverId, faults);
  }

  /** A request in the opposite direction, pending or not, does not stop a
      new one from being inserted. */
  lemma ReverseRequestDoesNotBlock(s: Store, a: UserId, b: UserId, k: Id)
    requires Valid(s)
    requires a != b
    requires k in s.requests && s.requests[k] == FriendRequest(b, a, Pending)
    requires Outgoing(s, a, b) == {}
    ensures var h := Send(s, Some(a), b, map[]);
            h.reply.status == 200 && h.reply.body.requestId != k
            && h.store.requests[h.reply.body.requestId] == FriendRequest(a, b, Pending)
            && h.store.requests[k] == FriendRequest(b, a, Pending)
  {
  }

  /** Nothing stops a request to oneself: it is stored like any other. */
  lemma SelfRequestAccepted(s: Store, a: UserId)
    requires Valid(s)
    requires Outgoing(s, a, a) == {}
    ensures var h := Send(s, Some(a), a, map[]);
            h.reply.status == 200 && h.store.requests[h.reply.body.requestId] == FriendRequest(a, a, Pending)
  {
  }

  /** An earlier rejected or accepted request in the same orientation is
      returned again instead of a new pending one being created. */
  lemma OldRequestIsReturned(s: Store, a: UserId, b: UserId, k: Id)
    requires Valid(s)
    requires k in s.requests && s.requests[k].sender == a && s.requests[k].receiver == b
    requires s.requests[k].status != Pending
    requires forall j :: j in s.requests && j != k ==> s.requests[j].sender != a || s.requests[j].receiver != b
    ensures Send(s, Some(a), b, map[]) == Handled(Reply(200, RequestRef(k)), s)
  {
    assert Outgoing(s, a, b) == {k};
  }
}
