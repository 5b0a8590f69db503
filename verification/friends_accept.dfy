/** `POST /api/friends/accept` (app/api/friends/accept/route.ts). */
module AcceptRoute {
  import opened Wrappers
  import opened Store
  import Pair

  const NotFoundText := "Request not found"
  const ForbiddenText := "Not your request"

  /** The chat step after the friendship insert: look the pair up, insert a
      chat only when the lookup succeeded and found none; a failed insert
      leaves no chat id. Errors are not reported. */
  function EnsureChatQuietly(s: Store, p: (UserId, UserId), faults: Faults): (h: (Option<Id>, Store))
    requires Valid(s)
    ensures Valid(h.1)
    ensures h.1.requests == s.requests && h.1.friendships == s.friendships && h.1.profiles == s.profiles
    // the chat table grows only when the lookup saw no chat for the pair
    ensures h.1.chats != s.chats <==> SelectChat !in faults && InsertChat !in faults && ChatsFor(s, p) == {}
    ensures h.1.chats != s.chats ==> h.0.Some? && h.0.value !in s.chats && h.1.chats == s.chats[h.0.value := p]
    // otherwise the chat id is the pair's only chat, if it has exactly one
    ensures h.1.chats == s.chats ==>
      (h.0.Some? <==> SelectChat !in faults && |ChatsFor(s, p)| == 1)
    ensures h.0.Some? ==> ChatsFor(h.1, p) == {h.0.value}
  {
    match MaybeSingle(ChatsFor(s, p), FaultAt(faults, SelectChat))
    case Found(c) => (Some(c), s)
    case Failed(_) => (None, s)
    case Absent =>
      if InsertChat in faults then (None, s)
      else
        var (c, s') := AddChat(s, p);
        (Some(c), s')
  }

  /** The handler. `lt` is the comparison `orderedPair` sorts by. The request's
      current status is not examined, and the outcome of the friendship
      insert is ignored. */
  function Accept(lt: (UserId, UserId) -> bool, s: Store, caller: Option<UserId>, requestId: Id, faults: Faults): (h: Handled)
    requires Valid(s)
    ensures Valid(h.store)
    ensures caller.None? ==> h == Handled(Unauthorized, s)
    ensures h.reply.status in {200, 400, 401, 403, 404}
    ensures h.reply.status != 200 ==> h.store == s
    // unknown request or failed lookup: 404
    ensures caller.Some? && (SelectRequest in faults || requestId !in s.requests) ==>
      h.reply.status == 404 && h.store == s
    ensures caller.Some? && SelectRequest !in faults && requestId !in s.requests ==>
      h.reply == Reply(404, Error(NotFoundText))
    // a failed lookup answers with its error text, or the default when that is empty
    ensures caller.Some? && SelectRequest in faults ==>
      h.reply == Reply(404, Error(if faults[SelectRequest] != "" then faults[SelectRequest] else NotFoundText))
    // someone else's request: 403
    ensures caller.Some? && SelectRequest !in faults && requestId in s.requests
            && s.requests[requestId].receiver != caller.value ==>
      h == Handled(Reply(403, Error(ForbiddenText)), s)
    // the receiver's own request: a failed status update gives 400, otherwise 200
    ensures caller.Some? && SelectRequest !in faults && requestId in s.requests
            && s.requests[requestId].receiver == caller.value ==>
      if UpdateRequest in faults then h == Handled(Reply(400, Error(faults[UpdateRequest])), s)
      else h.reply.status == 200
    // success: accepted whatever the earlier status, and nothing else in the request changes
    ensures h.reply.status == 200 ==>
      && caller.Some? && requestId in s.requests && s.requests[requestId].receiver == caller.value
      && h.store.requests == s.requests[requestId := s.requests[requestId].(status := Accepted)]
      && h.reply.body.AcceptedChat?
    // the friendship row and the chat use the same canonical pair
    ensures h.reply.status == 200 ==>
      var p := Pair.OrderedPair(lt, s.requests[requestId].sender, s.requests[requestId].receiver);
      && h.store.friendships == (if InsertFriendship in faults then s.friendships else s.friendships + [p])
      && (h.reply.body.chat.Some? ==> ChatsFor(h.store, p) == {h.reply.body.chat.value})
      && (h.store.chats != s.chats ==> ChatsFor(s, p) == {} && h.reply.body.chat.Some?
                                       && h.reply.body.chat.value !in s.chats
                                       && h.store.chats == s.chats[h.reply.body.chat.value := p])
      // the pair's chat comes back, existing or new, unless a chat call failed or several exist
      && (h.reply.body.chat.Some? <==>
            SelectChat !in faults && (|ChatsFor(s, p)| == 1 || (ChatsFor(s, p) == {} && InsertChat !in faults)))
    ensures h.store.profiles == s.profiles
  {
    match caller
    case None => Handled(Unauthorized, s)
    case Some(user) =>
      if SelectRequest in faults || requestId !in s.requests then
        var msg := if SelectRequest in faults && faults[SelectRequest] != "" then faults[SelectRequest] else NotFoundText;
        Handled(Reply(404, Error(msg)), s)
      else
        var fr := s.requests[requestId];
        if fr.receiver != user then Handled(Reply(403, Error(ForbiddenText)), s)
        else if UpdateRequest in faults then Handled(Reply(400, Error(faults[UpdateRequest])), s)
        else
          var s1 := SetStatus(s, requestId, Accepted);
          var p := Pair.OrderedPair(lt, fr.sender, fr.receiver);
          var s2 := if InsertFriendship in faults then s1 else s1.(friendships := s1.friendships + [p]);
          var (chat, s3) := EnsureChatQuietly(s2, p, faults);
          Handled(Reply(200, AcceptedChat(chat)), s3)
  }

  /** The reply does not depend on the friendships table, so it is the same
      whether or not the pair was already recorded as friends. */
  lemma ReplyIgnoresFriendships(lt: (UserId, UserId) -> bool, s: Store, rows: seq<(UserId, UserId)>,
                                caller: Option<UserId>, requestId: Id, faults: Faults)
    requires Valid(s)
    ensures Accept(lt, s.(friendships := rows), caller, requestId, faults).reply
         == Accept(lt, s, caller, requestId, faults).reply
  {
  }

  /** Accepting a second time, with a healthy backend, neither creates a
      second chat nor changes the chat id (a pair left with two chats by a
      race gets no id either time); only another friendship row is
      appended, because nothing in the route deduplicates them. */
  lemma AcceptTwice(lt: (UserId, UserId) -> bool, s: Store, user: UserId, requestId: Id)
    requires Valid(s)
    requires Accept(lt, s, Some(user), requestId, map[]).reply.status == 200
    ensures var first := Accept(lt, s, Some(user), requestId, map[]);
            var second := Accept(lt, first.store, Some(user), requestId, map[]);
            var p := Pair.OrderedPair(lt, s.requests[requestId].sender, s.requests[requestId].receiver);
            && second.reply == first.reply
            && second.store.chats == first.store.chats
            && second.store.requests == first.store.requests
            && second.store.friendships == first.store.friendships + [p]
  {
  }

  /** Statuses are not terminal: a rejected request can still be accepted. */
  lemma RejectedCanBeAccepted(lt: (UserId, UserId) -> bool, s: Store, requestId: Id)
    requires Valid(s)
    requires requestId in s.requests && s.requests[requestId].status == Rejected
    ensures var h := Accept(lt, s, Some(s.requests[requestId].receiver), requestId, map[]);
            h.reply.status == 200 && h.store.requests[requestId].status == Accepted
  {
  }
}
