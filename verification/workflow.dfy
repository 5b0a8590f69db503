/** Properties that span several routes: the friend-request workflow from
    send to accept, and the canonical pair shared by friendships and chats. */
module Workflow {
  import opened Wrappers
  import opened Store
  import Pair
  import SendRoute
  import AcceptRoute
  import RejectRoute
  import EnsureRoute

  /** A sends to B, B accepts: the request is accepted, the pair is recorded
      as friends once, and exactly one chat exists for it, whose id the
      accept returns. */
  lemma SendThenAccept(lt: (UserId, UserId) -> bool, s: Store, a: UserId, b: UserId)
    requires Valid(s)
    requires Outgoing(s, a, b) == {}
    requires ChatsFor(s, Pair.OrderedPair(lt, a, b)) == {}
    requires FriendshipRows(s.friendships, Pair.OrderedPair(lt, a, b)) == 0
    ensures var sent := SendRoute.Send(s, Some(a), b, map[]);
            var id := sent.reply.body.requestId;
            var accepted := AcceptRoute.Accept(lt, sent.store, Some(b), id, map[]);
            var p := Pair.OrderedPair(lt, a, b);
            && sent.store.requests[id] == FriendRequest(a, b, Pending)
            && accepted.reply.status == 200
            && accepted.store.requests[id] == FriendRequest(a, b, Accepted)
            && FriendshipRows(accepted.store.friendships, p) == 1
            && accepted.reply.body.chat.Some?
            && ChatsFor(accepted.store, p) == {accepted.reply.body.chat.value}
  {
  }

  /** After a successful accept that produced a chat, either participant's
      ensure call finds that same chat and creates nothing. */
  lemma AcceptThenEnsure(lt: (UserId, UserId) -> bool, s: Store, user: UserId, requestId: Id, faults: Faults)
    requires Valid(s)
    requires Pair.StrictTotalOrder(lt)
    requires AcceptRoute.Accept(lt, s, Some(user), requestId, faults).reply.status == 200
    requires AcceptRoute.Accept(lt, s, Some(user), requestId, faults).reply.body.chat.Some?
    ensures var accepted := AcceptRoute.Accept(lt, s, Some(user), requestId, faults);
            var c := accepted.reply.body.chat.value;
            var sender := s.requests[requestId].sender;
            && EnsureRoute.Ensure(lt, accepted.store, Some(user), sender, map[]) == Handled(Reply(200, ChatRef(c)), accepted.store)
            && EnsureRoute.Ensure(lt, accepted.store, Some(sender), user, map[]) == Handled(Reply(200, ChatRef(c)), accepted.store)
  {
    var sender := s.requests[requestId].sender;
    Pair.Symmetric(lt, sender, user);
  }

  /** Rejecting after accepting flips the status but leaves the friendship
      rows and the chat in place: nothing undoes an accept. */
  lemma RejectAfterAccept(lt: (UserId, UserId) -> bool, s: Store, user: UserId, requestId: Id)
    requires Valid(s)
    requires AcceptRoute.Accept(lt, s, Some(user), requestId, map[]).reply.status == 200
    ensures var accepted := AcceptRoute.Accept(lt, s, Some(user), requestId, map[]);
            var rejected := RejectRoute.Reject(accepted.store, Some(user), requestId, map[]);
            && rejected.store.requests[requestId].status == Rejected
            && rejected.store.friendships == accepted.store.friendships
            && rejected.store.chats == accepted.store.chats
  {
  }
}
