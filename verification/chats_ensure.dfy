/** `POST /api/chats/ensure` (app/api/chats/ensure/route.ts). */
module EnsureRoute {
  import opened Wrappers
  import opened Store
  import Pair

  /** The handler: find the chat of `orderedPair(caller, peerId)` or create
      one. A failing lookup, more than one chat for the pair, or a failing
      insert each give 400. */
  function Ensure(lt: (UserId, UserId) -> bool, s: Store, caller: Option<UserId>, peerId: UserId, faults: Faults): (h: Handled)
    requires Valid(s)
    ensures Valid(h.store)
    ensures caller.None? ==> h == Handled(Unauthorized, s)
    ensures h.reply.status in {200, 400, 401}
    ensures h.reply.status != 200 ==> h.store == s
    ensures h.reply.status == 200 <==> h.reply.body.ChatRef?
    ensures h.store.requests == s.requests && h.store.friendships == s.friendships
    ensures h.store.profiles == s.profiles
    ensures caller.Some? ==>
      var p := Pair.OrderedPair(lt, caller.value, peerId);
      // an existing chat is returned and nothing is inserted
      && (SelectChat !in faults && |ChatsFor(s, p)| == 1 ==>
            h.store == s && h.reply.body.ChatRef? && ChatsFor(s, p) == {h.reply.body.chatId})
      // with none, exactly one chat is inserted for the pair and returned
      && (SelectChat !in faults && InsertChat !in faults && ChatsFor(s, p) == {} ==>
            && h.reply.body.ChatRef?
            && h.reply.body.chatId !in s.chats
            && h.store.chats == s.chats[h.reply.body.chatId := p])
      // with none and a failing insert, 400 with its error text and nothing inserted
      && (SelectChat !in faults && InsertChat in faults && ChatsFor(s, p) == {} ==>
            h == Handled(Reply(400, Error(faults[InsertChat])), s))
      // a failing lookup answers with its error text, several chats with maybeSingle's
      && (SelectChat in faults ==> h == Handled(Reply(400, Error(faults[SelectChat])), s))
      && (SelectChat !in faults && |ChatsFor(s, p)| > 1 ==> h == Handled(Reply(400, Error(MultipleRows)), s))
      // lookup errors, including a pair with several chats, give 400
      && (SelectChat in faults || |ChatsFor(s, p)| > 1 ==> h.reply.status == 400)
      // whatever is returned is a chat of the pair
      && (h.reply.status == 200 ==> ChatsFor(h.store, p) == {h.reply.body.chatId})
  {
    match caller
    case None => Handled(Unauthorized, s)
    case Some(user) =>
      var p := Pair.OrderedPair(lt, user, peerId);
      match MaybeSingle(ChatsFor(s, p), FaultAt(faults, SelectChat))
      case Failed(msg) => Handled(Reply(400, Error(msg)), s)
      case Found(c) => Handled(Reply(200, ChatRef(c)), s)
      case Absent =>
        if InsertChat in faults then Handled(Reply(400, Error(faults[InsertChat])), s)
        else
          var (c, s') := AddChat(s, p);
          Handled(Reply(200, ChatRef(c)), s')
  }

  /** Two calls in a row return the same chat id, the second changes
      nothing, and the pair then has exactly one chat. */
  lemma EnsureTwice(lt: (UserId, UserId) -> bool, s: Store, user: UserId, peerId: UserId, faults: Faults)
    requires Valid(s)
    requires Ensure(lt, s, Some(user), peerId, faults).reply.status == 200
    ensures var first := Ensure(lt, s, Some(user), peerId, faults);
            var second := Ensure(lt, first.store, Some(user), peerId, map[]);
            && second == first
            && ChatsFor(second.store, Pair.OrderedPair(lt, user, peerId)) == {first.reply.body.chatId}
  {
  }

  /** Either participant resolves the same chat: ensure(a, b) and
      ensure(b, a) give the same reply and the same tables. */
  lemma EnsureSymmetric(lt: (UserId, UserId) -> bool, s: Store, a: UserId, b: UserId, faults: Faults)
    requires Valid(s)
    requires Pair.StrictTotalOrder(lt)
    ensures Ensure(lt, s, Some(a), b, faults) == Ensure(lt, s, Some(b), a, faults)
  {
    Pair.Symmetric(lt, a, b);
  }
}
