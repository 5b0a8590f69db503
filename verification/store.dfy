/** The database tables the friend and chat routes read and write, as one
    immutable value, plus the shapes of the routes' JSON replies.

    Tables: `friend_requests` (id -> sender, receiver, status),
    `friendships` (rows of canonical pairs, kept as a sequence because
    nothing in the routes deduplicates them), `chats` (id -> canonical pair)
    and the `status` column of `profiles`. */
module Store {
  import opened Wrappers

  type UserId = string

  /** A row of `friendships` or the pair of a chat: two user ids. */
  type UserPair = (UserId, UserId)

  /** Row id of a friend request or a chat. The database hands out uuid
      strings; here they are numbers drawn from `nextId`. */
  type Id = nat

  datatype RequestStatus = Pending | Accepted | Rejected

  datatype FriendRequest = FriendRequest(sender: UserId, receiver: UserId, status: RequestStatus)

  /** The presence column of a profile. */
  datatype Presence = Online | Away | Offline

  datatype Store = Store(
    requests: map<Id, FriendRequest>,
    friendships: seq<UserPair>,
    chats: map<Id, UserPair>,
    profiles: map<UserId, Presence>,
    nextId: Id)

  /** Every id in use is below `nextId`, so `nextId` is fresh: this is how the
      model states that the database generates new row ids. */
  predicate Valid(s: Store) {
    && (forall k :: k in s.requests ==> k < s.nextId)
    && (forall k :: k in s.chats ==> k < s.nextId)
  }

  /** The database calls a route can make; a backend failure of one of them
      is given by `Faults`, which maps the failing call to its error text. */
  datatype Call = SelectRequest | UpdateRequest | InsertRequest | InsertFriendship | SelectChat | InsertChat

  type Faults = map<Call, string>

  function FaultAt(faults: Faults, c: Call): Option<string> {
    if c in faults then Some(faults[c]) else None
  }

  /** JSON bodies returned by the routes. */
  datatype Body =
    | Error(message: string)                 // {error}
    | RequestRef(requestId: Id)              // {ok: true, requestId}
    | AcceptedChat(chat: Option<Id>)         // {ok: true, chatId}
    | Ok                                     // {ok: true}
    | ChatRef(chatId: Id)                    // {chatId}
    | NotOk                                  // {ok: false}

  datatype Reply = Reply(status: nat, body: Body)

  /** What a route hands back: its reply and the tables after it ran. */
  datatype Handled = Handled(reply: Reply, store: Store)

  const Unauthorized := Reply(401, Error("Unauthorized"))

  /** Error text of the client library's `maybeSingle()` when more than one
      row matches. */
  const MultipleRows := "JSON object requested, multiple (or no) rows returned"

  /** Result of a `select ... maybeSingle()` query. */
  datatype Lookup = Found(id: Id) | Absent | Failed(message: string)

  function Only(ids: set<Id>): (r: Id)
    requires |ids| == 1
    ensures ids == {r}
  {
    var x :| x in ids;
    assert ids == {x} by {
      assert |ids - {x}| == 0;
    }
    x
  }

  /** `maybeSingle()` over the ids matching a filter: the row when exactly one
      matches, nothing when none does, and an error when the call fails or
      more than one row matches. */
  function MaybeSingle(matches: set<Id>, fault: Option<string>): (r: Lookup)
    ensures r.Found? <==> fault.None? && |matches| == 1
    ensures r.Found? ==> matches == {r.id}
    ensures r.Absent? <==> fault.None? && matches == {}
    ensures fault.Some? ==> r == Failed(fault.value)
  {
    if fault.Some? then Failed(fault.value)
    else if matches == {} then Absent
    else if |matches| == 1 then Found(Only(matches))
    else Failed(MultipleRows)
  }

  /** Requests sent by `sender` to `receiver`, in exactly that orientation,
      whatever their status. */
  function Outgoing(s: Store, sender: UserId, receiver: UserId): set<Id> {
    set k | k in s.requests && s.requests[k].sender == sender && s.requests[k].receiver == receiver
  }

  /** Chats stored under the pair `p`. */
  function ChatsFor(s: Store, p: UserPair): set<Id> {
    set k | k in s.chats && s.chats[k] == p
  }

  /** Number of friendship rows equal to `p`. */
  function FriendshipRows(rows: seq<UserPair>, p: UserPair): nat {
    if rows == [] then 0
    else FriendshipRows(rows[..|rows| - 1], p) + (if rows[|rows| - 1] == p then 1 else 0)
  }

  /** Inserts a friend request under a fresh id; nothing else changes. */
  function AddRequest(s: Store, fr: FriendRequest): (h: (Id, Store))
    requires Valid(s)
    ensures Valid(h.1)
    ensures h.0 !in s.requests && h.1.requests == s.requests[h.0 := fr]
    ensures h.1.friendships == s.friendships && h.1.chats == s.chats && h.1.profiles == s.profiles
  {
    (s.nextId, s.(requests := s.requests[s.nextId := fr], nextId := s.nextId + 1))
  }

  /** Inserts a chat for pair `p` under a fresh id; nothing else changes. */
  function AddChat(s: Store, p: UserPair): (h: (Id, Store))
    requires Valid(s)
    ensures Valid(h.1)
    ensures h.0 !in s.chats && h.1.chats == s.chats[h.0 := p]
    ensures h.1.requests == s.requests && h.1.friendships == s.friendships && h.1.profiles == s.profiles
  {
    (s.nextId, s.(chats := s.chats[s.nextId := p], nextId := s.nextId + 1))
  }

  /** `update({status}).eq("id", id)`: sets the status of request `id` when
      there is one, and changes nothing otherwise. */
  function SetStatus(s: Store, id: Id, st: RequestStatus): (s': Store)
    ensures s'.requests.Keys == s.requests.Keys
    ensures id in s.requests ==> s'.requests[id] == s.requests[id].(status := st)
    ensures forall k :: k in s.requests && k != id ==> s'.requests[k] == s.requests[k]
    ensures s'.friendships == s.friendships && s'.chats == s.chats
    ensures s'.profiles == s.profiles && s'.nextId == s.nextId
  {
    if id in s.requests then s.(requests := s.requests[id := s.requests[id].(status := st)]) else s
  }

  /** Adding a fresh chat for `p` to a table with no chat for `p` leaves
      exactly that one. */
  lemma AddChatSingles(s: Store, p: UserPair)
    requires Valid(s)
    requires ChatsFor(s, p) == {}
    ensures ChatsFor(AddChat(s, p).1, p) == {AddChat(s, p).0}
  {
  }

  /** Inserting a request adds its id to the requests of its own
      orientation and to no other. */
  lemma AddRequestOutgoing(s: Store, fr: FriendRequest, a: UserId, b: UserId)
    requires Valid(s)
    ensures Outgoing(AddRequest(s, fr).1, a, b)
         == Outgoing(s, a, b) + (if (a, b) == (fr.sender, fr.receiver) then {AddRequest(s, fr).0} else {})
  {
  }

  lemma AddChatKeepsOtherPairs(s: Store, p: UserPair, q: UserPair)
    requires Valid(s)
    requires p != q
    ensures ChatsFor(AddChat(s, p).1, q) == ChatsFor(s, q)
  {
  }
}
