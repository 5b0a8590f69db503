# Friend requests and chat pairing: a Dafny model

This project models the core of a one-to-one chat web application. The core
is the friend-request and chat-pairing workflow, which runs as four HTTP
route handlers over three database tables:

- `friend_requests`: id → sender, receiver, status
- `friendships`: canonical pairs of user ids
- `chats`: id → canonical pair

The model also covers the pure client-side logic around that workflow:

- the middleware's routing decision;
- the realtime message-list reducer of the chat window;
- the chat window's attachment classification, send guard and typing flag;
- the sidebar's friend-list derivation, "already friends" check, search
  normalisation, send guard and presence dot;
- the presence reporter's status choices;
- the unload-beacon route that marks a user offline.

The database is one immutable value, `Store.Store`. It holds the three
tables, the `status` column of `profiles`, and a counter `nextId` that
stands for the database's generation of fresh row ids. `Store.Valid` says
every id in use lies below `nextId`. Each route is a pure function
`(store, caller, body fields, faults) → Handled(reply, store')`:

- `caller` is the session user, or `None` without a session.
- `faults` maps each database call that fails to its error text. An empty
  map means a healthy backend.
- A `maybeSingle()` lookup gives the row when exactly one matches, nothing
  when none match, and an error when several match (`Store.MaybeSingle`).
  So two chats for the same pair make the ensure route answer 400.

`orderedPair` comes from `lib/utils/pair`, which is not part of this model.
It is modelled as `Pair.OrderedPair(lt, a, b)`: the two arguments with the
smaller one first under a comparison `lt` that is passed in. The lemmas that
need symmetry assume only that `lt` is a strict total order.

Behaviours of the code worth knowing:

- Send does not refuse a request to oneself (`SendRoute.SelfRequestAccepted`).
- Send returns an existing request in the same orientation whatever its
  status, not only a pending one.
- Accept and reject do not check the current status, so accepted and rejected
  are not terminal (`AcceptRoute.RejectedCanBeAccepted`,
  `Workflow.RejectAfterAccept`).
- A second accept appends a second friendship row. The route does not look
  before it inserts, and no uniqueness constraint is visible in the code
  (`AcceptRoute.AcceptTwice`). The sidebar removes such duplicates when it
  lists friends.
- The search box tests for an empty query before it removes a leading "@".
  So a lone "@" runs a search with the empty string
  (`Sidebar.LoneAtSignSearchesEmpty`).

## Model

| member | source | states |
|---|---|---|
| Pair.OrderedPair | app/api/friends/accept/route.ts:21 | the canonical pair is its two arguments in some order, and is never in strictly descending order under `lt` |
| Pair.Ordered | app/api/friends/accept/route.ts:21 | for two distinct ids and a strict total order, the first member of the pair is strictly smaller |
| Pair.Symmetric | app/api/chats/ensure/route.ts:14 | under a strict total order the canonical pair does not depend on argument order |
| Pair.SameUnorderedPair | app/api/chats/ensure/route.ts:14 | two argument pairs share a canonical pair exactly when they are the same unordered pair |
| Store.MaybeSingle | app/api/friends/send/route.ts:15-24 | a lookup finds a row only when exactly one matches and the call did not fail, is empty only when none match, and otherwise errors |
| Store.AddRequest | app/api/friends/send/route.ts:30-38 | an insert adds the request under an id not used before, keeps the invariant, and leaves the other tables alone |
| Store.AddRequestOutgoing | app/api/friends/send/route.ts:15-38 | an inserted request joins the same-orientation lookup of its own sender and receiver, and of no other pair |
| Store.AddChat | app/api/chats/ensure/route.ts:23 | a chat insert adds the pair under an id not used before and leaves the other tables alone |
| Store.SetStatus | app/api/friends/reject/route.ts:11 | an update by id changes only that request's status, and an unknown id changes nothing |
| Store.AddChatSingles | app/api/chats/ensure/route.ts:23-25 | after inserting into a pair with no chat, the pair has exactly the new chat |
| Store.AddChatKeepsOtherPairs | app/api/chats/ensure/route.ts:23 | inserting a chat for one pair leaves the chats of every other pair unchanged |
| Text.Trim | components/chat/sidebar.tsx:227 | `trim()` keeps what lies between the leading and the trailing whitespace: the result starts right after the leading whitespace, only whitespace follows it, it has no whitespace at either end, and it is empty exactly when the input is blank |
| Filtering.Filter | components/chat/chat-window.tsx:74 | `filter` keeps only elements that pass, drops none that pass, and never lengthens the list |
| Filtering.Distributes | components/chat/chat-window.tsx:74 | filtering distributes over concatenation, so the remaining elements keep their relative order |
| Filtering.KeepsCounts | components/chat/sidebar.tsx:257 | each element that passes is kept exactly as many times as it occurred |
| Filtering.AllKept | components/chat/chat-window.tsx:74 | when every element passes, the list is unchanged |
| SendRoute.Send | app/api/friends/send/route.ts:9-45 | 401 without a session and the store unchanged; an existing same-orientation request's id is returned without an insert; a failed lookup gives 400 with its error text and several matches give 400 with `maybeSingle`'s error text, both with no insert; with none found, a failed insert gives 400 with its error text and no change, otherwise exactly one pending request is inserted and returned; friendships and chats are untouched |
| SendRoute.SuccessLeavesOneRequest | app/api/friends/send/route.ts:25-45 | after a successful send, the returned id is the only request from caller to receiver |
| SendRoute.SendTwiceSameId | app/api/friends/send/route.ts:25-27 | a second identical send returns the same request id and leaves the store as the first call left it |
| SendRoute.ReverseRequestDoesNotBlock | app/api/friends/send/route.ts:18-19 | a pending request from the receiver to the caller does not stop a new request from being inserted |
| SendRoute.SelfRequestAccepted | app/api/friends/send/route.ts:15-45 | a request from a user to themselves is stored as a pending request like any other |
| SendRoute.OldRequestIsReturned | app/api/friends/send/route.ts:25-27 | an accepted or rejected request in the same orientation is returned again, and no new pending one is created |
| AcceptRoute.EnsureChatQuietly | app/api/friends/accept/route.ts:25-38 | a chat is inserted only when the lookup succeeded and found none; a returned chat id is the pair's only chat; lookup and insert errors yield no id |
| AcceptRoute.Accept | app/api/friends/accept/route.ts:10-39 | 401 without a session; 404 with the lookup's own error text for a failed lookup ("Request not found" when that text is empty), and 404 "Request not found" for an unknown id; 403 "Not your request" for someone else's request; 400 with the error text when the status update fails; all leave the store unchanged; otherwise 200: the status becomes accepted whatever it was, one row with the canonical pair is appended unless that insert fails, and the reply carries the pair's chat, existing or freshly inserted, exactly when the chat lookup succeeded and found one chat, or found none and the insert succeeded; a returned chat is the pair's only chat |
| AcceptRoute.ReplyIgnoresFriendships | app/api/friends/accept/route.ts:22 | the reply is the same whatever the friendships table holds |
| AcceptRoute.AcceptTwice | app/api/friends/accept/route.ts:21-39 | a second accept returns the same reply and creates no second chat, even for a pair that already has several; it only appends one more friendship row |
| AcceptRoute.RejectedCanBeAccepted | app/api/friends/accept/route.ts:18 | a rejected request can still be accepted by its receiver |
| RejectRoute.Reject | app/api/friends/reject/route.ts:9-13 | 401 without a session and the store unchanged; a failed update gives 400 with the backend's error text and changes nothing; otherwise the given request becomes rejected, with no receiver or status check, and the reply is `{ok:true}`; an unknown id changes nothing and still gives `{ok:true}`; friendships and chats never change |
| RejectRoute.RejectIdempotent | app/api/friends/reject/route.ts:11 | rejecting twice gives the same reply and store as rejecting once |
| RejectRoute.RejectKeepsValid | app/api/friends/reject/route.ts:11 | rejecting keeps the fresh-id invariant of the store |
| EnsureRoute.Ensure | app/api/chats/ensure/route.ts:12-25 | 401 without a session; an existing chat of `orderedPair(caller, peer)` is returned with no insert; with none, a failed insert gives 400 with its error text and no change, otherwise exactly one chat is inserted for the pair and returned; a failed lookup gives 400 with its error text and several chats give 400 with `maybeSingle`'s error text, both with no insert; a returned id is the pair's only chat |
| EnsureRoute.EnsureTwice | app/api/chats/ensure/route.ts:15-25 | a second call returns the same chat id, changes nothing, and leaves exactly one chat for the pair |
| EnsureRoute.EnsureSymmetric | app/api/chats/ensure/route.ts:14 | under a strict total order, ensure(a, b) and ensure(b, a) give the same reply and store |
| OfflineRoute.Target | app/api/presence/offline/route.ts:12 | the target is the session user when it has a non-empty id, and otherwise the body's non-empty `userId`, if any |
| OfflineRoute.MarkOffline | app/api/presence/offline/route.ts:5-23 | every path answers 200; an exception or a missing target gives `{ok:false}` and writes nothing; otherwise `{ok:true}`; a failed write changes nothing; only the target's status can change, and only to offline |
| OfflineRoute.OkDoesNotMeanWritten | app/api/presence/offline/route.ts:12-20 | whenever a target is found, from the session or the body, a failed profile write still answers `{ok:true}` and leaves every profile as it was |
| OfflineRoute.MarkOfflineIdempotent | app/api/presence/offline/route.ts:12-22 | a repeated beacon gives the same reply and the same profiles as a single one |
| OfflineRoute.SessionOverridesBody | app/api/presence/offline/route.ts:12 | with a signed-in user the body's `userId` has no effect on the reply or the profiles |
| OnlinePresence.StatusFor | components/presence/online-presence.tsx:25-51 | mount writes online; tick and visibility change write away exactly when the document is hidden; unmount writes away; no event writes offline |
| OnlinePresence.Report | components/presence/online-presence.tsx:12-22 | a status write touches only the user's own profile; a failed write or an empty user id leaves every profile unchanged, and no error results |
| OnlinePresence.Run | components/presence/online-presence.tsx:21-53 | a component lifetime changes no profile but the user's own and adds or removes none |
| OnlinePresence.NeverWritesOffline | components/presence/online-presence.tsx:25-51 | no sequence of reporter events turns a profile offline |
| OnlinePresence.LastWriteWins | components/presence/online-presence.tsx:28-51 | after a run whose last write succeeded, the profile holds that event's status, so a run ending in unmount leaves away |
| OnlinePresence.TickMatchesVisibility | components/presence/online-presence.tsx:28-34 | a heartbeat tick and a visibility change apply the same hidden/visible rule |
| Middleware.Decide | middleware.ts:31-52 | without a session, exactly the paths that are not API, static or an exact auth route are redirected to /login; with a session, exactly /login is redirected to /; nothing else is redirected |
| Middleware.NoRedirectLoop | middleware.ts:38-52 | a redirect target, visited with the same session state, passes through |
| Middleware.ApiPassesThrough | middleware.ts:32-44 | an API path is never redirected, with or without a session |
| Middleware.VisitorPassesThrough | middleware.ts:33-41 | without a session, /login, /onboarding and static asset paths pass through |
| Middleware.SessionPassesThrough | middleware.ts:47-52 | with a session, every path but /login passes through, /onboarding included |
| ChatWindow.ReplaceById | components/chat/chat-window.tsx:73 | an update keeps the length and replaces exactly the elements whose id matches the row |
| ChatWindow.RemoveById | components/chat/chat-window.tsx:74 | a delete keeps exactly the elements whose id differs from the old id |
| ChatWindow.Reduce | components/chat/chat-window.tsx:70-76 | INSERT appends the row after the earlier elements; UPDATE keeps the length and replaces the rows with a matching id; DELETE is the filter by id, so it keeps exactly the rows without the old id, in their order and number; any other event leaves the cache as it was, even when nothing is loaded |
| ChatWindow.InsertThenDelete | components/chat/chat-window.tsx:72-74 | a DELETE of a freshly inserted id restores the list from before the INSERT |
| ChatWindow.UpdateIdempotent | components/chat/chat-window.tsx:73 | applying the same UPDATE twice equals applying it once |
| ChatWindow.Classify | components/chat/chat-window.tsx:132-136 | a MIME type starting "image/" gives image, one starting "video/" gives video, and anything else gives file |
| ChatWindow.OnFile | components/chat/chat-window.tsx:128-143 | a file message is posted exactly when there is a chat, a file and a successful upload, and it carries the classified type with the file's name and size |
| ChatWindow.SendText | components/chat/chat-window.tsx:109-120 | a text message is posted exactly when the text is not blank and a chat id exists, and it carries the untrimmed text |
| ChatWindow.OnTypingRow | components/chat/chat-window.tsx:93-96 | a typing update from the current user leaves the flag; one from the peer sets it to whether that peer is typing |
| ChatWindow.OwnRowsIgnored | components/chat/chat-window.tsx:95 | any sequence of typing updates gives the same flag as its peer-only subsequence (the rows `Filtering.Filter` keeps when the sender is not the current user) |
| Sidebar.FriendshipsOf | components/chat/sidebar.tsx:46-49 | the friendship query returns exactly the rows naming the user |
| Sidebar.Other | components/chat/sidebar.tsx:55 | on a row naming the user, the result is that row's other member |
| Sidebar.FriendIds | components/chat/sidebar.tsx:54-56 | the friend ids have no duplicates and are exactly the non-empty other members of the rows |
| Sidebar.FriendIdsAreFriends | components/chat/sidebar.tsx:46-56 | an id is listed exactly when it is non-empty and paired with the user in some friendship row, in either column |
| Sidebar.FetchFriends | components/chat/sidebar.tsx:44-66 | a query error is rethrown; an empty friend-id list returns no friends without a profile query; with friend ids and no error, exactly those ids are looked up |
| Sidebar.IsFriend | components/chat/sidebar.tsx:282 | true exactly when some row has the target on either side |
| Sidebar.IsFriendMatchesFriendIds | components/chat/sidebar.tsx:270-283 | for a target other than the user, the "already friends" check agrees with the friend list |
| Sidebar.NormaliseQuery | components/chat/sidebar.tsx:227-232 | a blank query clears; otherwise the trimmed query is used with at most one leading "@" removed |
| Sidebar.LoneAtSignSearchesEmpty | components/chat/sidebar.tsx:227-232 | a query that trims to "@" passes the emptiness test and searches with the empty string |
| Sidebar.WithoutId | components/chat/sidebar.tsx:257 | exactly the profiles whose id differs from the given one are kept |
| Sidebar.WithoutIdKeepsCountsAndOrder | components/chat/sidebar.tsx:257 | every kept profile appears as often as in the input, and the filter distributes over concatenation, so the input order is kept |
| Sidebar.HandleSearch | components/chat/sidebar.tsx:225-260 | keys other than Enter do nothing; a blank query clears the results; a failed search keeps them; otherwise the results are the matches for the normalised query with the current user filtered out (order and repeats as in the matches), and the user never appears |
| Sidebar.SendFriendRequest | components/chat/sidebar.tsx:264-311 | a send to a target already in flight does nothing at all; otherwise a failed check stops it, a passed check either stops at an existing friendship or posts the request, each exactly when the target is (or is not) already a friend; the in-flight flag is cleared afterwards |
| Sidebar.CompletedSendDoesNotBlock | components/chat/sidebar.tsx:264-311 | after a send has finished, the next send to the same target is not refused as in flight |
| Sidebar.EffectiveStatus | components/chat/sidebar.tsx:491 | a missing or empty status reads as "offline", and any other status is kept |
| Sidebar.Indicator | components/chat/sidebar.tsx:491-492 | only "online" and "away" get their own dots; everything else gets the offline dot |
| Sidebar.MissingStatusIsOffline | components/chat/sidebar.tsx:491-492 | a missing, empty, "offline" or unknown status all show the same offline dot |
| Workflow.SendThenAccept | app/api/friends/accept/route.ts:13-39 | A sends to B and B accepts: the request is accepted, the pair is recorded as friends once, and exactly one chat exists for it, the one returned |
| Workflow.AcceptThenEnsure | app/api/chats/ensure/route.ts:14-22 | after an accept that returned a chat, either participant's ensure returns that chat and inserts nothing |
| Workflow.RejectAfterAccept | app/api/friends/reject/route.ts:11-13 | rejecting an accepted request flips its status but keeps the friendship rows and the chat |

## Left out

- Authentication, the Supabase client construction, cookie adapters and
  environment checks (`lib/supabase/*`). The session user is a parameter.
- `lib/utils/pair` is not part of this model. Its comparison is the parameter
  `lt`, and symmetry is proved for any strict total order.
- Request bodies that fail to parse in the send, accept, reject and ensure
  routes. There `req.json()` throws, which the framework turns into an error
  response. A body that parses but lacks its field does not throw: the route
  runs with `undefined`, which reaches the database filter or insert (and
  the ensure route turns it into the string "undefined"). The model's body
  fields are always present, so that case is not modelled.
  `String(peerId)` in the ensure route is taken to be the string already.
- Row-level security and database uniqueness constraints. They are not in the
  shown code, so the model does not assume that friendships or chats are
  deduplicated by the database.
- Check-then-act races between concurrent requests. Each handler is one
  atomic step. The model does show what a race leaves behind: two chats for
  one pair make later ensure calls answer 400, and make accept return a null
  chat id.
- Timestamps (`created_at`, `last_seen`, upload paths), `Date.now()`,
  `sendBeacon`, toasts, SWR caching and refetching, timers and realtime
  channel setup and teardown. These are I/O and clock effects; only the
  reducer the message channel applies is modelled.
- The public URL of an uploaded file comes from the object store, so
  `ChatWindow.OnFile` omits it.
- The profile query of `fetchFriends` and its ordering by username, and the
  case-insensitive `ilike` username search. Both are the database's work.
  The search is a parameter of `Sidebar.HandleSearch`.
- The message, edit, delete and typing routes under `app/api/chats/[chatId]`,
  the auth and onboarding forms, and all rendering.
- The Next.js `config.matcher` expression of the middleware, which is
  framework routing.
- OnlinePresence.LastWriteWins: `setStatus` is not awaited, so writes
  issued in order could commit out of order. The model applies each write
  in the order it was issued.
- OfflineRoute.MarkOffline: an exception is modelled only where it can
  arise before the write (getting the client or the session). The write
  itself reports errors as a value, and the route ignores that value.
