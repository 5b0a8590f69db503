/** `POST /api/presence/offline` (app/api/presence/offline/route.ts), the
    target of the unload beacon. */
module OfflineRoute {
  import opened Wrappers
  import opened Store
  import Text

  /** `user?.id || body.userId`: the session user when there is one with a
      non-empty id, else the body's `userId` when non-empty. */
  function Target(sessionUser: Option<UserId>, bodyUserId: Option<UserId>): (t: Option<UserId>)
    ensures t.Some? ==> t.value != ""
    ensures Text.Truthy(sessionUser) ==> t == sessionUser
    ensures !Text.Truthy(sessionUser) ==> (t.Some? <==> Text.Truthy(bodyUserId))
    ensures !Text.Truthy(sessionUser) && t.Some? ==> t == bodyUserId
  {
    if Text.Truthy(sessionUser) then sessionUser
    else if Text.Truthy(bodyUserId) then bodyUserId
    else None
  }

  /** The handler. `bodyUserId` is the body's `userId` (None when the body is
      missing, unparsable or lacks it); `crashed` stands for an exception
      thrown while getting the client or the session, before any write;
      `writeFails` for an error of the profile update, which the route does
      not look at. */
  function MarkOffline(s: Store, sessionUser: Option<UserId>, bodyUserId: Option<UserId>,
                       crashed: bool, writeFails: bool): (h: Handled)
    // every path answers 200
    ensures h.reply.status == 200
    ensures h.reply.body == Ok || h.reply.body == NotOk
    // an exception or no target: {ok: false}, nothing written
    ensures crashed || Target(sessionUser, bodyUserId).None? ==> h == Handled(Reply(200, NotOk), s)
    ensures !crashed && Target(sessionUser, bodyUserId).Some? ==> h.reply.body == Ok
    // a failed write changes nothing
    ensures writeFails ==> h.store == s
    // only the target's presence can change, and only to offline
    ensures h.store == s.(profiles := h.store.profiles)
    ensures h.store.profiles.Keys == s.profiles.Keys
    ensures forall u :: u in s.profiles && h.store.profiles[u] != s.profiles[u] ==>
      Target(sessionUser, bodyUserId) == Some(u) && h.store.profiles[u] == Offline
    ensures !crashed && !writeFails && Target(sessionUser, bodyUserId).Some?
            && Target(sessionUser, bodyUserId).value in s.profiles ==>
      h.store.profiles[Target(sessionUser, bodyUserId).value] == Offline
  {
    if crashed then Handled(Reply(200, NotOk), s)
    else
      match Target(sessionUser, bodyUserId)
      case None => Handled(Reply(200, NotOk), s)
      case Some(t) =>
        var s' := if writeFails || t !in s.profiles then s else s.(profiles := s.profiles[t := Offline]);
        Handled(Reply(200, Ok), s')
  }

  /** The reply is {ok: true} even when the write failed: it says a target
      was found, from the session or the body, not that the profile is now
      offline, which keeps whatever status it had. */
  lemma OkDoesNotMeanWritten(s: Store, sessionUser: Option<UserId>, bodyUserId: Option<UserId>)
    requires Target(sessionUser, bodyUserId).Some?
    ensures var h := MarkOffline(s, sessionUser, bodyUserId, false, true);
            h.reply == Reply(200, Ok) && h.store == s
  {
  }

  /** The beacon may fire more than once: marking offline twice leaves the
      same reply and the same profiles as marking once. */
  lemma MarkOfflineIdempotent(s: Store, sessionUser: Option<UserId>, bodyUserId: Option<UserId>,
                              crashed: bool, writeFails: bool)
    ensures var once := MarkOffline(s, sessionUser, bodyUserId, crashed, writeFails);
            MarkOffline(once.store, sessionUser, bodyUserId, crashed, writeFails) == once
  {
  }

  /** With a signed-in user the body's `userId` is ignored: nobody can mark
      someone else offline by naming them in the body. */
  lemma SessionOverridesBody(s: Store, u: UserId, body1: Option<UserId>, body2: Option<UserId>,
                             crashed: bool, writeFails: bool)
    requires u != ""
    ensures MarkOffline(s, Some(u), body1, crashed, writeFails) == MarkOffline(s, Some(u), body2, crashed, writeFails)
  {
  }
}
