/** The presence reporter mounted on the chat page
    (components/presence/online-presence.tsx): which status it writes on
    mount, heartbeat tick, visibility change and unmount. */
module OnlinePresence {
  import opened Wrappers
  import opened Store

  /** The lifecycle events of the component; `hidden` is `document.hidden`
      when the event fires. */
  datatype Event = Mount | Tick(hidden: bool) | VisibilityChange(hidden: bool) | Unmount

  /** The status written for an event. */
  function StatusFor(e: Event): (p: Presence)
    ensures p != Offline
    ensures e.Mount? ==> p == Online
    ensures e.Unmount? ==> p == Away
    ensures (e.Tick? || e.VisibilityChange?) ==> (p == Away <==> e.hidden)
  {
    match e
    case Mount => Online
    case Tick(hidden) => if hidden then Away else Online
    case VisibilityChange(hidden) => if hidden then Away else Online
    case Unmount => Away
  }

  /** One `setStatus` call: writes the event's status to the user's profile.
      With an empty user id the effect never ran, so nothing is written; a
      failed write is swallowed, so the profiles stay as they were and no
      error comes out (the result has no error case). */
  function Report(profiles: map<UserId, Presence>, userId: UserId, e: Event, writeFails: bool): (r: map<UserId, Presence>)
    ensures r.Keys == profiles.Keys
    ensures forall u :: u in profiles && u != userId ==> r[u] == profiles[u]
    ensures writeFails || userId == "" ==> r == profiles
    ensures !writeFails && userId != "" && userId in profiles ==> r[userId] == StatusFor(e)
  {
    if writeFails || userId == "" || userId !in profiles then profiles
    else profiles[userId := StatusFor(e)]
  }

  /** A component lifetime: the events in order, each with whether its write
      failed. */
  function Run(profiles: map<UserId, Presence>, userId: UserId, events: seq<(Event, bool)>): (r: map<UserId, Presence>)
    ensures r.Keys == profiles.Keys
    ensures forall u :: u in profiles && u != userId ==> r[u] == profiles[u]
  {
    if events == [] then profiles
    else Report(Run(profiles, userId, events[..|events| - 1]), userId, events[|events| - 1].0, events[|events| - 1].1)
  }

  /** The reporter never marks anyone offline: a profile that was not offline
      before is not offline after any run (only the unload beacon's route
      writes offline). */
  lemma {:induction false} NeverWritesOffline(profiles: map<UserId, Presence>, userId: UserId,
                                              events: seq<(Event, bool)>, u: UserId)
    requires u in profiles && profiles[u] != Offline
    ensures Run(profiles, userId, events)[u] != Offline
  {
    if events != [] {
      NeverWritesOffline(profiles, userId, events[..|events| - 1], u);
    }
  }

  /** After a run whose last event is a successful write, the profile holds
      that event's status: a run ending in an unmount leaves "away". */
  lemma LastWriteWins(profiles: map<UserId, Presence>, userId: UserId, events: seq<(Event, bool)>)
    requires userId != "" && userId in profiles
    requires events != [] && !events[|events| - 1].1
    ensures Run(profiles, userId, events)[userId] == StatusFor(events[|events| - 1].0)
  {
  }

  /** A tick and a visibility change with the same `document.hidden` write
      the same status. */
  lemma TickMatchesVisibility(hidden: bool)
    ensures StatusFor(Tick(hidden)) == StatusFor(VisibilityChange(hidden))
  {
  }
}
