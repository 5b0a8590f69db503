/** The pure parts of the sidebar (components/chat/sidebar.tsx): deriving
    the friend list from friendship rows, the "already friends" check,
    search-query normalisation, the in-flight guard of a friend request and
    the presence dot of a friend row. */
module Sidebar {
  import opened Wrappers
  import Text
  import Filtering
  import Store

  /** A profile as listed in the sidebar (the `Friend` type). */
  datatype Friend = Friend(id: string, username: string, fullName: Option<string>, status: Option<string>)

  /** The outcome of a database read: its rows or its error text. */
  datatype Fetched<T> = Fetched(data: T) | FetchError(message: string)

  predicate HasMember(row: Store.UserPair, u: string) {
    row.0 == u || row.1 == u
  }

  /** `r => r.user_id_1 === u || r.user_id_2 === u`. */
  function Naming(u: string): Store.UserPair -> bool {
    (row: Store.UserPair) => HasMember(row, u)
  }

  /** `.or(user_id_1.eq.u, user_id_2.eq.u)`: the friendship rows naming `u`,
      in table order. */
  function FriendshipsOf(table: seq<Store.UserPair>, u: string): (r: seq<Store.UserPair>)
    ensures forall k :: 0 <= k < |r| ==> HasMember(r[k], u)
    ensures forall row :: row in r <==> row in table && HasMember(row, u)
  {
    Filtering.Filter(table, Naming(u))
  }

  /** `r.user_id_1 === userId ? r.user_id_2 : r.user_id_1`: on a row naming
      the user, its other member. */
  function Other(userId: string, row: Store.UserPair): (f: string)
    ensures HasMember(row, userId) ==> (row.0 == userId && f == row.1) || (row.1 == userId && f == row.0)
  {
    if row.0 == userId then row.1 else row.0
  }

  /** `Array.from(new Set(rows.map(Other))).filter(Boolean)`: the other
      members in order of first appearance, without repeats and without the
      empty id. */
  function FriendIds(userId: string, rows: seq<Store.UserPair>): (ids: seq<string>)
    ensures forall i, j :: 0 <= i < j < |ids| ==> ids[i] != ids[j]
    ensures forall x :: x in ids <==> x != "" && exists k :: 0 <= k < |rows| && Other(userId, rows[k]) == x
  {
    if rows == [] then []
    else
      var prev := FriendIds(userId, rows[..|rows| - 1]);
      var f := Other(userId, rows[|rows| - 1]);
      assert forall k :: 0 <= k < |rows| - 1 ==> rows[..|rows| - 1][k] == rows[k];
      if f == "" || f in prev then prev else prev + [f]
  }

  /** Every listed friend id is the other member of a friendship naming the
      user, and every such non-empty member is listed. */
  lemma FriendIdsAreFriends(table: seq<Store.UserPair>, userId: string, x: string)
    ensures x in FriendIds(userId, FriendshipsOf(table, userId)) <==>
      x != "" && ((userId, x) in table || (x, userId) in table)
  {
    var rows := FriendshipsOf(table, userId);
    if x in FriendIds(userId, rows) {
      var k :| 0 <= k < |rows| && Other(userId, rows[k]) == x;
      assert rows[k] in table;
    }
    if x != "" && (userId, x) in table {
      assert (userId, x) in rows;
      var k :| 0 <= k < |rows| && rows[k] == (userId, x);
      assert Other(userId, rows[k]) == x;
    }
    if x != "" && (x, userId) in table {
      assert (x, userId) in rows;
      var k :| 0 <= k < |rows| && rows[k] == (x, userId);
      assert Other(userId, rows[k]) == x;
    }
  }

  /** What `fetchFriends` does after the friendship query: rethrow its error,
      return [] without querying profiles when there are no friend ids, or
      query the profiles of exactly those ids. */
  datatype FriendsFetch = FetchFailed(message: string) | NoFriends | QueryProfiles(ids: seq<string>)

  function FetchFriends(userId: string, table: seq<Store.UserPair>, pairErr: Option<string>): (r: FriendsFetch)
    ensures pairErr.Some? ==> r == FetchFailed(pairErr.value)
    ensures pairErr.None? ==> (r.NoFriends? <==> FriendIds(userId, FriendshipsOf(table, userId)) == [])
    ensures r.QueryProfiles? ==> r.ids == FriendIds(userId, FriendshipsOf(table, userId)) && r.ids != []
    // with friends and no error, their profiles are queried
    ensures pairErr.None? && FriendIds(userId, FriendshipsOf(table, userId)) != [] ==>
      r == QueryProfiles(FriendIds(userId, FriendshipsOf(table, userId)))
  {
    if pairErr.Some? then FetchFailed(pairErr.value)
    else
      var ids := FriendIds(userId, FriendshipsOf(table, userId));
      if ids == [] then NoFriends else QueryProfiles(ids)
  }

  /** `rows.some(r => r.user_id_1 === t || r.user_id_2 === t)`. */
  function IsFriend(rows: seq<Store.UserPair>, target: string): (r: bool)
    ensures r <==> exists k :: 0 <= k < |rows| && HasMember(rows[k], target)
  {
    if rows == [] then false
    else
      assert forall k :: 0 <= k < |rows| - 1 ==> rows[..|rows| - 1][k] == rows[k];
      IsFriend(rows[..|rows| - 1], target) || HasMember(rows[|rows| - 1], target)
  }

  /** The "already friends" check agrees with the friend list for anyone
      other than the user: a target is flagged exactly when it is listed. */
  lemma IsFriendMatchesFriendIds(table: seq<Store.UserPair>, userId: string, target: string)
    requires target != userId && target != ""
    ensures IsFriend(FriendshipsOf(table, userId), target) <==> target in FriendIds(userId, FriendshipsOf(table, userId))
  {
    var rows := FriendshipsOf(table, userId);
    if IsFriend(rows, target) {
      var k :| 0 <= k < |rows| && HasMember(rows[k], target);
      assert Other(userId, rows[k]) == target;
    }
  }

  /** `handleSearch`'s query: trimmed, None when it is then empty, and with
      at most one leading "@" removed. */
  function NormaliseQuery(raw: string): (q: Option<string>)
    ensures q.None? <==> Text.Blank(raw)
    ensures q.Some? && Text.StartsWith(Text.Trim(raw), "@") ==> Text.Trim(raw) == "@" + q.value
    ensures q.Some? && !Text.StartsWith(Text.Trim(raw), "@") ==> q.value == Text.Trim(raw)
  {
    var t := Text.Trim(raw);
    if t == "" then None
    else if Text.StartsWith(t, "@") then
      Text.SplitPrefix(t, "@");
      Some(t[1..])
    else Some(t)
  }

  /** The emptiness test comes before the "@" is removed, so a lone "@"
      passes it and the search runs with the empty query. */
  lemma LoneAtSignSearchesEmpty(raw: string)
    requires Text.Trim(raw) == "@"
    ensures NormaliseQuery(raw) == Some("")
  {
  }

  /** `m => m.id !== id`. */
  function NotId(id: string): Friend -> bool {
    (f: Friend) => f.id != id
  }

  /** `filter(m => m.id !== id)`. */
  function WithoutId(xs: seq<Friend>, id: string): (r: seq<Friend>)
    ensures forall f :: f in r <==> f in xs && f.id != id
  {
    Filtering.Filter(xs, NotId(id))
  }

  /** The profiles kept by the filter appear exactly as often as in the
      input, and in the input's order. */
  lemma WithoutIdKeepsCountsAndOrder(xs: seq<Friend>, ys: seq<Friend>, id: string, f: Friend)
    requires f.id != id
    ensures multiset(WithoutId(xs, id))[f] == multiset(xs)[f]
    ensures WithoutId(xs + ys, id) == WithoutId(xs, id) + WithoutId(ys, id)
  {
    Filtering.KeepsCounts(xs, NotId(id), f);
    Filtering.Distributes(xs, ys, NotId(id));
  }

  /** What a key press in the search box does to the result list. */
  datatype SearchEffect = Ignored | KeepResults | ShowResults(results: seq<Friend>)

  /** `handleSearch`: `search` is the database's username match for a query
      (at most ten profiles, or an error). */
  function HandleSearch(key: string, raw: string, userId: string, search: string -> Fetched<seq<Friend>>): (e: SearchEffect)
    ensures key != "Enter" ==> e == Ignored
    ensures key == "Enter" && Text.Blank(raw) ==> e == ShowResults([])
    ensures key == "Enter" && !Text.Blank(raw) ==>
      var q := NormaliseQuery(raw).value;
      && (search(q).FetchError? ==> e == KeepResults)
      && (search(q).Fetched? ==> e == ShowResults(WithoutId(search(q).data, userId)))
    ensures e.ShowResults? ==> forall f :: f in e.results ==> f.id != userId
  {
    if key != "Enter" then Ignored
    else match NormaliseQuery(raw)
      case None => ShowResults([])
      case Some(q) =>
        match search(q)
        case FetchError(_) => KeepResults
        case Fetched(matches) => if matches == [] then ShowResults([]) else ShowResults(WithoutId(matches, userId))
  }

  /** What `sendFriendRequest` does: nothing when a send to the target is
      already in flight; otherwise it stops on a failed or positive
      friendship check, or posts the request. */
  datatype SendStep = InFlight | CheckFailed(message: string) | AlreadyFriends | PostRequest(receiverId: string)

  /** The step taken and the in-flight flags afterwards (the `finally` clears
      the target's flag on every path that set it). */
  function SendFriendRequest(sending: map<string, bool>, userId: string, target: string,
                             table: seq<Store.UserPair>, checkErr: Option<string>): (r: (SendStep, map<string, bool>))
    ensures r.0 == InFlight <==> target in sending && sending[target]
    ensures r.0 == InFlight ==> r.1 == sending
    ensures r.0 != InFlight ==> r.1 == sending[target := false]
    ensures checkErr.Some? && r.0 != InFlight ==> r.0 == CheckFailed(checkErr.value)
    ensures r.0.PostRequest? <==>
      !(target in sending && sending[target]) && checkErr.None? && !IsFriend(FriendshipsOf(table, userId), target)
    ensures r.0.PostRequest? ==> r.0.receiverId == target
    ensures checkErr.None? && r.0 != InFlight ==> (r.0 == AlreadyFriends <==> IsFriend(FriendshipsOf(table, userId), target))
  {
    if target in sending && sending[target] then (InFlight, sending)
    else
      var step :=
        if checkErr.Some? then CheckFailed(checkErr.value)
        else if IsFriend(FriendshipsOf(table, userId), target) then AlreadyFriends
        else PostRequest(target);
      (step, sending[target := false])
  }

  /** No lock-out: once a send has run to its end, the `finally` has cleared
      the target's flag, so the next send to that target is not refused as
      in flight, whatever the friendship check then says. */
  lemma CompletedSendDoesNotBlock(sending: map<string, bool>, userId: string, target: string,
                                  table: seq<Store.UserPair>, checkErr: Option<string>,
                                  table': seq<Store.UserPair>, checkErr': Option<string>)
    requires SendFriendRequest(sending, userId, target, table, checkErr).0 != InFlight
    ensures var after := SendFriendRequest(sending, userId, target, table, checkErr).1;
            SendFriendRequest(after, userId, target, table', checkErr').0 != InFlight
  {
  }

  /** The indicator dot of a friend row. */
  datatype Dot = OnlineDot | AwayDot | OfflineDot

  /** `friend.status || "offline"`. */
  function EffectiveStatus(status: Option<string>): (s: string)
    ensures s != ""
    ensures Text.Truthy(status) ==> s == status.value
    ensures !Text.Truthy(status) ==> s == "offline"
  {
    if Text.Truthy(status) then status.value else "offline"
  }

  function Indicator(status: Option<string>): (d: Dot)
    ensures d == OnlineDot <==> status == Some("online")
    ensures d == AwayDot <==> status == Some("away")
    ensures d == OfflineDot <==> status != Some("online") && status != Some("away")
  {
    var s := EffectiveStatus(status);
    if s == "online" then OnlineDot else if s == "away" then AwayDot else OfflineDot
  }

  /** A missing or empty status shows like "offline", and so does any status
      other than "online" and "away". */
  lemma MissingStatusIsOffline(other: string)
    requires other != "online" && other != "away"
    ensures Indicator(None) == Indicator(Some("")) == Indicator(Some("offline")) == Indicator(Some(other)) == OfflineDot
  {
  }
}
