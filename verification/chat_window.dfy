/** The pure parts of the chat window (components/chat/chat-window.tsx):
    the realtime message-list reducer, the attachment type classification,
    the send guard and the "peer is typing" flag. */
module ChatWindow {
  import opened Wrappers
  import Text
  import Filtering

  datatype MessageType = TextMessage | ImageMessage | VideoMessage | FileMessage

  /** A message row as the client sees it (the `Message` type of
      components/chat/message-bubble.tsx). */
  datatype Message = Message(
    id: string,
    senderId: string,
    content: Option<string>,
    messageType: MessageType,
    fileUrl: Option<string>,
    fileName: Option<string>,
    createdAt: string,
    isEdited: Option<bool>,
    isDeleted: Option<bool>)

  /** A change-feed event for the chat's messages: its `eventType`, the new
      row and the id of the old row. */
  datatype Payload = Payload(eventType: string, newRow: Message, oldId: string)

  /** `curr || []`: the cached list, or empty when nothing is loaded yet. */
  function Loaded(curr: Option<seq<Message>>): seq<Message> {
    curr.GetOr([])
  }

  /** `map(m => m.id === row.id ? row : m)`. */
  function ReplaceById(xs: seq<Message>, row: Message): (r: seq<Message>)
    ensures |r| == |xs|
    ensures forall i :: 0 <= i < |xs| ==> r[i] == (if xs[i].id == row.id then row else xs[i])
  {
    if xs == [] then []
    else ReplaceById(xs[..|xs| - 1], row) + [if xs[|xs| - 1].id == row.id then row else xs[|xs| - 1]]
  }

  /** `m => m.id !== id`. */
  function OtherThan(id: string): Message -> bool {
    (m: Message) => m.id != id
  }

  /** `filter(m => m.id !== id)`. */
  function RemoveById(xs: seq<Message>, id: string): (r: seq<Message>)
    ensures |r| <= |xs|
    ensures forall m :: m in r <==> m in xs && m.id != id
  {
    Filtering.Filter(xs, OtherThan(id))
  }

  /** The reducer handed to `mutate` for every event. */
  function Reduce(curr: Option<seq<Message>>, p: Payload): (r: Option<seq<Message>>)
    // INSERT: appended at the end, earlier elements kept
    ensures p.eventType == "INSERT" ==> r == Some(Loaded(curr) + [p.newRow])
    // UPDATE: same length, rows with the new row's id replaced, others kept
    ensures p.eventType == "UPDATE" ==>
      && r.Some? && |r.value| == |Loaded(curr)|
      && forall i :: 0 <= i < |r.value| ==>
           r.value[i] == (if Loaded(curr)[i].id == p.newRow.id then p.newRow else Loaded(curr)[i])
    // DELETE: exactly the rows with the old id removed
    ensures p.eventType == "DELETE" ==>
      r.Some? && forall m :: m in r.value <==> m in Loaded(curr) && m.id != p.oldId
    // ... the others kept in their order and number, as the filter leaves them
    ensures p.eventType == "DELETE" ==> r == Some(RemoveById(Loaded(curr), p.oldId))
    // any other event: untouched, even when nothing is loaded
    ensures p.eventType !in {"INSERT", "UPDATE", "DELETE"} ==> r == curr
  {
    if p.eventType == "INSERT" then Some(Loaded(curr) + [p.newRow])
    else if p.eventType == "UPDATE" then Some(ReplaceById(Loaded(curr), p.newRow))
    else if p.eventType == "DELETE" then Some(RemoveById(Loaded(curr), p.oldId))
    else curr
  }

  /** A DELETE undoes the INSERT of a row whose id was new to the list. */
  lemma InsertThenDelete(xs: seq<Message>, row: Message, other: Message)
    requires forall i :: 0 <= i < |xs| ==> xs[i].id != row.id
    ensures Reduce(Reduce(Some(xs), Payload("INSERT", row, "")), Payload("DELETE", other, row.id)) == Some(xs)
  {
    var inserted := xs + [row];
    assert Reduce(Some(xs), Payload("INSERT", row, "")) == Some(inserted);
    Filtering.Distributes(xs, [row], OtherThan(row.id));
    Filtering.AllKept(xs, OtherThan(row.id));
    assert RemoveById(inserted, row.id) == xs;
    assert Reduce(Some(inserted), Payload("DELETE", other, row.id)) == Some(RemoveById(inserted, row.id));
  }

  /** Applying the same UPDATE twice is the same as applying it once. */
  lemma UpdateIdempotent(curr: Option<seq<Message>>, p: Payload)
    requires p.eventType == "UPDATE"
    ensures Reduce(Reduce(curr, p), p) == Reduce(curr, p)
  {
    var once := ReplaceById(Loaded(curr), p.newRow);
    var twice := ReplaceById(once, p.newRow);
    assert forall i :: 0 <= i < |twice| ==> twice[i] == once[i];
    assert twice == once;
  }

  /** The `onFile` classification of an upload's MIME type. */
  function Classify(mime: string): (t: MessageType)
    ensures t != TextMessage
    ensures t == ImageMessage <==> Text.StartsWith(mime, "image/")
    ensures t == VideoMessage <==> !Text.StartsWith(mime, "image/") && Text.StartsWith(mime, "video/")
  {
    if Text.StartsWith(mime, "image/") then ImageMessage
    else if Text.StartsWith(mime, "video/") then VideoMessage
    else FileMessage
  }

  datatype Upload = Upload(name: string, size: nat, mime: string)

  /** The message body posted for an uploaded file (its public url comes from
      the object store and is not modelled). */
  datatype FilePost = FilePost(chatId: string, messageType: MessageType, fileName: string, fileSize: nat)

  /** `onFile`: nothing without a chat or a file, or when the upload fails;
      otherwise a post carrying the classified type and the file's name and
      size. */
  function OnFile(chatId: Option<string>, file: Option<Upload>, uploadFails: bool): (r: Option<FilePost>)
    ensures r.Some? <==> Text.Truthy(chatId) && file.Some? && !uploadFails
    ensures r.Some? ==> r.value == FilePost(chatId.value, Classify(file.value.mime), file.value.name, file.value.size)
  {
    if !Text.Truthy(chatId) || file.None? || uploadFails then None
    else Some(FilePost(chatId.value, Classify(file.value.mime), file.value.name, file.value.size))
  }

  /** The body `sendText` posts: the text as typed, not trimmed. */
  datatype TextPost = TextPost(chatId: string, content: string)

  /** `sendText`: posts nothing when the text is blank or there is no chat. */
  function SendText(text: string, chatId: Option<string>): (r: Option<TextPost>)
    ensures r.Some? <==> !Text.Blank(text) && Text.Truthy(chatId)
    ensures r.Some? ==> r.value == TextPost(chatId.value, text)
  {
    if Text.Trim(text) == "" || !Text.Truthy(chatId) then None
    else Some(TextPost(chatId.value, text))
  }

  /** A `typing_indicators` row from the change feed. */
  datatype TypingRow = TypingRow(userId: string, isTyping: Option<bool>)

  /** The "peer is typing" flag after one update: rows of the current user
      are ignored, others set it to `!!row.is_typing`. */
  function OnTypingRow(flag: bool, selfId: string, row: TypingRow): (r: bool)
    ensures row.userId == selfId ==> r == flag
    ensures row.userId != selfId ==> (r <==> row.isTyping == Some(true))
  {
    if row.userId != selfId then row.isTyping == Some(true) else flag
  }

  function TypingFold(flag: bool, selfId: string, rows: seq<TypingRow>): bool {
    if rows == [] then flag
    else OnTypingRow(TypingFold(flag, selfId, rows[..|rows| - 1]), selfId, rows[|rows| - 1])
  }

  /** `r => r.userId !== selfId`. */
  function FromPeer(selfId: string): TypingRow -> bool {
    (row: TypingRow) => row.userId != selfId
  }

  /** The rows of other users, in order. */
  function PeerRows(selfId: string, rows: seq<TypingRow>): (r: seq<TypingRow>)
    ensures forall i :: 0 <= i < |r| ==> r[i].userId != selfId
  {
    Filtering.Filter(rows, FromPeer(selfId))
  }

  /** The current user's own rows never affect the flag: folding all rows
      gives what folding only the peers' rows gives. */
  lemma {:induction false} OwnRowsIgnored(flag: bool, selfId: string, rows: seq<TypingRow>)
    ensures TypingFold(flag, selfId, rows) == TypingFold(flag, selfId, PeerRows(selfId, rows))
  {
    if rows != [] {
      var init := rows[..|rows| - 1];
      var last := rows[|rows| - 1];
      OwnRowsIgnored(flag, selfId, init);
      if last.userId != selfId {
        var peers := PeerRows(selfId, init) + [last];
        assert peers[..|peers| - 1] == PeerRows(selfId, init);
      }
    }
  }
}
