/** The Message schema: a private chat message between two users. `content` is
    trimmed on assignment and is required exactly when there are no attachments;
    `read` defaults to false; `createdAt` comes from the schema's timestamps. */
module Messages {
  import opened Common
  import opened Text

  datatype Attachment = Attachment(url: string, name: string, fileType: string)

  datatype Message = Message(
    id: Id,
    sender: Id,
    recipient: Id,
    content: string,
    attachments: seq<Attachment>,
    read: bool,
    createdAt: int)

  /** The schema's `required` function for `content`. */
  predicate ContentRequired(attachments: seq<Attachment>) {
    |attachments| == 0
  }

  /** No white space at either end, as `trim` leaves it. */
  predicate Trimmed(s: string) {
    s == [] || (!IsSpace(s[0]) && !IsSpace(s[|s| - 1]))
  }

  /** What every stored message satisfies: trimmed content, and non-empty content
      whenever there are no attachments (an empty string fails `required`). */
  predicate ValidMessage(m: Message) {
    Trimmed(m.content) && (ContentRequired(m.attachments) ==> m.content != [])
  }

  /** `Message.create({ sender, recipient, content, attachments })` at time `now`
      under the fresh id `id`: validation fails exactly when there are no
      attachments and the content is blank; otherwise the stored message is unread
      and holds the trimmed content. */
  function Create(id: Id, sender: Id, recipient: Id, content: string, attachments: seq<Attachment>, now: int): (r: Option<Message>)
    ensures r.None? <==> |attachments| == 0 && forall i :: 0 <= i < |content| ==> IsSpace(content[i])
    ensures r.Some? ==> (ValidMessage(r.value) && !r.value.read
      && r.value.sender == sender && r.value.recipient == recipient && r.value.id == id
      && r.value.attachments == attachments && r.value.createdAt == now
      && r.value.content == Trim(content))
  {
    var c := Trim(content);
    TrimEmpty(content);
    if ContentRequired(attachments) && c == [] then None
    else Some(Message(id, sender, recipient, c, attachments, false, now))
  }
}
