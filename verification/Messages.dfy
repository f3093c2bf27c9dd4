/** The messages table, the statements that change it, and the three handlers a
    peer calls (accept_message, accept_edit, accept_delete). */
module Messages {
  import opened Common

  const PENDING := 0
  const DELIVERED := 1
  const FAILED := 2
  const DELETED := 3
  const MAX_AGE := 86400

  datatype Message = Message(
    id: Id, sender: Id, recipient: Id, group: Id,
    plaintext: Text, ciphertext: string,
    accepted: int, timestamp: int,
    editedAt: int, editAccepted: int, deleteAccepted: int, deletedAt: int)

  // message_id is the primary key.
  type Table = map<Id, Message>

  /** What a ciphertext from one node means to another: decrypt_message with the
      sender's public and the reader's private key. */
  type Opener = (string, Id, Id) -> Option<Text>

  function NewMessage(id: Id, sender: Id, recipient: Id, group: Id, text: Text, cipher: string,
                      accepted: int, time: int): Message
  {
    Message(id, sender, recipient, group, text, cipher, accepted, time, 0, 0, 1, 0)
  }

  // ---------------------------------------------------------------- statements

  datatype Flag = Accepted | Failed | EditAccepted | EditFailed | DeleteAccepted | DeleteFailed

  function Flagged(m: Message, f: Flag): Message {
    match f
    case Accepted => m.(accepted := DELIVERED)
    case Failed => m.(accepted := FAILED)
    case EditAccepted => m.(editAccepted := 1)
    case EditFailed => m.(editAccepted := 2)
    case DeleteAccepted => m.(deleteAccepted := 1)
    case DeleteFailed => m.(deleteAccepted := 2)
  }

  /** UPDATE ... WHERE message_id = id [AND recipient_id = to]. */
  function MarkRow(row: Option<Message>, to: Option<Id>, f: Flag): Option<Message> {
    if row.Some? && (to.None? || row.value.recipient == to.value)
    then Some(Flagged(row.value, f)) else row
  }

  function EditRow(m: Message, text: Text, cipher: string, at: int): Message {
    m.(plaintext := text, ciphertext := cipher, editedAt := at, editAccepted := 0)
  }

  function DeleteRow(m: Message, at: int): Message {
    m.(accepted := DELETED, deleteAccepted := 0, deletedAt := at)
  }

  function Put(t: Table, id: Id, row: Option<Message>): Table {
    if row.Some? then t[id := row.value] else t
  }

  function Mark(t: Table, id: Id, to: Option<Id>, f: Flag): Table {
    Put(t, id, MarkRow(Get(t, id), to, f))
  }

  // ---------------------------------------------------------------- requests

  datatype Request =
    | MessageReq(id: Id, sender: Id, recipient: Id, group: Id, ciphertext: string, timestamp: int)
    | EditReq(id: Id, sender: Id, recipient: Id, ciphertext: string, editedAt: int)
    | DeleteReq(id: Id, sender: Id, recipient: Id)

  datatype Op = Messages | Edits | Deletes

  function RequestOf(op: Op, m: Message): Request {
    match op
    case Messages => MessageReq(m.id, m.sender, m.recipient, m.group, m.ciphertext, m.timestamp)
    case Edits => EditReq(m.id, m.sender, m.recipient, m.ciphertext, m.editedAt)
    case Deletes => DeleteReq(m.id, m.sender, m.recipient)
  }

  function AckFlag(req: Request): Flag {
    match req
    case MessageReq(_, _, _, _, _, _) => Accepted
    case EditReq(_, _, _, _, _) => EditAccepted
    case DeleteReq(_, _, _) => DeleteAccepted
  }

  function FailFlag(op: Op): Flag {
    match op
    case Messages => Failed
    case Edits => EditFailed
    case Deletes => DeleteFailed
  }

  /** The WHERE clauses of get_pending_messages, get_pending_edits and get_pending_deletes. */
  predicate IsPending(op: Op, m: Message) {
    match op
    case Messages => m.accepted == PENDING
    case Edits => m.editAccepted == 0 && m.editedAt != 0
    case Deletes => m.deleteAccepted == 0 && m.accepted == DELETED
  }

  /** The worker's give-up test. */
  predicate Expired(op: Op, m: Message, now: int) {
    match op
    case Messages => now - m.timestamp > MAX_AGE
    case Edits => m.editedAt != 0 && now - m.editedAt > MAX_AGE
    case Deletes => m.deletedAt != 0 && now - m.deletedAt > MAX_AGE
  }

  // ---------------------------------------------------------------- handlers

  datatype Reply = Reply(row: Option<Message>, code: int)

  /** The accept_* handlers, as their effect on the one row they look at. */
  function HandleRow(self: Id, row: Option<Message>, open: Opener, req: Request): Reply {
    if req.recipient != self then Reply(row, 400)
    else
      match req
      case MessageReq(id, s, r, g, c, time) =>
        var text := open(c, s, self);
        if text.None? then Reply(row, 400)
        else if row.Some? then Reply(row, 500)
        else Reply(Some(NewMessage(id, s, r, g, text.value, c, DELIVERED, time)), 200)
      case EditReq(id, s, r, c, at) =>
        if row.None? then Reply(row, 404)
        else
          var text := open(c, s, self);
          if text.None? then Reply(row, 400)
          else Reply(Some(Flagged(EditRow(row.value, text.value, c, at), EditAccepted)), 200)
      case DeleteReq(id, s, r) =>
        if row.None? then Reply(row, 200)
        else if row.value.sender != s then Reply(row, 400)
        else Reply(Some(row.value.(accepted := DELETED)), 200)
  }

  datatype Handled = Handled(table: Table, code: int)

  function Handle(self: Id, t: Table, open: Opener, req: Request): Handled {
    var rep := HandleRow(self, Get(t, req.id), open, req);
    Handled(Put(t, req.id, rep.row), rep.code)
  }

  // ---------------------------------------------------------------- facts about the handlers

  /** Handling a request twice in a row stores what handling it once stores; an edit or
      delete is answered alike both times, and a message that is already in the table,
      however it got there and whatever happened to it since, is refused and left alone. */
  lemma ReplayIsIdempotent(self: Id, t: Table, open: Opener, req: Request)
    ensures
      var once := Handle(self, t, open, req);
      var twice := Handle(self, once.table, open, req);
      && twice.table == once.table
      && (!req.MessageReq? ==> twice.code == once.code)
    ensures req.MessageReq? && req.id in t ==>
      Handle(self, t, open, req).table == t && Handle(self, t, open, req).code != 200
  {
    var once := Handle(self, t, open, req);
    var twice := Handle(self, once.table, open, req);
    forall id | id in once.table || id in twice.table
      ensures Get(twice.table, id) == Get(once.table, id)
    {
    }
    assert twice.table.Keys == once.table.Keys;
    if req.MessageReq? && req.id in t {
      assert Put(t, req.id, Get(t, req.id)) == t;
    }
  }

  /** No request removes a row, touches another row, or un-deletes a tombstone; the only
      status change it can make to an existing row is to delete it. */
  lemma HandlersOnlyGrow(self: Id, t: Table, open: Opener, req: Request, id: Id)
    requires id in t
    ensures
      var t' := Handle(self, t, open, req).table;
      && id in t'
      && (id != req.id ==> t'[id] == t[id])
      && (t'[id].accepted == t[id].accepted || t'[id].accepted == DELETED)
      && (t'[id].accepted != t[id].accepted ==> req.DeleteReq? && req.sender == t[id].sender)
  {
  }
}
