/** The handlers, routes and delivery functions for messages, acting on the nodes' databases. A
    POST runs the peer's handler on the peer's database. */
module Delivery {
  import opened Common
  import opened Messages
  import opened Replication
  import opened Protocol
  import opened Database
  import Outcomes

  /** One database per node, each its own object. */
  type Cluster = map<Id, DbManager>

  ghost predicate Ready(c: Cluster)
    reads c.Values
  {
    && (forall a, b | a in c && b in c && a != b :: c[a] != c[b])
    && (forall n | n in c :: c[n].Valid())
  }

  ghost function WorldOf(c: Cluster): World
    reads c.Values`messages
  {
    map n | n in c :: c[n].messages
  }

  /** A contact without an address cannot be called. */
  function Routed(contacts: map<Id, Contact>, to: Id, call: Call): Call {
    if AddressOf(contacts, to) == "" then Lost else call
  }

  /** A call can be made exactly to a contact with an address. */
  lemma RoutedMeans(contacts: map<Id, Contact>, to: Id, call: Call)
    ensures Routed(contacts, to, call) == if to in contacts && contacts[to].address != "" then call else Lost
  {
  }

  // ---------------------------------------------------------------- handlers

  method AcceptMessage(db: DbManager, self: Id, open: Opener, req: Request) returns (code: int)
    requires db.Valid() && req.MessageReq?
    modifies db`messages
    ensures db.Valid()
    ensures Handled(db.messages, code) == Handle(self, old(db.messages), open, req)
  {
    if req.recipient != self { return 400; }
    var text := open(req.ciphertext, req.sender, self);
    if text.None? { return 400; }
    var m := Message(req.id, req.sender, req.recipient, req.group, text.value, req.ciphertext, DELIVERED,
                     req.timestamp, 0, 0, 1, 0);
    var ok := db.AddMessage(m);
    if !ok { return 500; }
    return 200;
  }

  method AcceptEdit(db: DbManager, self: Id, open: Opener, req: Request) returns (code: int)
    requires db.Valid() && req.EditReq?
    modifies db`messages
    ensures db.Valid()
    ensures Handled(db.messages, code) == Handle(self, old(db.messages), open, req)
  {
    if req.recipient != self { return 400; }
    var row := db.GetMessage(req.id);
    if row.None? { return 404; }
    var text := open(req.ciphertext, req.sender, self);
    if text.None? { return 400; }
    db.UpdateMessageEdit(req.id, text.value, req.ciphertext, req.editedAt);
    db.MarkEditAccepted(req.id, None);
    return 200;
  }

  method AcceptDelete(db: DbManager, self: Id, open: Opener, req: Request) returns (code: int)
    requires db.Valid() && req.DeleteReq?
    modifies db`messages
    ensures db.Valid()
    ensures Handled(db.messages, code) == Handle(self, old(db.messages), open, req)
  {
    if req.recipient != self { return 400; }
    var row := db.GetMessage(req.id);
    if row.None? { return 200; }
    if row.value.sender != req.sender { return 400; }
    db.MarkDeleted(req.id);
    return 200;
  }

  // ---------------------------------------------------------------- one POST

  /** send_message: None when no reply came back. */
  method SendRequest(c: Cluster, self: Id, open: Opener, req: Request, call: Call) returns (status: Option<int>)
    requires Ready(c) && self in c
    modifies c.Values`messages
    ensures Ready(c)
    ensures Sent(WorldOf(c), status == Some(200)) == Post(old(WorldOf(c)), self, open, req, call)
  {
    if call.Lost? || req.recipient !in c || req.recipient == self { return None; }
    var peer := c[req.recipient];
    var code;
    match req {
      case MessageReq(_, _, _, _, _, _) => code := AcceptMessage(peer, req.recipient, open, req);
      case EditReq(_, _, _, _, _) => code := AcceptEdit(peer, req.recipient, open, req);
      case DeleteReq(_, _, _) => code := AcceptDelete(peer, req.recipient, open, req);
    }
    assert WorldOf(c) == old(WorldOf(c))[req.recipient := peer.messages];
    status := if call.Answered? then Some(code) else None;
  }

  lemma WorldStep(c: Cluster, w: World, n: Id, t: Table)
    requires n in c && w.Keys == c.Keys && (forall x | x in c && x != n :: c[x].messages == w[x]) && c[n].messages == t
    ensures WorldOf(c) == w[n := t]
  {
  }

  /** The UPDATE that follows a 200. */
  method Acknowledge(c: Cluster, self: Id, req: Request, to: Option<Id>)
    requires Ready(c) && self in c
    requires req.MessageReq? ==> to.Some?
    modifies c.Values`messages
    ensures Ready(c)
    ensures WorldOf(c) == old(WorldOf(c))[self := Mark(old(c[self].messages), req.id, to, AckFlag(req))]
  {
    ghost var w := WorldOf(c);
    var db := c[self];
    match req {
      case MessageReq(_, _, _, _, _, _) => db.MarkAccepted(req.id, to.value);
      case EditReq(_, _, _, _, _) => db.MarkEditAccepted(req.id, to);
      case DeleteReq(_, _, _) => db.MarkDeleteAccepted(req.id, to);
    }
    WorldStep(c, w, self, db.messages);
  }

  // ---------------------------------------------------------------- delivery

  /** deliver_message_edit and deliver_message_delete (no recipient in the UPDATE), and
      retry_deliver_message, retry_message_edit and retry_message_delete (with one). */
  method Deliver(c: Cluster, self: Id, open: Opener, req: Request, to: Option<Id>, call: Call) returns (delivered: bool)
    requires Ready(c) && self in c
    requires req.MessageReq? ==> to.Some?
    modifies c.Values`messages
    ensures Ready(c)
    ensures Sent(WorldOf(c), delivered)
         == Attempt(old(WorldOf(c)), self, open, req, to, Routed(c[self].contacts, req.recipient, call))
  {
    var db := c[self];
    var address := db.GetContactAddress(req.recipient);
    if address == "" { return false; }
    var status := SendRequest(c, self, open, req, call);
    delivered := status == Some(200);
    if delivered {
      Acknowledge(c, self, req, to);
    }
  }

  /** A new message that its recipient can read. */
  ghost predicate Readable(w: World, open: Opener, id: Id, a: Id, to: Id, cipher: string, text: Text) {
    (forall n | n in w :: id !in w[n]) && open(cipher, a, to) == Some(text)
  }

  /** The recipient is a contact with an address, its node is another one, and its answer comes back. */
  predicate CanAnswer(w: World, contacts: map<Id, Contact>, a: Id, to: Id, call: Call) {
    to in contacts && contacts[to].address != "" && to in w && to != a && call == Answered
  }

  lemma AnswerIff(w: World, a: Id, open: Opener, m: Message, contacts: map<Id, Contact>, call: Call)
    requires a in w && m == NewMessage(m.id, a, m.recipient, m.group, m.plaintext, m.ciphertext, PENDING, m.timestamp)
    ensures Readable(w, open, m.id, a, m.recipient, m.ciphertext, m.plaintext) ==>
              (SendMessage(w, a, open, m, Routed(contacts, m.recipient, call)).ok
               <==> CanAnswer(w, contacts, a, m.recipient, call))
  {
    if Readable(w, open, m.id, a, m.recipient, m.ciphertext, m.plaintext) {
      Outcomes.SentIff(w, a, open, m, m.plaintext, Routed(contacts, m.recipient, call));
    }
  }

  /** deliver_message: with no address the POST is made all the same, to nowhere. */
  method DeliverMessage(c: Cluster, self: Id, open: Opener, id: Id, to: Id, cipher: string, text: Text, time: int,
                        call: Call) returns (sent: Option<Id>)
    requires Ready(c) && self in c
    modifies c.Values`messages
    ensures Ready(c)
    ensures
      var m := NewMessage(id, self, to, "", text, cipher, PENDING, time);
      Sent(WorldOf(c), sent == Some(id))
        == SendMessage(old(WorldOf(c)), self, open, m, Routed(c[self].contacts, to, call))
    ensures sent.Some? ==> sent.value == id
    ensures Readable(old(WorldOf(c)), open, id, self, to, cipher, text) ==>
              (sent.Some? <==> CanAnswer(old(WorldOf(c)), c[self].contacts, self, to, call))
  {
    hide Readable, CanAnswer;
    var db := c[self];
    ghost var w := WorldOf(c);
    var m := Message(id, self, to, "", text, cipher, PENDING, time, 0, 0, 1, 0);
    var added := db.AddMessage(m);
    AnswerIff(w, self, open, m, db.contacts, call);
    if !added {
      WorldStep(c, w, self, w[self]);
      return None;
    }
    WorldStep(c, w, self, db.messages);
    assert WorldOf(c) == w[self := Put(w[self], id, Some(m))];
    var address := db.GetContactAddress(to);
    var req := RequestOf(Op.Messages, m);
    var status := SendRequest(c, self, open, req, if address == "" then Lost else call);
    if status != Some(200) { return None; }
    Acknowledge(c, self, req, Some(to));
    return Some(id);
  }

  // ---------------------------------------------------------------- routes

  /** Of any two tables: a send reports success exactly if neither end had the id, the recipient could
      read the message, and it answered; and then it is with both nodes, marked delivered. */
  lemma SentMeans(w: World, a: Id, open: Opener, m: Message, call: Call)
    requires a in w && m.sender == a && m.editedAt == 0 && m.deleteAccepted == 1 && m.deletedAt == 0
    ensures
      var s, b := SendMessage(w, a, open, m, call), m.recipient;
      && (s.ok <==> && m.id !in w[a] && b in w && b != a && m.id !in w[b]
                    && open(m.ciphertext, a, b).Some? && call == Answered)
      && (s.ok ==>
            && Get(s.world[a], m.id) == Some(m.(accepted := 1))
            && Get(s.world[b], m.id) == Some(Message(m.id, a, b, m.group, open(m.ciphertext, a, b).value,
                                                       m.ciphertext, 1, m.timestamp, 0, 0, 1, 0)))
  {
  }

  /** The send_message route after authentication; cipher is what encrypt_message returned. The
      user is told 400 although a stored message will be retried. */
  method SendRoute(c: Cluster, self: Id, open: Opener, id: Id, to: Id, cipher: Option<string>, text: Text, time: int,
                   call: Call) returns (code: int)
    requires Ready(c) && self in c
    modifies c.Values`messages
    ensures Ready(c)
    ensures WorldOf(c) == Apply(old(WorldOf(c)), open,
                                Send(self, id, to, "", text, cipher, time, Routed(c[self].contacts, to, call)))
    ensures code == 200 || code == 400
    ensures code == 200 <==> (
              && cipher.Some?
              && var m := NewMessage(id, self, to, "", text, cipher.value, PENDING, time);
                 SendMessage(old(WorldOf(c)), self, open, m, Routed(c[self].contacts, to, call)).ok)
    ensures cipher.Some? && Readable(old(WorldOf(c)), open, id, self, to, cipher.value, text) ==>
              (code == 200 <==> CanAnswer(old(WorldOf(c)), c[self].contacts, self, to, call))
  {
    hide SendMessage, Readable, CanAnswer;
    if cipher.None? { return 400; }
    var sent := DeliverMessage(c, self, open, id, to, cipher.value, text, time, call);
    if sent.None? { return 400; }
    return 200;
  }

  method EditRoute(c: Cluster, self: Id, open: Opener, id: Id, cipher: Option<string>, text: Text, time: int,
                   call: Call) returns (code: int)
    requires Ready(c) && self in c
    modifies c.Values`messages
    ensures Ready(c)
    ensures
      var t := old(c[self].messages);
      var route := if id in t then Routed(c[self].contacts, t[id].recipient, call) else call;
      && WorldOf(c) == Apply(old(WorldOf(c)), open, Edit(self, id, text, cipher, time, route))
      && code == if id !in t then 404 else if t[id].sender != self then 403 else if cipher.None? then 400 else 200
  {
    hide Attempt;
    var db := c[self];
    ghost var w := WorldOf(c);
    var row := db.GetMessage(id);
    if row.None? { return 404; }
    var m := row.value;
    if m.sender != self { return 403; }
    if cipher.None? { return 400; }
    db.UpdateMessageEdit(id, text, cipher.value, time);
    WorldStep(c, w, self, db.messages);
    var delivered := Deliver(c, self, open, EditReq(id, self, m.recipient, cipher.value, time), None, call);
    return 200;
  }

  /** mark_deleted and mark_delete_pending. */
  method Tombstone(c: Cluster, self: Id, id: Id, time: int)
    requires Ready(c) && self in c && id in c[self].messages
    modifies c.Values`messages
    ensures Ready(c)
    ensures
      var t := old(c[self].messages);
      WorldOf(c) == old(WorldOf(c))[self := t[id := t[id].(accepted := 3, deleteAccepted := 0, deletedAt := time)]]
  {
    ghost var w := WorldOf(c);
    var db := c[self];
    db.MarkDeleted(id);
    db.MarkDeletePending(id, time);
    assert db.messages == w[self][id := DeleteRow(w[self][id], time)];
    WorldStep(c, w, self, db.messages);
  }

  method DeleteRoute(c: Cluster, self: Id, open: Opener, id: Id, time: int, call: Call) returns (code: int)
    requires Ready(c) && self in c
    modifies c.Values`messages
    ensures Ready(c)
    ensures
      var t := old(c[self].messages);
      var route := if id in t then Routed(c[self].contacts, t[id].recipient, call) else call;
      && WorldOf(c) == Apply(old(WorldOf(c)), open, Delete(self, id, time, route))
      && code == if id !in t then 404 else if t[id].sender != self then 403 else 200
  {
    hide Attempt;
    var db := c[self];
    var row := db.GetMessage(id);
    if row.None? { return 404; }
    var m := row.value;
    if m.sender != self { return 403; }
    Tombstone(c, self, id, time);
    var delivered := Deliver(c, self, open, DeleteReq(id, self, m.recipient), None, call);
    return 200;
  }
}
