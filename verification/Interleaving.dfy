/** The same protocol with nothing assumed atomic but a single database write and a single
    handler run. A request, once posted, may be handled at any later time or never; an
    acknowledgement may be applied at any later time or never; and a worker acts on the rows
    it listed, however old those have become. What survives is stated here, and so is what does not. */
module Interleaving {
  import opened Common
  import opened Messages
  import opened Replication

  /** The text a sender's row held at some moment. */
  datatype Version = Version(id: Id, sender: Id, recipient: Id, group: Id,
                             plaintext: Text, ciphertext: string, timestamp: int, editedAt: int)

  function VersionOf(m: Message): Version {
    Version(m.id, m.sender, m.recipient, m.group, m.plaintext, m.ciphertext, m.timestamp, m.editedAt)
  }

  /** sent: every POST made so far; acked: those answered 200; lists: what each worker loop
      still works through; deleting: delete routes between their two statements; versions: the
      texts each sender row has held (history only). */
  datatype Net = Net(world: World, sent: set<Request>, acked: set<Request>,
                     lists: map<(Id, Op), set<Message>>, deleting: multiset<(Id, Id)>, versions: set<Version>)

  datatype Step =
    | Insert(who: Id, m: Message)
    | Edit(who: Id, id: Id, text: Text, cipher: string, time: int)
    | Delete(who: Id, id: Id)
    | Pend(who: Id, id: Id, time: int)
    | Take(who: Id, op: Op)
    | Resend(who: Id, op: Op, m: Message)
    | GiveUp(who: Id, op: Op, m: Message, now: int)
    | Deliver(req: Request)
    | Acknowledge(req: Request, to: Option<Id>)

  function Listed(f: Net, n: Id, op: Op): set<Message> {
    if (n, op) in f.lists then f.lists[(n, op)] else {}
  }

  ghost predicate Enabled(f: Net, open: Opener, s: Step) {
    match s
    case Insert(n, m) =>
      && n in f.world
      && m == NewMessage(m.id, n, m.recipient, m.group, m.plaintext, m.ciphertext, PENDING, m.timestamp)
      && open(m.ciphertext, n, m.recipient) == Some(m.plaintext)
      && (forall x | x in f.world :: m.id !in f.world[x])
    case Edit(n, id, text, cipher, time) =>
      && n in f.world && id in f.world[n] && f.world[n][id].sender == n && time > 0
      && open(cipher, n, f.world[n][id].recipient) == Some(text)
    case Delete(n, id) => n in f.world && id in f.world[n] && f.world[n][id].sender == n
    case Pend(n, id, time) =>
      && n in f.world && id in f.world[n] && f.world[n][id].sender == n && time > 0
      && (n, id) in f.deleting
    case Take(n, op) => n in f.world
    case Resend(n, op, m) => n in f.world && m in Listed(f, n, op)
    case GiveUp(n, op, m, now) => n in f.world && m in Listed(f, n, op) && Expired(op, m, now)
    case Deliver(req) => req in f.sent && req.recipient in f.world && req.recipient != req.sender
    case Acknowledge(req, to) =>
      req in f.acked && req.sender in f.world && (to.None? || to == Some(req.recipient))
  }

  function Write(f: Net, n: Id, id: Id, m: Message, req: Request): Net
    requires n in f.world
  {
    f.(world := f.world[n := f.world[n][id := m]], sent := f.sent + {req}, versions := f.versions + {VersionOf(m)})
  }

  ghost function Apply(f: Net, open: Opener, s: Step): Net
    requires Enabled(f, open, s)
  {
    match s
    case Insert(n, m) => Write(f, n, m.id, m, RequestOf(Op.Messages, m))
    case Edit(n, id, text, cipher, time) =>
      var m := EditRow(f.world[n][id], text, cipher, time);
      Write(f, n, id, m, RequestOf(Edits, m))
    case Delete(n, id) =>
      f.(world := f.world[n := f.world[n][id := f.world[n][id].(accepted := DELETED)]],
         deleting := f.deleting + multiset{(n, id)})
    case Pend(n, id, time) =>
      var m := f.world[n][id].(deleteAccepted := 0, deletedAt := time);
      Write(f, n, id, m, RequestOf(Deletes, m)).(deleting := f.deleting - multiset{(n, id)})
    case Take(n, op) =>
      f.(lists := f.lists[(n, op) := set id | id in f.world[n] && IsPending(op, f.world[n][id]) :: f.world[n][id]])
    case Resend(n, op, m) => f.(sent := f.sent + {RequestOf(op, m)})
    case GiveUp(n, op, m, now) => f.(world := f.world[n := Mark(f.world[n], m.id, None, FailFlag(op))])
    case Deliver(req) =>
      var rep := Handle(req.recipient, f.world[req.recipient], open, req);
      f.(world := f.world[req.recipient := rep.table],
         acked := if rep.code == 200 then f.acked + {req} else f.acked)
    case Acknowledge(req, to) =>
      f.(world := f.world[req.sender := Mark(f.world[req.sender], req.id, to, AckFlag(req))])
  }

  // ---------------------------------------------------------------- the invariant

  predicate Holds(w: World, n: Id, id: Id) {
    n in w && id in w[n]
  }

  /** The text of a received row is one its sender's row held; if the row is marked as edited,
      text and time together are one edit the sender made. */
  ghost predicate Told(f: Net, m: Message) {
    exists v | v in f.versions ::
      && v.id == m.id && v.sender == m.sender && v.recipient == m.recipient
      && v.plaintext == m.plaintext && (m.editedAt != 0 ==> v.editedAt == m.editedAt)
  }

  ghost predicate RowGood(f: Net, n: Id, id: Id) {
    Holds(f.world, n, id) ==>
      var m := f.world[n][id];
      && m.id == id
      && (m.sender == n ==>
            && VersionOf(m) in f.versions
            && (m.accepted == DELIVERED ==> Holds(f.world, m.recipient, id))
            && (m.editedAt != 0 && m.editAccepted == 1 ==>
                  Holds(f.world, m.recipient, id) && f.world[m.recipient][id].editedAt != 0))
      && (m.sender != n ==>
            && m.recipient == n && Told(f, m)
            && (m.accepted == DELIVERED || m.accepted == DELETED)
            && (m.editedAt != 0 ==> m.editAccepted == 1) && m.deleteAccepted == 1)
  }

  predicate VersionGood(f: Net, open: Opener, v: Version) {
    && Holds(f.world, v.sender, v.id)
    && f.world[v.sender][v.id].sender == v.sender && f.world[v.sender][v.id].recipient == v.recipient
    && open(v.ciphertext, v.sender, v.recipient) == Some(v.plaintext)
  }

  predicate Matches(req: Request, v: Version) {
    && v.id == req.id && v.sender == req.sender && v.recipient == req.recipient
    && (req.MessageReq? ==> v.ciphertext == req.ciphertext)
    && (req.EditReq? ==> v.ciphertext == req.ciphertext && v.editedAt == req.editedAt != 0)
  }

  ghost predicate RequestGood(f: Net, req: Request) {
    exists v | v in f.versions :: Matches(req, v)
  }

  predicate AckGood(f: Net, req: Request) {
    && req in f.sent
    && (req.MessageReq? ==> Holds(f.world, req.recipient, req.id))
    && (req.EditReq? ==> Holds(f.world, req.recipient, req.id) && f.world[req.recipient][req.id].editedAt != 0)
  }

  predicate ListGood(f: Net, n: Id, op: Op, m: Message) {
    m.sender == n && VersionOf(m) in f.versions && IsPending(op, m)
  }

  ghost predicate Rows(f: Net) { forall n, id :: RowGood(f, n, id) }

  ghost predicate Versions(f: Net, open: Opener) { forall v | v in f.versions :: VersionGood(f, open, v) }

  /** An id belongs to one sender and one recipient. */
  ghost predicate OneOwner(vs: set<Version>) {
    forall v, v' | v in vs && v' in vs && v.id == v'.id :: v.sender == v'.sender && v.recipient == v'.recipient
  }

  ghost predicate Requests(f: Net) { forall req | req in f.sent :: RequestGood(f, req) }

  ghost predicate Acks(f: Net) { forall req | req in f.acked :: AckGood(f, req) }

  ghost predicate Lists(f: Net) { forall n, op, m | m in Listed(f, n, op) :: ListGood(f, n, op, m) }

  ghost predicate Inv(f: Net, open: Opener) {
    Rows(f) && Versions(f, open) && OneOwner(f.versions) && Requests(f) && Acks(f) && Lists(f)
  }

  // ---------------------------------------------------------------- preservation

  /** Nothing is ever forgotten: rows stay, keep their two ends, and stay edited. */
  ghost predicate Grows(f: Net, f': Net) {
    && f'.world.Keys == f.world.Keys && f.versions <= f'.versions && f.sent <= f'.sent
    && (forall n, id | Holds(f.world, n, id) ::
          && Holds(f'.world, n, id)
          && f'.world[n][id].sender == f.world[n][id].sender
          && f'.world[n][id].recipient == f.world[n][id].recipient
          && (f.world[n][id].editedAt != 0 ==> f'.world[n][id].editedAt != 0))
  }

  lemma TellMore(f: Net, f': Net, m: Message)
    requires Told(f, m) && f.versions <= f'.versions
    ensures Told(f', m)
  {
  }

  /** Rows that a growing step leaves alone stay good, and so does everything already recorded. */
  lemma KeepGood(f: Net, f': Net, open: Opener)
    requires Inv(f, open) && Grows(f, f')
    ensures forall n, id | Holds(f'.world, n, id) && Holds(f.world, n, id) && f'.world[n][id] == f.world[n][id] ::
              RowGood(f', n, id)
    ensures forall v | v in f.versions :: VersionGood(f', open, v)
    ensures forall req | req in f.sent :: RequestGood(f', req)
    ensures forall req | req in f.acked :: AckGood(f', req)
    ensures forall n, op, m | m in Listed(f, n, op) :: ListGood(f', n, op, m)
  {
    forall n, id | Holds(f'.world, n, id) && Holds(f.world, n, id) && f'.world[n][id] == f.world[n][id]
      ensures RowGood(f', n, id)
    {
      assert RowGood(f, n, id);
    }
    forall req | req in f.sent ensures RequestGood(f', req) {
      assert RequestGood(f, req);
    }
    forall req | req in f.acked ensures AckGood(f', req) {
      assert AckGood(f, req);
    }
    forall v | v in f.versions ensures VersionGood(f', open, v) {
      assert VersionGood(f, open, v);
    }
  }

  /** Only the row of id at node n differs. */
  ghost predicate OnlyAt(w: World, w': World, n: Id, id: Id) {
    && w'.Keys == w.Keys
    && (forall x, y | x != n || y != id ::
          (Holds(w', x, y) <==> Holds(w, x, y)) && (Holds(w, x, y) ==> w'[x][y] == w[x][y]))
    && (Holds(w, n, id) ==>
          && Holds(w', n, id)
          && w'[n][id].sender == w[n][id].sender && w'[n][id].recipient == w[n][id].recipient
          && (w[n][id].editedAt != 0 ==> w'[n][id].editedAt != 0))
  }

  lemma GrowsAt(f: Net, f': Net, n: Id, id: Id)
    requires OnlyAt(f.world, f'.world, n, id) && f.versions <= f'.versions && f.sent <= f'.sent
    ensures Grows(f, f')
  {
    forall x, y | Holds(f.world, x, y)
      ensures Holds(f'.world, x, y) && f'.world[x][y].sender == f.world[x][y].sender
        && f'.world[x][y].recipient == f.world[x][y].recipient
        && (f.world[x][y].editedAt != 0 ==> f'.world[x][y].editedAt != 0)
    {
      if x != n || y != id { assert f'.world[x][y] == f.world[x][y]; }
    }
  }

  lemma RowsAt(f: Net, f': Net, open: Opener, n: Id, id: Id)
    requires Inv(f, open) && Grows(f, f') && OnlyAt(f.world, f'.world, n, id) && RowGood(f', n, id)
    ensures Rows(f')
  {
    KeepGood(f, f', open);
    forall x, y ensures RowGood(f', x, y) {
      if Holds(f'.world, x, y) && !(x == n && y == id) { assert f'.world[x][y] == f.world[x][y]; }
    }
  }

  lemma OneOwnerMore(vs: set<Version>, v: Version)
    requires OneOwner(vs)
    requires forall u | u in vs && u.id == v.id :: u.sender == v.sender && u.recipient == v.recipient
    ensures OneOwner(vs + {v})
  {
  }

  /** A step that changes one row, and records at most one more version, request and
      acknowledgement, keeps the invariant if each of those is good. */
  lemma Assemble(f: Net, f': Net, open: Opener, n: Id, id: Id, v: Version, req: Request)
    requires Inv(f, open) && OnlyAt(f.world, f'.world, n, id) && f'.lists == f.lists
    requires f'.versions == f.versions + {v} && VersionGood(f', open, v)
    requires forall u | u in f.versions && u.id == v.id :: u.sender == v.sender && u.recipient == v.recipient
    requires f'.sent == f.sent + {req} && Matches(req, v)
    requires f'.acked == f.acked || (f'.acked == f.acked + {req} && AckGood(f', req))
    requires RowGood(f', n, id)
    ensures Inv(f', open)
  {
    GrowsAt(f, f', n, id);
    assert Rows(f') by { RowsAt(f, f', open, n, id); }
    assert Versions(f', open) by { KeepGood(f, f', open); }
    OneOwnerMore(f.versions, v);
    assert Requests(f') by {
      KeepGood(f, f', open);
      assert RequestGood(f', req);
    }
    assert Acks(f') by { KeepGood(f, f', open); }
    assert Lists(f') by {
      KeepGood(f, f', open);
      forall x, op, m | m in Listed(f', x, op) ensures ListGood(f', x, op, m) { assert m in Listed(f, x, op); }
    }
  }

  /** What a local write that is followed by a POST does to the sender's row. */
  ghost predicate Writes(f: Net, open: Opener, n: Id, id: Id, m: Message, op: Op)
    requires n in f.world
  {
    && m.id == id && m.sender == n && open(m.ciphertext, n, m.recipient) == Some(m.plaintext)
    && if op == Op.Messages then
         m.accepted == PENDING && m.editedAt == 0 && forall x | x in f.world :: id !in f.world[x]
       else
         && Holds(f.world, n, id) && f.world[n][id].sender == n && f.world[n][id].recipient == m.recipient
         && m.accepted == f.world[n][id].accepted
         && (op == Edits ==> m.editedAt != 0 && m.editAccepted == 0)
         && (op == Deletes ==>
               && VersionOf(m) == VersionOf(f.world[n][id])
               && m.editAccepted == f.world[n][id].editAccepted)
  }

  lemma WriteKept(f: Net, f': Net, open: Opener, n: Id, id: Id, m: Message, op: Op)
    requires Inv(f, open) && n in f.world && Writes(f, open, n, id, m, op)
    requires f' == Write(f, n, id, m, RequestOf(op, m)).(deleting := f'.deleting)
    ensures Inv(f', open)
  {
    assert RowGood(f, n, id);
    forall u | u in f.versions && u.id == id ensures u.sender == n && u.recipient == m.recipient {
      assert VersionGood(f, open, u);
      if op != Op.Messages { assert VersionOf(f.world[n][id]) in f.versions; }
    }
    assert RowGood(f', n, id) by {
      if op != Op.Messages && m.accepted == DELIVERED {
        assert Holds(f.world, m.recipient, id);
      }
    }
    Assemble(f, f', open, n, id, VersionOf(m), RequestOf(op, m));
  }

  /** A change to the flags of one row that leaves it good keeps the invariant. */
  lemma FlagKept(f: Net, f': Net, open: Opener, n: Id, id: Id)
    requires Inv(f, open) && OnlyAt(f.world, f'.world, n, id) && RowGood(f', n, id)
    requires f' == f.(world := f'.world, deleting := f'.deleting)
    ensures Inv(f', open)
  {
    GrowsAt(f, f', n, id);
    KeepGood(f, f', open);
    RowsAt(f, f', open, n, id);
    forall x, op, m | m in Listed(f', x, op) ensures ListGood(f', x, op, m) { assert m in Listed(f, x, op); }
  }

  /** Marking a sender's own row changes nothing but the flag. */
  lemma MarkKept(f: Net, open: Opener, n: Id, id: Id, to: Option<Id>, flag: Flag)
    requires Inv(f, open) && Holds(f.world, n, id) && f.world[n][id].sender == n
    requires flag == Accepted ==> Holds(f.world, f.world[n][id].recipient, id)
    requires flag == EditAccepted ==>
      Holds(f.world, f.world[n][id].recipient, id) && f.world[f.world[n][id].recipient][id].editedAt != 0
    ensures Inv(f.(world := f.world[n := Mark(f.world[n], id, to, flag)]), open)
  {
    var f' := f.(world := f.world[n := Mark(f.world[n], id, to, flag)]);
    assert RowGood(f, n, id);
    assert f'.world[n][id] == f.world[n][id] || f'.world[n][id] == Flagged(f.world[n][id], flag);
    assert RowGood(f', n, id);
    FlagKept(f, f', open, n, id);
  }

  /** A row already at the recipient was put there by the same sender. */
  lemma SameSource(f: Net, open: Opener, v: Version)
    requires Inv(f, open) && v in f.versions && v.recipient != v.sender
    requires Holds(f.world, v.recipient, v.id)
    ensures f.world[v.recipient][v.id].sender == v.sender
  {
    var m := f.world[v.recipient][v.id];
    assert RowGood(f, v.recipient, v.id);
    assert if m.sender == v.recipient then VersionOf(m).id == v.id && VersionOf(m) in f.versions else Told(f, m);
  }

  /** The row a handler leaves behind is one the sender's history explains. */
  lemma DeliverRow(f: Net, open: Opener, req: Request, v: Version)
    requires Inv(f, open) && Enabled(f, open, Deliver(req))
    requires v in f.versions && Matches(req, v)
    ensures
      var f' := Apply(f, open, Deliver(req));
      OnlyAt(f.world, f'.world, req.recipient, req.id) && RowGood(f', req.recipient, req.id)
  {
    var f' := Apply(f, open, Deliver(req));
    var b, id := req.recipient, req.id;
    assert VersionGood(f, open, v) && RowGood(f, b, id);
    if Holds(f.world, b, id) {
      SameSource(f, open, v);
      var m, m' := f.world[b][id], f'.world[b][id];
      assert Told(f, m);
      assert Told(f', m') by {
        if m'.plaintext == m.plaintext && m'.editedAt == m.editedAt {
          TellMore(f, f', m);
        } else {
          assert v in f'.versions && m'.plaintext == v.plaintext;
        }
      }
    } else if Holds(f'.world, b, id) {
      assert v in f'.versions && f'.world[b][id].plaintext == v.plaintext;
      assert Told(f', f'.world[b][id]);
    }
  }

  /** A 200 means the recipient holds what the request was about. */
  lemma DeliverAcks(f: Net, open: Opener, req: Request)
    requires Enabled(f, open, Deliver(req))
    requires HandleRow(req.recipient, Get(f.world[req.recipient], req.id), open, req).code == 200
    requires req.EditReq? ==> req.editedAt != 0
    ensures AckGood(Apply(f, open, Deliver(req)), req)
  {
  }

  lemma DeliverKept(f: Net, open: Opener, req: Request)
    requires Inv(f, open) && Enabled(f, open, Deliver(req))
    ensures Inv(Apply(f, open, Deliver(req)), open)
  {
    hide HandleRow;
    var f' := Apply(f, open, Deliver(req));
    assert RequestGood(f, req);
    var v :| v in f.versions && Matches(req, v);
    DeliverRow(f, open, req, v);
    var rep := HandleRow(req.recipient, Get(f.world[req.recipient], req.id), open, req);
    if rep.code == 200 { DeliverAcks(f, open, req); }
    assert f'.versions == f.versions + {v} && f'.sent == f.sent + {req};
    GrowsAt(f, f', req.recipient, req.id);
    assert VersionGood(f', open, v) by { KeepGood(f, f', open); }
    Assemble(f, f', open, req.recipient, req.id, v, req);
  }

  lemma EditKept(f: Net, open: Opener, s: Step)
    requires Inv(f, open) && Enabled(f, open, s) && s.Edit?
    ensures Inv(Apply(f, open, s), open)
  {
    var n, id := s.who, s.id;
    assert RowGood(f, n, id);
    WriteKept(f, Apply(f, open, s), open, n, id, EditRow(f.world[n][id], s.text, s.cipher, s.time), Edits);
  }

  lemma DeleteKept(f: Net, open: Opener, s: Step)
    requires Inv(f, open) && Enabled(f, open, s) && s.Delete?
    ensures Inv(Apply(f, open, s), open)
  {
    var f' := Apply(f, open, s);
    assert RowGood(f, s.who, s.id);
    assert RowGood(f', s.who, s.id);
    FlagKept(f, f', open, s.who, s.id);
  }

  lemma PendKept(f: Net, open: Opener, s: Step)
    requires Inv(f, open) && Enabled(f, open, s) && s.Pend?
    ensures Inv(Apply(f, open, s), open)
  {
    var n, id := s.who, s.id;
    assert RowGood(f, n, id);
    assert VersionGood(f, open, VersionOf(f.world[n][id]));
    WriteKept(f, Apply(f, open, s), open, n, id, f.world[n][id].(deleteAccepted := 0, deletedAt := s.time), Deletes);
  }

  lemma TakeKept(f: Net, open: Opener, s: Step)
    requires Inv(f, open) && Enabled(f, open, s) && s.Take?
    ensures Inv(Apply(f, open, s), open)
  {
    var f' := Apply(f, open, s);
    KeepGood(f, f', open);
    forall x, y ensures RowGood(f', x, y) { assert RowGood(f, x, y); }
    forall m | m in Listed(f', s.who, s.op) ensures ListGood(f', s.who, s.op, m) {
      assert RowGood(f, s.who, m.id);
    }
  }

  lemma ResendKept(f: Net, open: Opener, s: Step)
    requires Inv(f, open) && Enabled(f, open, s) && s.Resend?
    ensures Inv(Apply(f, open, s), open)
  {
    var f' := Apply(f, open, s);
    KeepGood(f, f', open);
    forall x, y ensures RowGood(f', x, y) { assert RowGood(f, x, y); }
    assert ListGood(f, s.who, s.op, s.m);
    assert Matches(RequestOf(s.op, s.m), VersionOf(s.m));
  }

  lemma GiveUpKept(f: Net, open: Opener, s: Step)
    requires Inv(f, open) && Enabled(f, open, s) && s.GiveUp?
    ensures Inv(Apply(f, open, s), open)
  {
    assert ListGood(f, s.who, s.op, s.m);
    assert VersionGood(f, open, VersionOf(s.m));
    MarkKept(f, open, s.who, s.m.id, None, FailFlag(s.op));
  }

  lemma AcknowledgeKept(f: Net, open: Opener, s: Step)
    requires Inv(f, open) && Enabled(f, open, s) && s.Acknowledge?
    ensures Inv(Apply(f, open, s), open)
  {
    assert AckGood(f, s.req) && RequestGood(f, s.req);
    var v :| v in f.versions && Matches(s.req, v);
    assert VersionGood(f, open, v);
    MarkKept(f, open, s.req.sender, s.req.id, s.to, AckFlag(s.req));
  }

  /** The invariant survives every step, however stale. */
  lemma InvKept(f: Net, open: Opener, s: Step)
    requires Inv(f, open) && Enabled(f, open, s)
    ensures Inv(Apply(f, open, s), open)
  {
    hide HandleRow;
    match s
    case Insert(n, m) => WriteKept(f, Apply(f, open, s), open, n, m.id, m, Op.Messages);
    case Edit(_, _, _, _, _) => EditKept(f, open, s);
    case Delete(_, _) => DeleteKept(f, open, s);
    case Pend(_, _, _) => PendKept(f, open, s);
    case Take(_, _) => TakeKept(f, open, s);
    case Resend(_, _, _) => ResendKept(f, open, s);
    case GiveUp(_, _, _, _) => GiveUpKept(f, open, s);
    case Deliver(req) => DeliverKept(f, open, req);
    case Acknowledge(_, _) => AcknowledgeKept(f, open, s);
  }
}
