/** What each operation leaves behind, in plain values: what a user sees after a send, an edit or a
    delete, what a handler answers, and when the worker gives up. Statuses are written as the numbers
    the tables hold: 0 pending, 1 delivered, 2 failed, 3 deleted. */
module Outcomes {
  import opened Common
  import opened Messages
  import opened Replication
  import opened Protocol
  import opened Agreement
  import GroupMessages

  /** Only rows of this id at these two nodes differ. */
  ghost predicate OnlyAt(w: World, w': World, a: Id, b: Id, id: Id) {
    && w'.Keys == w.Keys
    && forall n, k | n in w && !(k == id && (n == a || n == b)) :: Get(w'[n], k) == Get(w[n], k)
  }

  // ---------------------------------------------------------------- the handlers

  /** accept_message stores a readable message addressed to this node under a new id, as delivered,
      and answers 200; otherwise it changes nothing. */
  lemma MessageHandled(self: Id, t: Table, open: Opener, id: Id, from: Id, to: Id, group: Id, cipher: string, time: int)
    ensures
      var r := Handle(self, t, open, MessageReq(id, from, to, group, cipher, time));
      && (r.code == 200 <==> to == self && open(cipher, from, self).Some? && id !in t)
      && (r.code == 200 ==>
            r.table == t[id := Message(id, from, to, group, open(cipher, from, self).value, cipher,
                                       1, time, 0, 0, 1, 0)])
      && (r.code != 200 ==> r.table == t)
      && (to != self || open(cipher, from, self).None? ==> r.code == 400)
      && (to == self && open(cipher, from, self).Some? && id in t ==> r.code == 500)
  {
  }

  /** accept_edit overwrites text and edit time of a row it has, whatever they were. */
  lemma EditHandled(self: Id, t: Table, open: Opener, id: Id, from: Id, to: Id, cipher: string, at: int)
    ensures
      var r := Handle(self, t, open, EditReq(id, from, to, cipher, at));
      && (r.code == 200 <==> to == self && id in t && open(cipher, from, self).Some?)
      && (r.code == 200 ==>
            r.table == t[id := t[id].(plaintext := open(cipher, from, self).value, ciphertext := cipher,
                                      editedAt := at, editAccepted := 1)])
      && (r.code != 200 ==> r.table == t)
      && (to == self && id !in t ==> r.code == 404)
      && (to != self || (id in t && open(cipher, from, self).None?) ==> r.code == 400)
  {
  }

  /** accept_delete tombstones the sender's own row, and answers 200 for a row it never had. */
  lemma DeleteHandled(self: Id, t: Table, open: Opener, id: Id, from: Id, to: Id)
    ensures
      var r := Handle(self, t, open, DeleteReq(id, from, to));
      && (r.code == 200 <==> to == self && (id in t ==> t[id].sender == from))
      && (r.code == 200 && id in t ==> r.table == t[id := t[id].(accepted := 3)])
      && (r.code != 200 || id !in t ==> r.table == t)
      && (r.code != 200 ==> r.code == 400)
  {
  }

  // ---------------------------------------------------------------- sending

  /** A POST from a to b is handled; and its answer comes back. */
  predicate Handles(w: World, a: Id, b: Id, call: Call) {
    b in w && b != a && (call == ReplyLost || call == Answered)
  }

  predicate Answers(w: World, a: Id, b: Id, call: Call) {
    b in w && b != a && call == Answered
  }

  /** A fresh message: reported sent, and marked delivered, exactly if the recipient answered;
      otherwise pending. The recipient has it exactly if the POST was handled. Nothing else changes. */
  lemma SentIff(w: World, a: Id, open: Opener, m: Message, text: Text, call: Call)
    requires a in w && (forall n | n in w :: m.id !in w[n])
    requires m == Message(m.id, a, m.recipient, m.group, m.plaintext, m.ciphertext, 0, m.timestamp, 0, 0, 1, 0)
    requires open(m.ciphertext, a, m.recipient) == Some(text)
    ensures
      var s, b := SendMessage(w, a, open, m, call), m.recipient;
      && (s.ok <==> Answers(w, a, b, call))
      && Get(s.world[a], m.id) == Some(m.(accepted := if Answers(w, a, b, call) then 1 else 0))
      && (Handles(w, a, b, call) ==>
            Get(s.world[b], m.id)
              == Some(Message(m.id, a, b, m.group, text, m.ciphertext, 1, m.timestamp, 0, 0, 1, 0)))
      && (b in w && b != a && !Handles(w, a, b, call) ==> m.id !in s.world[b])
      && OnlyAt(w, s.world, a, b, m.id)
  {
  }

  /** The send step as a user sees it. */
  lemma SendStep(w: World, open: Opener, s: Step)
    requires Enabled(w, open, s) && s.Send?
    ensures s.cipher.None? ==> Apply(w, open, s) == w
    ensures s.cipher.Some? ==>
      var w', a, b := Apply(w, open, s), s.who, s.to;
      var m := Message(s.id, a, b, s.group, s.text, s.cipher.value, 0, s.time, 0, 0, 1, 0);
      && Get(w'[a], s.id) == Some(m.(accepted := if Answers(w, a, b, s.call) then 1 else 0))
      && (Handles(w, a, b, s.call) ==> Get(w'[b], s.id) == Some(m.(accepted := 1)))
      && OnlyAt(w, w', a, b, s.id)
  {
    if s.cipher.Some? {
      var m := NewMessage(s.id, s.who, s.to, s.group, s.text, s.cipher.value, PENDING, s.time);
      SentIff(w, s.who, open, m, s.text, s.call);
    }
  }

  /** "Delivered" is shown for a group message exactly if there is no other member, or a single one
      for whom encryption worked, who has an address, and who answered. */
  lemma GroupSentIff(w: World, a: Id, open: Opener, id: Id, group: Id, text: Text, time: int,
                     members: seq<GroupMessages.Addressee>, calls: Id -> Call)
    requires a in w && (forall n | n in w :: id !in w[n])
    requires forall m | m in members && m.cipher.Some? :: open(m.cipher.value, a, m.id) == Some(text)
    ensures
      var others := GroupMessages.Others(members, a);
      GroupMessages.GroupSend(w, a, open, id, group, text, time, members, calls).ok <==>
        || |others| == 0
        || (|others| == 1 && others[0].cipher.Some? && others[0].address != ""
            && Answers(w, a, others[0].id, calls(others[0].id)))
  {
    GroupMessages.GroupSendFlag(w, a, open, id, group, text, time, members, calls);
    var others := GroupMessages.Others(members, a);
    if |others| == 1 && others[0].cipher.Some? {
      OthersAreMembers(members, a);
      var to := others[0];
      var m := NewMessage(id, a, to.id, group, text, to.cipher.value, PENDING, time);
      SentIff(w, a, open, m, text, if to.address == "" then Lost else calls(to.id));
    }
  }

  lemma {:induction false} OthersAreMembers(members: seq<GroupMessages.Addressee>, a: Id)
    ensures forall m :: m in GroupMessages.Others(members, a) <==> m in members && m.id != a
    decreases |members|
  {
    if members != [] {
      assert members == Front(members) + [Last(members)];
      OthersAreMembers(Front(members), a);
    }
  }

  // ---------------------------------------------------------------- editing and deleting

  /** The author may edit; the new text and time are stored as a pending edit, which is acknowledged
      exactly if the recipient had the message and answered. A recipient who handles it shows it. */
  lemma EditStep(w: World, open: Opener, s: Step)
    requires Enabled(w, open, s) && s.Edit?
    ensures (s.id !in w[s.who] || w[s.who][s.id].sender != s.who || s.cipher.None?) ==> Apply(w, open, s) == w
    ensures s.id in w[s.who] && w[s.who][s.id].sender == s.who && w[s.who][s.id].id == s.id && s.cipher.Some? ==>
      var w', a, m := Apply(w, open, s), s.who, w[s.who][s.id];
      var b := m.recipient;
      var acked := Answers(w, a, b, s.call) && s.id in w[b];
      && Get(w'[a], s.id) == Some(m.(plaintext := s.text, ciphertext := s.cipher.value, editedAt := s.time,
                                     editAccepted := if acked then 1 else 0))
      && (Handles(w, a, b, s.call) && s.id in w[b] ==>
            Get(w'[b], s.id) == Some(w[b][s.id].(plaintext := s.text, ciphertext := s.cipher.value,
                                                 editedAt := s.time, editAccepted := 1)))
      && (b in w && b != a && !(Handles(w, a, b, s.call) && s.id in w[b]) ==> Get(w'[b], s.id) == Get(w[b], s.id))
      && OnlyAt(w, w', a, b, s.id)
  {
  }

  /** The author may delete; the row is a tombstone with a pending delete of that moment, which is
      acknowledged exactly if the recipient answered. A recipient who handles it has a tombstone too. */
  lemma DeleteStep(w: World, open: Opener, s: Step)
    requires Enabled(w, open, s) && s.Delete?
    ensures (s.id !in w[s.who] || w[s.who][s.id].sender != s.who) ==> Apply(w, open, s) == w
    ensures s.id in w[s.who] && w[s.who][s.id].sender == s.who && w[s.who][s.id].id == s.id ==>
      var w', a, m := Apply(w, open, s), s.who, w[s.who][s.id];
      var b := m.recipient;
      var known := b in w && s.id in w[b];
      var mine := known ==> w[b][s.id].sender == a;
      && Get(w'[a], s.id) == Some(m.(accepted := 3, deletedAt := s.time,
                                     deleteAccepted := if Answers(w, a, b, s.call) && mine then 1 else 0))
      && (Handles(w, a, b, s.call) && known && mine ==> Get(w'[b], s.id) == Some(w[b][s.id].(accepted := 3)))
      && (b in w && b != a && !(Handles(w, a, b, s.call) && known && mine) ==> Get(w'[b], s.id) == Get(w[b], s.id))
      && OnlyAt(w, w', a, b, s.id)
  {
  }

  // ---------------------------------------------------------------- one retry, and the 24-hour rule

  /** When the message, the edit or the delete in a row began. */
  function Since(op: Op, m: Message): int {
    match op
    case Messages => m.timestamp
    case Edits => m.editedAt
    case Deletes => m.deletedAt
  }

  /** The number that says how it stands. */
  function Standing(op: Op, m: Message): int {
    match op
    case Messages => m.accepted
    case Edits => m.editAccepted
    case Deletes => m.deleteAccepted
  }

  predicate Awaits(op: Op, m: Message) {
    match op
    case Messages => m.accepted == 0
    case Edits => m.editedAt != 0 && m.editAccepted == 0
    case Deletes => m.accepted == 3 && m.deleteAccepted == 0
  }

  /** The retry comes back with 200: the peer answered, and did not have the message yet, or does
      have it to edit, or has nothing to say against the delete. */
  predicate RetryAcked(w: World, a: Id, id: Id, op: Op, calls: Schedule)
    requires a in w && id in w[a]
  {
    var m := w[a][id];
    && Answers(w, a, m.recipient, calls(op, id))
    && match op
       case Messages => id !in w[m.recipient]
       case Edits => id in w[m.recipient] || (m.accepted == 0 && Handles(w, a, m.recipient, calls(Op.Messages, id)))
       case Deletes => true
  }

  /** What a worker round at its author does to a row's message, edit or delete: if it is pending, it is
      accepted, or given up when more than a day old, or still pending; and otherwise it stands as before. */
  lemma RetryIff(open: Opener, w: World, worker: Step, a: Id, id: Id, op: Op)
    requires Inv(open, w) && Enabled(w, open, worker) && worker.Worker? && worker.who == a
    requires id in w[a] && w[a][id].sender == a
    ensures
      var w' := Apply(w, open, worker);
      && id in w'[a]
      && Standing(op, w'[a][id]) == if !Awaits(op, w[a][id]) then Standing(op, w[a][id])
                                    else if RetryAcked(w, a, id, op, worker.calls) then 1
                                    else if worker.now - Since(op, w[a][id]) > 86400 then 2 else 0
  {
    hide RoundSlice, Sound, Listing, Round, Distinct;
    var sl := SliceOf(w, id);
    assert SliceInv(open, sl, id) && RowOk(open, sl, a, id);
    InvKeysMatch(open, w, a);
    ApplySlices(w, open, worker, id);
    var m := w[a][id];
    if m.recipient in w && m.recipient != a { assert RowOk(open, sl, m.recipient, id); }
    RetrySliceIff(open, sl, a, id, worker.now, worker.calls, op);
    assert SliceOf(Apply(w, open, worker), id)[a] == Get(Apply(w, open, worker)[a], id);
  }

  lemma RowEnds(open: Opener, sl: Slice, a: Id, id: Id)
    requires SliceInv(open, sl, id) && Own(sl, a)
    ensures
      var m := sl[a].value;
      && m.id == id && m.sender == a && open(m.ciphertext, a, m.recipient).Some?
      && (m.accepted == DELETED ==> m.deletedAt != 0)
      && (Copy(sl, a).Some? ==> Copy(sl, a).value.sender == a)
  {
    assert RowOk(open, sl, a, id);
  }

  /** The same on the slice: only its own phase of the round changes each standing. */
  lemma RetrySliceIff(open: Opener, sl: Slice, a: Id, id: Id, now: int, calls: Schedule, op: Op)
    requires SliceInv(open, sl, id) && Own(sl, a)
    ensures
      var m, row, copy := sl[a].value, RoundSlice(sl, a, open, now, calls)[a], Copy(sl, a);
      var reached := m.recipient in sl && m.recipient != a;
      var acked := reached && calls(op, id) == Answered &&
        (match op
         case Messages => copy.None?
         case Edits => copy.Some? || (m.accepted == 0 && !calls(Op.Messages, id).Lost?)
         case Deletes => true);
      row.Some? && Standing(op, row.value) == if !Awaits(op, m) then Standing(op, m)
                                              else if acked then 1 else if now - Since(op, m) > 86400 then 2 else 0
  {
    hide RetryPending, SliceInv;
    RowEnds(open, sl, a, id);
    var m := sl[a].value;
    var s1 := RetryPending(sl, a, open, Op.Messages, m, now, calls);
    var s2 := RetryPending(s1, a, open, Edits, m, now, calls);
    RetryPendingIff(open, sl, a, Op.Messages, m, now, calls);
    RetryPendingIff(open, s1, a, Edits, m, now, calls);
    RetryPendingIff(open, s2, a, Deletes, m, now, calls);
  }

  /** One phase: the author's row, and whether the recipient holds the message afterwards. */
  lemma RetryPendingIff(open: Opener, sl: Slice, a: Id, op: Op, m: Message, now: int, calls: Schedule)
    requires a in sl && sl[a].Some? && m.sender == a && sl[a].value.recipient == m.recipient
    requires open(m.ciphertext, a, m.recipient).Some?
    requires m.recipient in sl && m.recipient != a && sl[m.recipient].Some? ==> sl[m.recipient].value.sender == a
    ensures
      var b, sl', call := m.recipient, RetryPending(sl, a, open, op, m, now, calls), calls(op, m.id);
      var reached := b in sl && b != a;
      && sl'.Keys == sl.Keys && (!IsPending(op, m) ==> sl' == sl)
      && (IsPending(op, m) ==>
            var acked := reached && call == Answered && (match op
                                                         case Messages => sl[b].None?
                                                         case Edits => sl[b].Some?
                                                         case Deletes => true);
            sl'[a] == Some(if acked then Flagged(sl[a].value, AckFlag(RequestOf(op, m)))
                           else if Expired(op, m, now) then Flagged(sl[a].value, FailFlag(op))
                           else sl[a].value))
      && (reached ==>
            && (sl'[b].Some? <==>
                  sl[b].Some? || (op == Op.Messages && IsPending(op, m) && !call.Lost?))
            && (sl'[b].Some? ==> sl'[b].value.sender == a))
  {
  }

  /** From the route on: a send, edit or delete that is lost, and lost again in the worker's round, is
      given up exactly if it is by then more than 86400 seconds old, and otherwise still pending. */
  lemma LostTwiceIff(open: Opener, w: World, s: Step, worker: Step, op: Op)
    requires Inv(open, w) && Enabled(w, open, s) && !s.Worker? && s.call == Lost
    requires Enabled(Apply(w, open, s), open, worker)
    requires worker.Worker? && worker.who == s.who && worker.calls(op, s.id) == Lost
    requires match op
             case Messages => s.Send? && s.cipher.Some?
             case Edits => s.Edit? && s.cipher.Some? && s.id in w[s.who] && w[s.who][s.id].sender == s.who
             case Deletes => s.Delete? && s.id in w[s.who] && w[s.who][s.id].sender == s.who
    ensures
      var w' := Apply(Apply(w, open, s), open, worker);
      s.id in w'[s.who] && Standing(op, w'[s.who][s.id]) == if worker.now - s.time > 86400 then 2 else 0
  {
    hide Apply, Inv;
    InvKept(open, w, s);
    InvKeysMatch(open, w, s.who);
    match op {
      case Messages => SendStep(w, open, s);
      case Edits => EditStep(w, open, s);
      case Deletes => DeleteStep(w, open, s);
    }
    RetryIff(open, Apply(w, open, s), worker, s.who, s.id, op);
  }
}
