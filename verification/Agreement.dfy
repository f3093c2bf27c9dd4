/** What every run of the protocol keeps, and when two nodes end up with the same history. */
module Agreement {
  import opened Common
  import opened Messages
  import opened Replication
  import opened Protocol

  // ---------------------------------------------------------------- the invariant

  predicate Own(sl: Slice, a: Id) {
    a in sl && sl[a].Some? && sl[a].value.sender == a
  }

  /** The copy at the recipient's node. A message a node addresses to itself has none. */
  function Copy(sl: Slice, a: Id): Option<Message>
    requires Own(sl, a)
  {
    var b := sl[a].value.recipient;
    if b in sl && b != a then sl[b] else None
  }

  predicate SameText(s: Message, r: Message) {
    r.plaintext == s.plaintext && r.editedAt == s.editedAt
  }

  /** Sender row and recipient copy of one message. */
  predicate Sound(open: Opener, s: Message, copy: Option<Message>) {
    && open(s.ciphertext, s.sender, s.recipient) == Some(s.plaintext)
    && 0 <= s.accepted <= 3 && 0 <= s.editAccepted <= 2 && 0 <= s.deleteAccepted <= 2
    && (s.editedAt == 0 ==> s.editAccepted == 0)
    && (s.accepted != DELETED ==> s.deleteAccepted == 1)
    && (s.accepted == DELETED ==> s.deletedAt != 0)
    // acknowledgements are sound
    && (s.accepted == DELIVERED ==> copy.Some?)
    && (s.editedAt != 0 && s.editAccepted == 1 ==> copy.Some? && SameText(s, copy.value))
    && (s.accepted == DELETED && s.deleteAccepted == 1 ==> copy.None? || copy.value.accepted == DELETED)
    // the copy is never ahead of the sender
    && (copy.Some? ==>
          var r := copy.value;
          && r.sender == s.sender && r.recipient == s.recipient
          && r.group == s.group && r.timestamp == s.timestamp
          && (r.accepted == DELIVERED || r.accepted == DELETED)
          && (r.editedAt != 0 ==> r.editAccepted == 1)
          && r.deleteAccepted == 1
          && (r.accepted == DELETED ==> s.accepted == DELETED)
          && (s.editedAt == 0 ==> SameText(s, r)))
  }

  predicate RowOk(open: Opener, sl: Slice, n: Id, id: Id) {
    n in sl && sl[n].Some? ==>
      var m := sl[n].value;
      && m.id == id
      && (m.sender == n ==> Sound(open, m, Copy(sl, n)))
      && (m.sender != n ==> m.recipient == n && Own(sl, m.sender) && sl[m.sender].value.recipient == n)
  }

  ghost predicate SliceInv(open: Opener, sl: Slice, id: Id) {
    && (forall n, n' | Own(sl, n) && Own(sl, n') :: n == n')
    && (forall n :: RowOk(open, sl, n, id))
  }

  ghost predicate Inv(open: Opener, w: World) {
    forall id :: SliceInv(open, SliceOf(w, id), id)
  }

  lemma InvKeysMatch(open: Opener, w: World, a: Id)
    requires Inv(open, w) && a in w
    ensures KeysMatch(w[a])
  {
    forall id | id in w[a] ensures w[a][id].id == id {
      assert SliceInv(open, SliceOf(w, id), id);
      assert RowOk(open, SliceOf(w, id), a, id);
    }
  }

  // ---------------------------------------------------------------- each operation keeps it

  /** Besides the author only the recipient can hold a message. */
  lemma OnlyPair(open: Opener, sl: Slice, a: Id, n: Id, id: Id)
    requires SliceInv(open, sl, id) && Own(sl, a) && n in sl && sl[n].Some? && n != a
    ensures n == sl[a].value.recipient && !Own(sl, n) && sl[n].value.sender == a
  {
    hide Sound;
    assert RowOk(open, sl, n, id);
    var m := sl[n].value;
    assert m.sender == n ==> Own(sl, n);
    assert Own(sl, m.sender);
  }

  /** Replacing the sender's row and the copy by another sound pair keeps the slice invariant. */
  lemma Refit(open: Opener, sl: Slice, sl': Slice, a: Id, id: Id)
    requires SliceInv(open, sl, id) && a in sl && sl'.Keys == sl.Keys
    requires Own(sl', a) && sl'[a].value.id == id
    requires sl[a].Some? ==> Own(sl, a) && sl[a].value.recipient == sl'[a].value.recipient
    requires sl[a].None? ==> forall n | n in sl :: sl[n].None?
    requires Sound(open, sl'[a].value, Copy(sl', a))
    requires Copy(sl', a).Some? ==> Copy(sl', a).value.id == id
    requires forall n | n in sl && n != a && n != sl'[a].value.recipient :: sl'[n] == sl[n]
    ensures SliceInv(open, sl', id)
  {
    var b := sl'[a].value.recipient;
    forall n | n in sl' && sl'[n].Some? && n != a
      ensures n == b && RowOk(open, sl', n, id) && !Own(sl', n)
    {
      if n != b { OnlyPair(open, sl, a, n, id); }
      assert Copy(sl', a) == sl'[b];
    }
  }

  lemma AnyRowOk(open: Opener, sl: Slice, n: Id, id: Id)
    requires SliceInv(open, sl, id)
    ensures RowOk(open, sl, n, id)
  {
  }

  /** What an acknowledged, unacknowledged or lost attempt does to a sound pair. */
  lemma AttemptPair(open: Opener, sl: Slice, a: Id, id: Id, op: Op, to: Option<Id>, call: Call)
    requires Own(sl, a) && sl[a].value.id == id && Sound(open, sl[a].value, Copy(sl, a))
    requires Copy(sl, a).Some? ==> Copy(sl, a).value.id == id
    requires IsPending(op, sl[a].value)
    ensures
      var s, sl' := sl[a].value, AttemptSlice(sl, a, open, RequestOf(op, sl[a].value), to, call).slice;
      && sl'.Keys == sl.Keys && Own(sl', a)
      && sl'[a].value.id == id && sl'[a].value.recipient == s.recipient
      && Sound(open, sl'[a].value, Copy(sl', a))
      && (Copy(sl', a).Some? ==> Copy(sl', a).value.id == id)
      && (forall n | n in sl && n != a && n != s.recipient :: sl'[n] == sl[n])
  {
  }

  /** So it keeps the invariant. */
  lemma AttemptSound(open: Opener, sl0: Slice, sl: Slice, a: Id, id: Id, op: Op, to: Option<Id>, call: Call)
    requires SliceInv(open, sl0, id) && a in sl0
    requires Own(sl, a) && sl[a].value.id == id && sl == sl0[a := sl[a]]
    requires sl0[a].Some? ==> Own(sl0, a) && sl0[a].value.recipient == sl[a].value.recipient
    requires sl0[a].None? ==> forall n | n in sl0 :: sl0[n].None?
    requires Sound(open, sl[a].value, Copy(sl, a))
    requires IsPending(op, sl[a].value)
    ensures SliceInv(open, AttemptSlice(sl, a, open, RequestOf(op, sl[a].value), to, call).slice, id)
  {
    hide SliceInv, Sound, AttemptSlice;
    AnyRowOk(open, sl0, sl[a].value.recipient, id);
    AttemptPair(open, sl, a, id, op, to, call);
    Refit(open, sl0, AttemptSlice(sl, a, open, RequestOf(op, sl[a].value), to, call).slice, a, id);
  }

  /** What one retry can do to the node's own row: nothing, acknowledge, or give up. */
  lemma RetryOwnRow(sl: Slice, a: Id, open: Opener, op: Op, m: Message, now: int, calls: Schedule)
    requires a in sl && sl[a].Some?
    ensures
      var sl' := RetryPending(sl, a, open, op, m, now, calls);
      && sl'[a].Some?
      && var s, s' := sl[a].value, sl'[a].value;
         if !IsPending(op, m) then s' == s
         else || s' == Flagged(s, FailFlag(op)) || s' == Flagged(s, AckFlag(RequestOf(op, m)))
              || (s' == s && (m.recipient == s.recipient ==> !Expired(op, m, now)))
  {
  }

  /** A received row has nothing pending, so only authors retry. */
  lemma ReceivedNotPending(open: Opener, sl: Slice, n: Id, id: Id)
    requires SliceInv(open, sl, id) && n in sl && sl[n].Some? && sl[n].value.sender != n
    ensures forall op :: !IsPending(op, sl[n].value)
  {
    assert RowOk(open, sl, n, id) && RowOk(open, sl, sl[n].value.sender, id);
  }

  lemma GiveUpSound(open: Opener, sl: Slice, a: Id, op: Op, id: Id)
    requires SliceInv(open, sl, id) && Own(sl, a) && IsPending(op, sl[a].value)
    ensures SliceInv(open, sl[a := MarkRow(sl[a], None, FailFlag(op))], id)
  {
    var sl' := sl[a := MarkRow(sl[a], None, FailFlag(op))];
    var b := sl[a].value.recipient;
    assert RowOk(open, sl, a, id) && RowOk(open, sl, b, id);
    assert Copy(sl', a) == Copy(sl, a);
    Refit(open, sl, sl', a, id);
  }

  lemma UnansweredOwnRow(open: Opener, sl: Slice, a: Id, req: Request, to: Option<Id>, call: Call)
    requires a in sl
    ensures
      var out := AttemptSlice(sl, a, open, req, to, call);
      a in out.slice && (!out.ok ==> out.slice[a] == sl[a])
  {
  }

  lemma RetryPendingSound(open: Opener, sl: Slice, a: Id, op: Op, m: Message, now: int, calls: Schedule, id: Id)
    requires SliceInv(open, sl, id) && a in sl && sl[a].Some?
    requires RequestOf(op, m) == RequestOf(op, sl[a].value) && m.recipient == sl[a].value.recipient
    requires IsPending(op, m) == IsPending(op, sl[a].value)
    ensures SliceInv(open, RetryPending(sl, a, open, op, m, now, calls), id)
  {
    hide AttemptSlice;
    var s := sl[a].value;
    assert RowOk(open, sl, a, id);
    if IsPending(op, s) {
      if s.sender != a { ReceivedNotPending(open, sl, a, id); }
      var req := RequestOf(op, m);
      var out := AttemptSlice(sl, a, open, req, Some(m.recipient), calls(op, m.id));
      AttemptSound(open, sl, sl, a, id, op, Some(m.recipient), calls(op, m.id));
      UnansweredOwnRow(open, sl, a, req, Some(m.recipient), calls(op, m.id));
      if !out.ok { GiveUpSound(open, out.slice, a, op, id); }
    }
  }

  lemma RoundSound(open: Opener, sl: Slice, a: Id, now: int, calls: Schedule, id: Id)
    requires SliceInv(open, sl, id) && a in sl
    ensures SliceInv(open, RoundSlice(sl, a, open, now, calls), id)
  {
    if sl[a].Some? {
      hide RetryPending, SliceInv;
      var m := sl[a].value;
      var s1 := RetryPending(sl, a, open, Op.Messages, m, now, calls);
      var s2 := RetryPending(s1, a, open, Edits, m, now, calls);
      RetryOwnRow(sl, a, open, Op.Messages, m, now, calls);
      RetryOwnRow(s1, a, open, Edits, m, now, calls);
      RetryPendingSound(open, sl, a, Op.Messages, m, now, calls, id);
      RetryPendingSound(open, s1, a, Edits, m, now, calls, id);
      RetryPendingSound(open, s2, a, Deletes, m, now, calls, id);
    }
  }

  lemma StepSound(open: Opener, w: World, s: Step, k: Id)
    requires Inv(open, w) && Enabled(w, open, s)
    ensures SliceInv(open, ApplySlice(SliceOf(w, k), open, s, k), k)
  {
    var sl := SliceOf(w, k);
    var a := s.who;
    assert SliceInv(open, sl, k) && RowOk(open, sl, a, k);
    match s
    case Send(_, id, to, group, text, cipher, time, call) =>
      if cipher.Some? && k == id {
        var m := NewMessage(id, a, to, group, text, cipher.value, PENDING, time);
        var sl1 := sl[a := Some(m)];
        AttemptSound(open, sl, sl1, a, id, Op.Messages, Some(to), call);
      }
    case Edit(_, id, text, cipher, time, call) =>
      if k == id && Own(sl, a) && cipher.Some? {
        var m := EditRow(sl[a].value, text, cipher.value, time);
        var sl1 := sl[a := Some(m)];
        assert Copy(sl1, a) == Copy(sl, a);
        assert EditReq(id, a, m.recipient, cipher.value, time) == RequestOf(Edits, m);
        AttemptSound(open, sl, sl1, a, id, Edits, None, call);
      }
    case Delete(_, id, time, call) =>
      if k == id && Own(sl, a) {
        var m := DeleteRow(sl[a].value, time);
        var sl1 := sl[a := Some(m)];
        assert Copy(sl1, a) == Copy(sl, a);
        assert DeleteReq(id, a, m.recipient) == RequestOf(Deletes, m);
        AttemptSound(open, sl, sl1, a, id, Deletes, None, call);
      }
    case Worker(_, now, calls, _, _, _) => RoundSound(open, sl, a, now, calls, k);
  }

  /** The replication invariant survives every step. */
  lemma InvKept(open: Opener, w: World, s: Step)
    requires Inv(open, w) && Enabled(w, open, s)
    ensures Inv(open, Apply(w, open, s))
  {
    InvKeysMatch(open, w, s.who);
    forall k ensures SliceInv(open, SliceOf(Apply(w, open, s), k), k) {
      ApplySlices(w, open, s, k);
      StepSound(open, w, s, k);
    }
  }

  // ---------------------------------------------------------------- one step, seen from one message

  /** The reachable statuses: 0 to 1, 2 or 3, anything to 3, and 3 is final. */
  predicate Leads(x: int, y: int) {
    x == y || (x == PENDING && 0 <= y <= 3) || y == DELETED
  }

  /** What one step may do to a sender row and its copy. */
  predicate Evolves(s: Message, copy: Option<Message>, s': Message, copy': Option<Message>) {
    && s'.sender == s.sender && s'.recipient == s.recipient
    && s'.group == s.group && s'.timestamp == s.timestamp
    && Leads(s.accepted, s'.accepted)
    && (copy.Some? ==> copy'.Some? && (copy.value.accepted == DELETED ==> copy'.value.accepted == DELETED))
    && (copy.None? && s.accepted != PENDING ==> copy'.None?)
    && (copy.Some? && s.accepted != DELIVERED ==> s'.accepted != DELIVERED)
  }

  /** A node never retries a message it received, nor anything about an id it does not hold. */
  lemma OthersIdle(open: Opener, sl: Slice, a: Id, n: Id, now: int, calls: Schedule, id: Id)
    requires SliceInv(open, sl, id) && Own(sl, a) && n in sl && n != a
    ensures RoundSlice(sl, n, open, now, calls) == sl
  {
    hide RetrySlice;
    if sl[n].Some? {
      OnlyPair(open, sl, a, n, id);
      ReceivedNotPending(open, sl, n, id);
    }
  }

  lemma AttemptEvolves(open: Opener, sl: Slice, a: Id, op: Op, to: Option<Id>, call: Call)
    requires Own(sl, a)
    requires IsPending(op, sl[a].value)
    requires Copy(sl, a).Some? ==> Copy(sl, a).value.sender == a
    ensures
      var out := AttemptSlice(sl, a, open, RequestOf(op, sl[a].value), to, call);
      && Own(out.slice, a)
      && Evolves(sl[a].value, Copy(sl, a), out.slice[a].value, Copy(out.slice, a))
  {
  }

  lemma RetryPendingEvolves(open: Opener, sl: Slice, a: Id, op: Op, m: Message, now: int, calls: Schedule, id: Id)
    requires SliceInv(open, sl, id) && Own(sl, a)
    requires RequestOf(op, m) == RequestOf(op, sl[a].value) && m.recipient == sl[a].value.recipient
    requires IsPending(op, m) == IsPending(op, sl[a].value)
    ensures
      var sl' := RetryPending(sl, a, open, op, m, now, calls);
      && Own(sl', a)
      && Evolves(sl[a].value, Copy(sl, a), sl'[a].value, Copy(sl', a))
  {
    assert RowOk(open, sl, a, id);
    if IsPending(op, m) {
      AttemptEvolves(open, sl, a, op, Some(m.recipient), calls(op, m.id));
      var out := AttemptSlice(sl, a, open, RequestOf(op, m), Some(m.recipient), calls(op, m.id));
      var sl' := RetryPending(sl, a, open, op, m, now, calls);
      assert Copy(sl', a) == Copy(out.slice, a);
    }
  }

  lemma RoundEvolves(open: Opener, sl: Slice, a: Id, now: int, calls: Schedule, id: Id)
    requires SliceInv(open, sl, id) && Own(sl, a)
    ensures
      var sl' := RoundSlice(sl, a, open, now, calls);
      && Own(sl', a)
      && Evolves(sl[a].value, Copy(sl, a), sl'[a].value, Copy(sl', a))
  {
    hide RetryPending, SliceInv;
    var m := sl[a].value;
    var s1 := RetryPending(sl, a, open, Op.Messages, m, now, calls);
    var s2 := RetryPending(s1, a, open, Edits, m, now, calls);
    RetryOwnRow(sl, a, open, Op.Messages, m, now, calls);
    RetryOwnRow(s1, a, open, Edits, m, now, calls);
    RetryPendingSound(open, sl, a, Op.Messages, m, now, calls, id);
    RetryPendingSound(open, s1, a, Edits, m, now, calls, id);
    RetryPendingEvolves(open, sl, a, Op.Messages, m, now, calls, id);
    RetryPendingEvolves(open, s1, a, Edits, m, now, calls, id);
    RetryPendingEvolves(open, s2, a, Deletes, m, now, calls, id);
  }

  lemma StepEvolves(open: Opener, w: World, s: Step, k: Id, a: Id)
    requires Inv(open, w) && Enabled(w, open, s) && Own(SliceOf(w, k), a)
    ensures
      var sl := SliceOf(w, k);
      var sl' := SliceOf(Apply(w, open, s), k);
      && Own(sl', a)
      && Evolves(sl[a].value, Copy(sl, a), sl'[a].value, Copy(sl', a))
  {
    hide AttemptSlice, RoundSlice;
    var sl := SliceOf(w, k);
    InvKeysMatch(open, w, s.who);
    ApplySlices(w, open, s, k);
    assert SliceInv(open, sl, k) && RowOk(open, sl, a, k);
    match s
    case Send(_, id, _, _, _, _, _, _) =>
      assert id !in w[a];
    case Edit(_, id, text, cipher, time, call) =>
      if k == id && Own(sl, s.who) && cipher.Some? {
        var sl1 := sl[a := Some(EditRow(sl[a].value, text, cipher.value, time))];
        assert Copy(sl1, a) == Copy(sl, a);
        AttemptEvolves(open, sl1, a, Edits, None, call);
      }
    case Delete(_, id, time, call) =>
      if k == id && Own(sl, s.who) {
        var sl1 := sl[a := Some(DeleteRow(sl[a].value, time))];
        assert Copy(sl1, a) == Copy(sl, a);
        AttemptEvolves(open, sl1, a, Deletes, None, call);
      }
    case Worker(_, now, calls, _, _, _) =>
      if s.who != a {
        OthersIdle(open, sl, a, s.who, now, calls, k);
      } else {
        RoundEvolves(open, sl, a, now, calls, k);
      }
  }
}
