/** Whole runs of the direct-message protocol. */
module Runs {
  import opened Common
  import opened Messages
  import opened Replication
  import opened Protocol
  import opened Agreement

  function After(w: World, open: Opener, run: seq<Step>): (w': World)
    requires forall s | s in run :: s.who in w
    ensures w'.Keys == w.Keys
    decreases |run|
  {
    if run == [] then w else Apply(After(w, open, Front(run)), open, Last(run))
  }

  ghost predicate Possible(w: World, open: Opener, run: seq<Step>)
    decreases |run|
  {
    && (forall s | s in run :: s.who in w)
    && (run != [] ==> Possible(w, open, Front(run)) && Enabled(After(w, open, Front(run)), open, Last(run)))
  }

  lemma TwoSteps(w: World, open: Opener, s1: Step, s2: Step)
    requires Enabled(w, open, s1) && Enabled(Apply(w, open, s1), open, s2)
    ensures Possible(w, open, [s1, s2]) && After(w, open, [s1, s2]) == Apply(Apply(w, open, s1), open, s2)
  {
    hide Apply;
    assert [s1][..0] == [] && [s1, s2][..1] == [s1];
    assert After(w, open, []) == w && After(w, open, [s1]) == Apply(w, open, s1);
    assert Possible(w, open, []) && Possible(w, open, [s1]);
  }

  ghost predicate Fresh(w: World) {
    forall n | n in w :: w[n] == map[]
  }

  lemma FreshInv(open: Opener, w: World)
    requires Fresh(w)
    ensures Inv(open, w)
  {
    forall id, n ensures !Own(SliceOf(w, id), n) && RowOk(open, SliceOf(w, id), n, id) {}
  }

  /** Every state any run reaches satisfies the replication invariant. */
  lemma {:induction false} RunKeepsInv(w: World, open: Opener, run: seq<Step>)
    requires Inv(open, w) && Possible(w, open, run)
    ensures Inv(open, After(w, open, run))
    decreases |run|
  {
    if run != [] {
      RunKeepsInv(w, open, Front(run));
      InvKept(open, After(w, open, Front(run)), Last(run));
    }
  }

  /** Over any run a sender row keeps its identity, its status moves only 0 to 1, 2 or 3 and
      then only to 3, its copy never disappears and never comes back from a deletion, and it
      stays unacknowledged once it is delivered without an acknowledgement. */
  lemma {:induction false} RunEvolves(w: World, open: Opener, run: seq<Step>, k: Id, a: Id)
    requires Inv(open, w) && Possible(w, open, run) && Own(SliceOf(w, k), a)
    ensures
      var sl := SliceOf(w, k);
      var sl' := SliceOf(After(w, open, run), k);
      && Own(sl', a)
      && Evolves(sl[a].value, Copy(sl, a), sl'[a].value, Copy(sl', a))
    decreases |run|
  {
    if run != [] {
      RunEvolves(w, open, Front(run), k, a);
      RunKeepsInv(w, open, Front(run));
      StepEvolves(open, After(w, open, Front(run)), Last(run), k, a);
    }
  }

  /** Once a delete has been acknowledged, the recipient never shows the message again. */
  lemma DeletedStaysGone(w: World, open: Opener, run: seq<Step>, k: Id, a: Id)
    requires Inv(open, w) && Possible(w, open, run) && Own(SliceOf(w, k), a)
    requires w[a][k].accepted == DELETED && w[a][k].deleteAccepted == 1
    ensures
      var sl' := SliceOf(After(w, open, run), k);
      && Own(sl', a) && sl'[a].value.accepted == DELETED
      && (Copy(sl', a).None? || Copy(sl', a).value.accepted == DELETED)
  {
    RunEvolves(w, open, run, k, a);
    assert RowOk(open, SliceOf(w, k), a, k);
  }

  /** A lost reply is never made up for. Once the recipient holds a message its sender has not
      seen acknowledged, no retry can ever acknowledge it (the peer answers 500), so it ends up
      pending, failed or deleted at the sender although it was delivered. */
  lemma LostReplyIsFinal(w: World, open: Opener, run: seq<Step>, k: Id, a: Id)
    requires Inv(open, w) && Possible(w, open, run) && Own(SliceOf(w, k), a)
    requires w[a][k].accepted != DELIVERED && Copy(SliceOf(w, k), a).Some?
    ensures
      var sl' := SliceOf(After(w, open, run), k);
      Own(sl', a) && sl'[a].value.accepted != DELIVERED && Copy(sl', a).Some?
  {
    RunEvolves(w, open, run, k, a);
  }

  /** Exactly when a worker round acknowledges a pending message: the peer did not have it yet
      and its 200 came back. */
  lemma AcknowledgedIff(open: Opener, sl: Slice, a: Id, now: int, calls: Schedule, k: Id)
    requires SliceInv(open, sl, k) && Own(sl, a) && sl[a].value.accepted == PENDING
    ensures
      var m := sl[a].value;
      var sl' := RoundSlice(sl, a, open, now, calls);
      && Own(sl', a)
      && (sl'[a].value.accepted == DELIVERED <==>
            Copy(sl, a).None? && m.recipient in sl && m.recipient != a && calls(Op.Messages, k) == Answered)
      && (sl'[a].value.accepted == FAILED <==>
            sl'[a].value.accepted != DELIVERED && now - m.timestamp > 86400)
  {
    assert RowOk(open, sl, a, k);
  }

  /** The documentation says a message is marked failed after a day without delivery. A
      delivered one is too: send it, lose only the reply, and run the worker a day later. */
  lemma DeliveredYetFailed(w: World, open: Opener, send: Step, worker: Step)
    requires Inv(open, w) && Enabled(w, open, send) && send.Send? && send.cipher.Some?
    requires send.call == ReplyLost && send.to in w && send.to != send.who
    requires Enabled(Apply(w, open, send), open, worker)
    requires worker.Worker? && worker.who == send.who && worker.now - send.time > 86400
    ensures
      var w' := Apply(Apply(w, open, send), open, worker);
      && send.id in w'[send.who] && w'[send.who][send.id].accepted == FAILED
      && send.id in w'[send.to] && w'[send.to][send.id].plaintext == send.text
  {
    var a, k := send.who, send.id;
    var w1 := Apply(w, open, send);
    var sl1 := SliceOf(w1, k);
    InvKept(open, w, send);
    InvKeysMatch(open, w1, a);
    assert sl1[a] == Some(NewMessage(k, a, send.to, send.group, send.text, send.cipher.value, PENDING, send.time));
    assert sl1[send.to] == Some(w1[send.to][k]);
    assert SliceInv(open, sl1, k);
    AcknowledgedIff(open, sl1, a, worker.now, worker.calls, k);
    ApplySlices(w1, open, worker, k);
    StepEvolves(open, w1, worker, k, a);
    var w' := Apply(w1, open, worker);
    assert SliceOf(w', k)[a] == Get(w'[a], k) && SliceOf(w', k)[send.to] == Get(w'[send.to], k);
    InvKept(open, w1, worker);
    assert SliceInv(open, SliceOf(w', k), k);
  }

  // ---------------------------------------------------------------- the 24-hour rule

  lemma RoundSliceExpires(sl: Slice, a: Id, open: Opener, now: int, calls: Schedule, op: Op)
    requires a in sl && sl[a].Some?
    ensures
      var sl' := RoundSlice(sl, a, open, now, calls);
      && sl'[a].Some?
      && var s, s' := sl[a].value, sl'[a].value;
         && (IsPending(op, s') ==> IsPending(op, s) && !Expired(op, s', now))
         && ((forall o :: !IsPending(o, s)) ==> s' == s)
         && s' == s.(accepted := s'.accepted, editAccepted := s'.editAccepted, deleteAccepted := s'.deleteAccepted)
  {
    hide RetryPending;
    var m := sl[a].value;
    var s1 := RetryPending(sl, a, open, Op.Messages, m, now, calls);
    var s2 := RetryPending(s1, a, open, Edits, m, now, calls);
    RetryOwnRow(sl, a, open, Op.Messages, m, now, calls);
    RetryOwnRow(s1, a, open, Edits, m, now, calls);
    RetryOwnRow(s2, a, open, Deletes, m, now, calls);
  }

  lemma RowAfterRound(w: World, open: Opener, s: Step, id: Id)
    requires Enabled(w, open, s) && s.Worker? && KeysMatch(w[s.who])
    ensures Get(Apply(w, open, s)[s.who], id) == RoundSlice(SliceOf(w, id), s.who, open, s.now, s.calls)[s.who]
  {
    ApplySlices(w, open, s, id);
    assert SliceOf(Apply(w, open, s), id)[s.who] == Get(Apply(w, open, s)[s.who], id);
  }

  predicate WithinADay(op: Op, m: Message, now: int) {
    match op
    case Messages => now - m.timestamp <= 86400
    case Edits => now - m.editedAt <= 86400
    case Deletes => m.deletedAt == 0 || now - m.deletedAt <= 86400
  }

  /** After a round at time now nothing the node still has pending is more than a day old, the
      rows it had not listed are as they were, and of the listed ones only flags changed. This
      holds of any tables whatever. */
  lemma RoundExpires(w: World, open: Opener, s: Step, id: Id, op: Op)
    requires Enabled(w, open, s) && s.Worker? && KeysMatch(w[s.who]) && id in w[s.who]
    ensures
      var t, t' := w[s.who], Apply(w, open, s)[s.who];
      && t'.Keys == t.Keys
      && (IsPending(op, t'[id]) ==> IsPending(op, t[id]) && WithinADay(op, t'[id], s.now))
      && ((forall o :: !IsPending(o, t[id])) ==> t'[id] == t[id])
      && t'[id] == t[id].(accepted := t'[id].accepted, editAccepted := t'[id].editAccepted,
                          deleteAccepted := t'[id].deleteAccepted)
  {
    forall k
      ensures k in Apply(w, open, s)[s.who] <==> k in w[s.who]
    {
      RowAfterRound(w, open, s, k);
      if k in w[s.who] { RoundSliceExpires(SliceOf(w, k), s.who, open, s.now, s.calls, op); }
    }
    RowAfterRound(w, open, s, id);
    RoundSliceExpires(SliceOf(w, id), s.who, open, s.now, s.calls, op);
  }
}
