/** When two nodes' direct histories agree after one connected worker round on each. */
module Convergence {
  import opened Common
  import opened Messages
  import opened Replication
  import opened Protocol
  import opened Agreement
  import Runs

  datatype View = View(text: Text, time: int, editedAt: int)

  /** The WHERE clause of get_messages_between. */
  predicate InChat(m: Message, a: Id, b: Id) {
    && ((m.sender == a && m.recipient == b) || (m.sender == b && m.recipient == a))
    && m.group == "" && m.accepted != DELETED
  }

  function ViewOf(m: Message): View {
    View(m.plaintext, m.timestamp, m.editedAt)
  }

  /** A node's direct history with a peer, by message id. */
  function History(t: Table, a: Id, b: Id): map<Id, View> {
    map id | id in t && InChat(t[id], a, b) :: ViewOf(t[id])
  }

  function Shown(row: Option<Message>, a: Id, b: Id): Option<View> {
    if row.Some? && InChat(row.value, a, b) then Some(ViewOf(row.value)) else None
  }

  /** A message whose retries gave up while the peer was still missing their effect. */
  predicate Stuck(s: Message, copy: Option<Message>) {
    if s.accepted == DELETED then
      s.deleteAccepted == 2 && copy.Some? && copy.value.accepted != DELETED
    else
      || (s.accepted == FAILED && copy.None?)
      || (s.editedAt != 0 && s.editAccepted == 2 && (copy.None? || !SameText(s, copy.value)))
  }

  predicate StuckAt(sl: Slice, a: Id, b: Id) {
    Own(sl, a) && sl[a].value.recipient == b && sl[a].value.group == "" && Stuck(sl[a].value, Copy(sl, a))
  }

  /** An answered retry of a pending message leaves the peer holding it. */
  lemma MessageAnswered(open: Opener, sl: Slice, a: Id, b: Id, now: int, calls: Schedule, k: Id)
    requires SliceInv(open, sl, k) && Own(sl, a) && sl[a].value.recipient == b && a != b && b in sl
    requires calls(Op.Messages, k) == Answered
    ensures
      var m := sl[a].value;
      var sl' := RetryPending(sl, a, open, Op.Messages, m, now, calls);
      && Own(sl', a) && sl'[a].value == m.(accepted := sl'[a].value.accepted)
      && (m.accepted == DELETED <==> sl'[a].value.accepted == DELETED)
      && sl'[b] == if m.accepted == PENDING && sl[b].None?
                   then Some(NewMessage(k, a, b, m.group, m.plaintext, m.ciphertext, DELIVERED, m.timestamp))
                   else sl[b]
  {
    assert RowOk(open, sl, a, k);
  }

  /** An answered retry of a pending edit brings the peer's copy, if it has one, up to date. */
  lemma EditAnswered(open: Opener, sl: Slice, a: Id, b: Id, m: Message, now: int, calls: Schedule, k: Id)
    requires Own(sl, a) && a != b && b in sl
    requires m.recipient == b && m.sender == a && m.id == k && sl[a].value == m.(accepted := sl[a].value.accepted)
    requires open(m.ciphertext, a, b) == Some(m.plaintext)
    requires calls(Edits, k) == Answered
    ensures
      var sl' := RetryPending(sl, a, open, Edits, m, now, calls);
      && Own(sl', a) && sl'[a].value == sl[a].value.(editAccepted := sl'[a].value.editAccepted)
      && sl'[b] == if IsPending(Edits, m) && sl[b].Some?
                   then Some(Flagged(EditRow(sl[b].value, m.plaintext, m.ciphertext, m.editedAt), EditAccepted))
                   else sl[b]
  {
  }

  /** An answered retry of a pending delete leaves the peer without the message or with a tombstone. */
  lemma DeleteAnswered(open: Opener, sl: Slice, a: Id, b: Id, m: Message, now: int, calls: Schedule, k: Id)
    requires Own(sl, a) && a != b && b in sl
    requires m.recipient == b && m.sender == a && m.id == k && sl[a].value.recipient == b
    requires sl[b].Some? ==> sl[b].value.sender == a
    requires calls(Deletes, k) == Answered
    ensures
      var sl' := RetryPending(sl, a, open, Deletes, m, now, calls);
      && Own(sl', a) && sl'[a].value == sl[a].value.(deleteAccepted := sl'[a].value.deleteAccepted)
      && sl'[b] == if IsPending(Deletes, m) && sl[b].Some? then Some(sl[b].value.(accepted := DELETED)) else sl[b]
  {
  }

  /** One connected round settles a direct message unless it is stuck, and never if it is. */
  lemma RoundSettles(open: Opener, sl: Slice, a: Id, b: Id, now: int, calls: Schedule, k: Id)
    requires SliceInv(open, sl, k) && Own(sl, a) && sl[a].value.recipient == b && a != b && b in sl
    requires forall op :: calls(op, k) == Answered
    ensures
      var sl' := RoundSlice(sl, a, open, now, calls);
      Shown(sl'[a], a, b) == Shown(sl'[b], a, b) <==> !StuckAt(sl, a, b)
  {
    var m := sl[a].value;
    assert RowOk(open, sl, a, k) && RowOk(open, sl, b, k);
    assert Copy(sl, a) == sl[b];
    var s1 := RetryPending(sl, a, open, Op.Messages, m, now, calls);
    var s2 := RetryPending(s1, a, open, Edits, m, now, calls);
    MessageAnswered(open, sl, a, b, now, calls, k);
    EditAnswered(open, s1, a, b, m, now, calls, k);
    DeleteAnswered(open, s2, a, b, m, now, calls, k);
  }

  /** Messages between other pairs, and group messages, show in neither history. */
  lemma Unrelated(open: Opener, sl: Slice, a: Id, b: Id, k: Id)
    requires SliceInv(open, sl, k) && a in sl && b in sl && a != b
    requires !(Own(sl, a) && sl[a].value.recipient == b) && !(Own(sl, b) && sl[b].value.recipient == a)
    ensures Shown(sl[a], a, b).None? && Shown(sl[b], a, b).None?
  {
    assert RowOk(open, sl, a, k) && RowOk(open, sl, b, k);
  }

  ghost predicate Connected(t: Table, a: Id, b: Id, calls: Schedule) {
    forall id, op | id in t && t[id].sender == a && t[id].recipient == b :: calls(op, id) == Answered
  }

  lemma BystandersIdle(open: Opener, sl: Slice, n: Id, now: int, calls: Schedule, k: Id)
    requires SliceInv(open, sl, k) && n in sl && !Own(sl, n)
    ensures RoundSlice(sl, n, open, now, calls) == sl
  {
    assert RowOk(open, sl, n, k);
    if sl[n].Some? {
      OthersIdle(open, sl, sl[n].value.sender, n, now, calls, k);
    }
  }

  /** Two rounds, as they act on one message id. */
  lemma TwoRounds(open: Opener, sl: Slice, a: Id, b: Id, na: int, ca: Schedule, nb: int, cb: Schedule, k: Id)
    requires SliceInv(open, sl, k) && a in sl && b in sl && a != b
    requires Own(sl, a) && sl[a].value.recipient == b ==> forall op :: ca(op, k) == Answered
    requires Own(sl, b) && sl[b].value.recipient == a ==> forall op :: cb(op, k) == Answered
    ensures
      var sl' := RoundSlice(RoundSlice(sl, a, open, na, ca), b, open, nb, cb);
      Shown(sl'[a], a, b) == Shown(sl'[b], a, b) <==> !StuckAt(sl, a, b) && !StuckAt(sl, b, a)
  {
    var sl1 := RoundSlice(sl, a, open, na, ca);
    RoundSound(open, sl, a, na, ca, k);
    if Own(sl, a) {
      RoundEvolves(open, sl, a, na, ca, k);
      OthersIdle(open, sl1, a, b, nb, cb, k);
      if sl[a].value.recipient == b {
        RoundSettles(open, sl, a, b, na, ca, k);
      } else {
        Unrelated(open, sl1, a, b, k);
      }
    } else {
      BystandersIdle(open, sl, a, na, ca, k);
      RoundSound(open, sl, b, nb, cb, k);
      if Own(sl, b) && sl[b].value.recipient == a {
        RoundSettles(open, sl, b, a, nb, cb, k);
      } else {
        if Own(sl, b) { RoundEvolves(open, sl, b, nb, cb, k); } else { BystandersIdle(open, sl, b, nb, cb, k); }
        Unrelated(open, RoundSlice(sl, b, open, nb, cb), a, b, k);
      }
    }
  }

  lemma ConvergesSlice(open: Opener, w: World, sa: Step, sb: Step, k: Id)
    requires Inv(open, w) && sa.Worker? && sb.Worker? && sa.who != sb.who && sb.who in w
    requires Enabled(w, open, sa) && Enabled(Apply(w, open, sa), open, sb)
    requires Connected(w[sa.who], sa.who, sb.who, sa.calls) && Connected(w[sb.who], sb.who, sa.who, sb.calls)
    ensures
      var a, b := sa.who, sb.who;
      var w' := Apply(Apply(w, open, sa), open, sb);
      Shown(Get(w'[a], k), a, b) == Shown(Get(w'[b], k), a, b)
      <==> !StuckAt(SliceOf(w, k), a, b) && !StuckAt(SliceOf(w, k), b, a)
  {
    var a, b := sa.who, sb.who;
    var w1 := Apply(w, open, sa);
    InvKeysMatch(open, w, a);
    ApplySlices(w, open, sa, k);
    InvKept(open, w, sa);
    InvKeysMatch(open, w1, b);
    ApplySlices(w1, open, sb, k);
    assert SliceInv(open, SliceOf(w, k), k);
    TwoRounds(open, SliceOf(w, k), a, b, sa.now, sa.calls, sb.now, sb.calls, k);
    var w' := Apply(w1, open, sb);
    assert SliceOf(w', k)[a] == Get(w'[a], k) && SliceOf(w', k)[b] == Get(w'[b], k);
  }

  lemma SameHistory(t: Table, t': Table, a: Id, b: Id)
    ensures History(t, a, b) == History(t', a, b) <==>
            forall id :: Shown(Get(t, id), a, b) == Shown(Get(t', id), a, b)
  {
    var h, h' := History(t, a, b), History(t', a, b);
    assert forall id :: Get(h, id) == Shown(Get(t, id), a, b);
    assert forall id :: Get(h', id) == Shown(Get(t', id), a, b);
    if forall id :: Get(h, id) == Get(h', id) {
      forall id ensures id in h <==> id in h' { assert Get(h, id) == Get(h', id); }
      forall id | id in h ensures h[id] == h'[id] { assert Get(h, id) == Get(h', id); }
      assert h == h';
    }
  }

  /** After one connected round on each side the two histories are equal exactly when no
      direct message between them is stuck. */
  lemma ConvergesIff(open: Opener, w: World, sa: Step, sb: Step)
    requires Inv(open, w) && sa.Worker? && sb.Worker? && sa.who != sb.who && sb.who in w
    requires Enabled(w, open, sa) && Enabled(Apply(w, open, sa), open, sb)
    requires Connected(w[sa.who], sa.who, sb.who, sa.calls) && Connected(w[sb.who], sb.who, sa.who, sb.calls)
    ensures
      var a, b := sa.who, sb.who;
      var w' := Apply(Apply(w, open, sa), open, sb);
      History(w'[a], a, b) == History(w'[b], a, b) <==>
        forall id :: !StuckAt(SliceOf(w, id), a, b) && !StuckAt(SliceOf(w, id), b, a)
  {
    var a, b := sa.who, sb.who;
    var w' := Apply(Apply(w, open, sa), open, sb);
    SameHistory(w'[a], w'[b], a, b);
    forall id
      ensures Shown(Get(w'[a], id), a, b) == Shown(Get(w'[b], id), a, b)
              <==> !StuckAt(SliceOf(w, id), a, b) && !StuckAt(SliceOf(w, id), b, a)
    {
      ConvergesSlice(open, w, sa, sb, id);
    }
  }

  /** No retry for a row between the two nodes has given up; either node can check its own half. */
  predicate NoneFailed(t: Table, a: Id, b: Id) {
    forall id | id in t && t[id].sender == a && t[id].recipient == b ::
      t[id].accepted != FAILED && t[id].editAccepted != 2 && t[id].deleteAccepted != 2
  }

  /** Convergence: if no retry has given up, one connected round on each node makes the two
      histories equal. */
  lemma Converges(open: Opener, w: World, sa: Step, sb: Step)
    requires Inv(open, w) && sa.Worker? && sb.Worker? && sa.who != sb.who && sb.who in w
    requires Enabled(w, open, sa) && Enabled(Apply(w, open, sa), open, sb)
    requires Connected(w[sa.who], sa.who, sb.who, sa.calls) && Connected(w[sb.who], sb.who, sa.who, sb.calls)
    requires NoneFailed(w[sa.who], sa.who, sb.who) && NoneFailed(w[sb.who], sb.who, sa.who)
    ensures
      var w' := Apply(Apply(w, open, sa), open, sb);
      History(w'[sa.who], sa.who, sb.who) == History(w'[sb.who], sa.who, sb.who)
  {
    ConvergesIff(open, w, sa, sb);
  }

  // ---------------------------------------------------------------- stuck messages do occur

  lemma LostSend(open: Opener, w: World, send: Step)
    requires Enabled(w, open, send) && send.Send? && send.cipher.Some? && send.call == Lost
    ensures
      var m := NewMessage(send.id, send.who, send.to, send.group, send.text, send.cipher.value, PENDING, send.time);
      && Apply(w, open, send) == w[send.who := w[send.who][send.id := m]]
      && SliceOf(Apply(w, open, send), send.id) == (map n | n in w :: None)[send.who := Some(m)]
  {
  }

  lemma LostRound(sl: Slice, a: Id, open: Opener, m: Message, now: int, calls: Schedule)
    requires a in sl && sl[a] == Some(m) && m.accepted == PENDING && m.editedAt == 0 && now - m.timestamp > MAX_AGE
    requires calls(Op.Messages, m.id) == Lost
    ensures RoundSlice(sl, a, open, now, calls) == sl[a := Some(m.(accepted := FAILED))]
  {
  }

  /** A direct send that never arrives, retried only in a round a day later that does not arrive
      either, is stuck. */
  lemma LostSendSticks(open: Opener, w: World, send: Step, worker: Step)
    requires Inv(open, w) && send.who in w && Enabled(w, open, send)
    requires send.Send? && send.cipher.Some? && send.group == ""
    requires send.call == Lost && worker.Worker? && worker.who == send.who
    requires Enabled(Apply(w, open, send), open, worker) && worker.now - send.time > MAX_AGE
    requires worker.calls(Op.Messages, send.id) == Lost
    ensures StuckAt(SliceOf(Apply(Apply(w, open, send), open, worker), send.id), send.who, send.to)
  {
    hide Inv, Enabled, RoundSlice, SliceOf;
    var a, k := send.who, send.id;
    var w1 := Apply(w, open, send);
    InvKept(open, w, send);
    InvKeysMatch(open, w1, a);
    LostSend(open, w, send);
    ApplySlices(w1, open, worker, k);
    LostRound(SliceOf(w1, k), a, open, SliceOf(w1, k)[a].value, worker.now, worker.calls);
  }

  /** And it stays stuck, whatever is edited and however often the workers run, exactly until its
      author deletes it. */
  lemma StuckUntilDeleted(open: Opener, w: World, run: seq<Step>, k: Id, a: Id)
    requires Inv(open, w) && Runs.Possible(w, open, run) && Own(SliceOf(w, k), a)
    requires w[a][k].accepted == FAILED && Copy(SliceOf(w, k), a).None? && w[a][k].group == ""
    ensures
      var sl := SliceOf(Runs.After(w, open, run), k);
      Own(sl, a) && (StuckAt(sl, a, w[a][k].recipient) <==> sl[a].value.accepted != DELETED)
  {
    Runs.RunEvolves(w, open, run, k, a);
  }

  /** A run from empty nodes into such a state. */
  lemma StuckHappens() returns (open: Opener, w: World, run: seq<Step>)
    ensures Runs.Fresh(w) && Runs.Possible(w, open, run) && w.Keys == {"a", "b"}
    ensures StuckAt(SliceOf(Runs.After(w, open, run), "m"), "a", "b")
  {
    hide RoundSlice, SliceOf, StuckAt, Attempt, Inv, RetryAll, Runs.After, Runs.Possible;
    open := (cipher, from, to) => Some([]);
    w := map["a" := map[], "b" := map[]];
    var send := Send("a", "m", "b", "", [], Some(""), 1, Lost);
    var m := NewMessage("m", "a", "b", "", [], "", PENDING, 1);
    var worker := Worker("a", 100000, (op, id) => Lost, [m], [], []);
    Runs.FreshInv(open, w);
    LostSend(open, w, send);
    LostSendSticks(open, w, send, worker);
    Runs.TwoSteps(w, open, send, worker);
    run := [send, worker];
  }
}
