/** Every run of the protocol with atomic handlers and rounds is one of the interleavings. */
module Simulation {
  import opened Common
  import opened Messages
  import opened Replication
  import opened Staleness
  import Interleaving
  import Protocol
  import Runs

  type Net = Interleaving.Net

  lemma ReachableInv(f: Net, open: Opener)
    requires Reachable(f, open)
    ensures Interleaving.Inv(f, open)
  {
    var t, steps :| Trace(t, steps, open) && f == t[|steps|];
    TraceInv(t, steps, open, |steps|);
  }

  /** A POST with its acknowledgement: a delivery unless the request is lost, then an
      acknowledgement unless the answer is. */
  lemma AttemptSimulated(f: Net, a: Id, open: Opener, req: Request, to: Option<Id>, call: Call) returns (f': Net)
    requires Reachable(f, open) && a in f.world && req in f.sent && req.sender == a
    requires to.None? || to == Some(req.recipient)
    ensures Reachable(f', open) && f'.world == Attempt(f.world, a, open, req, to, call).world
    ensures f.sent <= f'.sent && f'.lists == f.lists
  {
    hide Reachable;
    f' := f;
    if Reaches(f.world.Keys, a, req, call) {
      var s1 := Interleaving.Deliver(req);
      Extend(f, open, s1);
      f' := Interleaving.Apply(f, open, s1);
      if Post(f.world, a, open, req, call).ok {
        var s2 := Interleaving.Acknowledge(req, to);
        Extend(f', open, s2);
        f' := Interleaving.Apply(f', open, s2);
      }
    }
  }

  lemma RetrySimulated(f: Net, a: Id, open: Opener, op: Op, m: Message, now: int, call: Call) returns (f': Net)
    requires Reachable(f, open) && a in f.world && m in Interleaving.Listed(f, a, op)
    ensures Reachable(f', open) && f'.world == Retry(f.world, a, open, op, m, now, call) && f'.lists == f.lists
  {
    hide Reachable, Attempt;
    ReachableInv(f, open);
    assert Interleaving.ListGood(f, a, op, m);
    var req := RequestOf(op, m);
    var s1 := Interleaving.Resend(a, op, m);
    Extend(f, open, s1);
    var f1 := Interleaving.Apply(f, open, s1);
    f' := AttemptSimulated(f1, a, open, req, Some(m.recipient), call);
    AttemptKeys(f.world, a, open, req, Some(m.recipient), call);
    if !Attempt(f.world, a, open, req, Some(m.recipient), call).ok && Expired(op, m, now) {
      var s2 := Interleaving.GiveUp(a, op, m, now);
      Extend(f', open, s2);
      f' := Interleaving.Apply(f', open, s2);
    }
  }

  lemma AttemptKeys(w: World, a: Id, open: Opener, req: Request, to: Option<Id>, call: Call)
    requires a in w
    ensures Attempt(w, a, open, req, to, call).world.Keys == w.Keys
  {
  }

  lemma {:induction false} RetryAllSimulated(f: Net, a: Id, open: Opener, op: Op, list: seq<Message>, now: int,
                                             calls: Schedule) returns (f': Net)
    requires Reachable(f, open) && a in f.world && forall m | m in list :: m in Interleaving.Listed(f, a, op)
    ensures Reachable(f', open) && f'.world == RetryAll(f.world, a, open, op, list, now, calls) && f'.lists == f.lists
    decreases |list|
  {
    hide Reachable, Retry;
    f' := f;
    if list != [] {
      var m := Last(list);
      assert m in list;
      f' := RetryAllSimulated(f, a, open, op, Front(list), now, calls);
      f' := RetrySimulated(f', a, open, op, m, now, calls(op, m.id));
    }
  }

  lemma TakeSimulated(f: Net, a: Id, open: Opener, op: Op, list: seq<Message>) returns (f': Net)
    requires Reachable(f, open) && a in f.world && Listing(list, f.world[a], op)
    ensures Reachable(f', open) && f'.world == f.world
    ensures forall m | m in list :: m in Interleaving.Listed(f', a, op)
    ensures forall o | o != op :: Interleaving.Listed(f', a, o) == Interleaving.Listed(f, a, o)
  {
    hide Reachable;
    var s := Interleaving.Take(a, op);
    Extend(f, open, s);
    f' := Interleaving.Apply(f, open, s);
  }

  /** The worker's round: three lists taken at the start, three loops. */
  lemma RoundSimulated(f: Net, open: Opener, s: Protocol.Step) returns (f': Net)
    requires Reachable(f, open) && s.Worker? && Protocol.Enabled(f.world, open, s)
    ensures Reachable(f', open) && f'.world == Protocol.Apply(f.world, open, s)
  {
    hide Reachable, RetryAll, Listing;
    var a := s.who;
    f' := TakeSimulated(f, a, open, Op.Messages, s.messages);
    f' := TakeSimulated(f', a, open, Edits, s.edits);
    f' := TakeSimulated(f', a, open, Deletes, s.deletes);
    f' := RetryAllSimulated(f', a, open, Op.Messages, s.messages, s.now, s.calls);
    f' := RetryAllSimulated(f', a, open, Edits, s.edits, s.now, s.calls);
    f' := RetryAllSimulated(f', a, open, Deletes, s.deletes, s.now, s.calls);
  }

  /** A local write, and the POST that follows it. */
  lemma WriteSimulated(f: Net, open: Opener, s: Interleaving.Step, n: Id, id: Id, m: Message, op: Op,
                       to: Option<Id>, call: Call) returns (f': Net)
    requires Reachable(f, open) && n in f.world && Interleaving.Enabled(f, open, s)
    requires
      var f' := Interleaving.Apply(f, open, s);
      f' == Interleaving.Write(f, n, id, m, RequestOf(op, m)).(deleting := f'.deleting)
    requires m.sender == n && (to.None? || to == Some(m.recipient))
    ensures Reachable(f', open)
    ensures f'.world == Attempt(f.world[n := Put(f.world[n], id, Some(m))], n, open, RequestOf(op, m), to, call).world
  {
    hide Reachable, Attempt, Interleaving.Enabled, Interleaving.Apply;
    Extend(f, open, s);
    f' := AttemptSimulated(Interleaving.Apply(f, open, s), n, open, RequestOf(op, m), to, call);
  }

  /** The delete route's two statements, and its POST. */
  lemma DeleteSimulated(f: Net, open: Opener, a: Id, id: Id, time: int, call: Call) returns (f': Net)
    requires Reachable(f, open) && a in f.world && id in f.world[a] && f.world[a][id].sender == a && time > 0
    ensures Reachable(f', open) && f'.world == Protocol.DeleteMessage(f.world, a, open, id, time, call)
  {
    hide Reachable, Attempt;
    ReachableInv(f, open);
    assert Interleaving.RowGood(f, a, id);
    var s := Interleaving.Delete(a, id);
    Extend(f, open, s);
    var f1 := Interleaving.Apply(f, open, s);
    assert (a, id) in f1.deleting;
    var m := DeleteRow(f.world[a][id], time);
    assert f1.world[a][id := m] == f.world[a][id := m];
    assert f1.world[a := f1.world[a][id := m]] == f.world[a := f.world[a][id := m]];
    f' := WriteSimulated(f1, open, Interleaving.Pend(a, id, time), a, id, m, Deletes, None, call);
  }

  /** One step of the protocol is a sequence of the small steps. */
  lemma StepSimulated(f: Net, open: Opener, s: Protocol.Step) returns (f': Net)
    requires Reachable(f, open) && Protocol.Enabled(f.world, open, s)
    ensures Reachable(f', open) && f'.world == Protocol.Apply(f.world, open, s)
  {
    hide Reachable, Attempt, RetryAll;
    ReachableInv(f, open);
    f' := f;
    match s
    case Send(a, id, to, group, text, cipher, time, call) =>
      if cipher.Some? {
        var m := NewMessage(id, a, to, group, text, cipher.value, PENDING, time);
        f' := WriteSimulated(f, open, Interleaving.Insert(a, m), a, id, m, Op.Messages, Some(to), call);
      }
    case Edit(a, id, text, cipher, time, call) =>
      if id in f.world[a] && f.world[a][id].sender == a && cipher.Some? {
        assert Interleaving.RowGood(f, a, id);
        var m := EditRow(f.world[a][id], text, cipher.value, time);
        f' := WriteSimulated(f, open, Interleaving.Edit(a, id, text, cipher.value, time), a, id, m, Edits, None, call);
      }
    case Delete(a, id, time, call) =>
      if id in f.world[a] && f.world[a][id].sender == a {
        f' := DeleteSimulated(f, open, a, id, time, call);
      }
    case Worker(_, _, _, _, _, _) => f' := RoundSimulated(f, open, s);
  }

  /** Whatever tables a run of the protocol can produce, some interleaving produces: all that is
      proved of every interleaving holds of every run. */
  lemma {:induction false} RunsAreInterleavings(w: World, open: Opener, run: seq<Protocol.Step>) returns (f: Net)
    requires Runs.Fresh(w) && Runs.Possible(w, open, run)
    ensures Reachable(f, open) && f.world == Runs.After(w, open, run)
    decreases |run|
  {
    if run == [] {
      f := Interleaving.Net(w, {}, {}, map[], multiset{}, {});
      var t: seq<Net>, steps: seq<Interleaving.Step> := [f], [];
      assert Trace(t, steps, open) && f == t[|steps|];
    } else {
      f := RunsAreInterleavings(w, open, Front(run));
      f := StepSimulated(f, open, Last(run));
    }
  }
}
