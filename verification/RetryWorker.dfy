/** One pass of the worker's outer loop: list, retry the group updates, then the messages, the
    edits and the deletes that were listed. */
module RetryWorker {
  import opened Common
  import opened Messages
  import opened Replication
  import opened Database
  import opened Delivery
  import opened GroupDelivery
  import Agreement
  import Convergence
  import Groups
  import Histories
  import Outcomes
  import Protocol
  import SingleWriter
  import Snapshots

  /** The outcome of each retry, a contact without an address being out of reach. */
  function Routes(contacts: map<Id, Contact>, t: Table, calls: Schedule): Schedule {
    (op, id) => if id in t then Routed(contacts, t[id].recipient, calls(op, id)) else calls(op, id)
  }

  /** mark_failed, mark_edit_failed or mark_delete_failed, if the row is more than a day old. */
  method GiveUp(c: Cluster, self: Id, op: Op, m: Message, now: int)
    requires Ready(c) && self in c
    modifies c.Values`messages
    ensures Ready(c)
    ensures
      var since := Outcomes.Since(op, m);
      WorldOf(c) == if now - since > 86400 && (op.Messages? || since != 0)
                    then old(WorldOf(c))[self := Mark(old(c[self].messages), m.id, None, FailFlag(op))]
                    else old(WorldOf(c))
  {
    if !Expired(op, m, now) { return; }
    ghost var w := WorldOf(c);
    var db := c[self];
    match op {
      case Messages => db.MarkFailed(m.id);
      case Edits => db.MarkEditFailed(m.id);
      case Deletes => db.MarkDeleteFailed(m.id);
    }
    WorldStep(c, w, self, db.messages);
  }

  /** The loop body. */
  method RetryOne(c: Cluster, self: Id, open: Opener, op: Op, m: Message, now: int, call: Call)
    requires Ready(c) && self in c
    modifies c.Values`messages
    ensures Ready(c)
    ensures WorldOf(c) == Retry(old(WorldOf(c)), self, open, op, m, now, Routed(c[self].contacts, m.recipient, call))
  {
    hide Attempt, Ready, Mark;
    var delivered := Deliver(c, self, open, RequestOf(op, m), Some(m.recipient), call);
    if !delivered {
      GiveUp(c, self, op, m, now);
    }
  }

  lemma RouteOf(contacts: map<Id, Contact>, t: Table, calls: Schedule, op: Op, list: seq<Message>, i: nat)
    requires Listing(list, t, op) && i < |list|
    ensures Routes(contacts, t, calls)(op, list[i].id) == Routed(contacts, list[i].recipient, calls(op, list[i].id))
  {
    assert list[i] in list;
  }

  /** One of the three loops; the list was taken from the table t. */
  method RetryList(c: Cluster, self: Id, open: Opener, op: Op, list: seq<Message>, now: int, calls: Schedule,
                   ghost t: Table)
    requires Ready(c) && self in c
    requires Listing(list, t, op)
    modifies c.Values`messages
    ensures Ready(c)
    ensures WorldOf(c) == RetryAll(old(WorldOf(c)), self, open, op, list, now, Routes(c[self].contacts, t, calls))
  {
    hide Retry, Ready, Listing, Routes, Routed;
    ghost var routes := Routes(c[self].contacts, t, calls);
    for i := 0 to |list|
      invariant Ready(c)
      invariant WorldOf(c) == RetryAll(old(WorldOf(c)), self, open, op, list[..i], now, routes)
    {
      var m := list[i];
      assert Front(list[..i + 1]) == list[..i];
      RouteOf(c[self].contacts, t, calls, op, list, i);
      RetryOne(c, self, open, op, m, now, calls(op, m.id));
    }
    assert list[..|list|] == list;
  }

  method PendingAt(c: Cluster, self: Id, op: Op) returns (list: seq<Message>)
    requires Ready(c) && self in c
    ensures Listing(list, WorldOf(c)[self], op)
  {
    var db := c[self];
    list := db.GetPending(op);
  }

  method PendingUpdatesAt(c: Cluster, self: Id) returns (list: seq<Snapshots.Queued>)
    requires Ready(c) && self in c
    ensures Snapshots.PendingUpdates(list, NodesOf(c)[self])
  {
    var db := c[self];
    list := db.GetPendingGroupUpdates();
  }

  lemma WorkerStep(w: World, open: Opener, a: Id, now: int, calls: Schedule,
                   messages: seq<Message>, edits: seq<Message>, deletes: seq<Message>)
    requires a in w && Listing(messages, w[a], Op.Messages) && Listing(edits, w[a], Edits)
      && Listing(deletes, w[a], Deletes)
    ensures
      var s := Protocol.Worker(a, now, calls, messages, edits, deletes);
      && Protocol.Enabled(w, open, s)
      && Protocol.Apply(w, open, s) == Round(w, a, open, now, calls, messages, edits, deletes)
  {
  }

  /** The three loops, over lists taken from the table t. */
  method RetryLists(c: Cluster, self: Id, open: Opener, now: int, calls: Schedule,
                    messages: seq<Message>, edits: seq<Message>, deletes: seq<Message>, ghost t: Table)
    requires Ready(c) && self in c
    requires Listing(messages, t, Op.Messages) && Listing(edits, t, Edits) && Listing(deletes, t, Deletes)
    modifies c.Values`messages
    ensures Ready(c)
    ensures WorldOf(c) == Round(old(WorldOf(c)), self, open, now, Routes(c[self].contacts, t, calls), messages, edits,
                                deletes)
  {
    hide RetryAll, Ready, Listing, Routes;
    RetryList(c, self, open, Op.Messages, messages, now, calls, t);
    RetryList(c, self, open, Edits, edits, now, calls, t);
    RetryList(c, self, open, Deletes, deletes, now, calls, t);
  }

  /** The queries, and between them the retries of the group updates. */
  method TakeLists(c: Cluster, self: Id, now: int, stamp: Snapshots.Stamp, calls: (Id, Id) -> Call)
    returns (messages: seq<Message>, edits: seq<Message>, deletes: seq<Message>, pending: seq<Snapshots.Queued>)
    requires Ready(c) && self in c
    modifies c.Values`groups, c.Values`members, c.Values`updates
    ensures Ready(c)
    ensures
      var t := WorldOf(c)[self];
      Listing(messages, t, Op.Messages) && Listing(edits, t, Edits) && Listing(deletes, t, Deletes)
    ensures Snapshots.PendingUpdates(pending, old(NodesOf(c))[self])
    ensures NodesOf(c) == Snapshots.RetryUpdates(old(NodesOf(c)), self, pending, now, stamp,
                                                 RetryRoutes(c[self].contacts, calls))
  {
    hide WorldOf, NodesOf, Ready, Listing, RetryRoutes, Snapshots.PendingUpdates, Snapshots.RetryUpdates;
    messages := PendingAt(c, self, Op.Messages);
    edits := PendingAt(c, self, Edits);
    pending := PendingUpdatesAt(c, self);
    RetryGroupUpdates(c, self, pending, now, stamp, calls);
    deletes := PendingAt(c, self, Deletes);
  }

  /** The pass is a step of the protocol: its lists are the results of its queries, and what it
      does to every table is the mathematical round. */
  method RunRound(c: Cluster, self: Id, open: Opener, now: int, calls: Schedule,
                  stamp: Snapshots.Stamp, groupCalls: (Id, Id) -> Call)
    returns (messages: seq<Message>, edits: seq<Message>, deletes: seq<Message>, pending: seq<Snapshots.Queued>)
    requires Ready(c) && self in c
    modifies c.Values`messages, c.Values`groups, c.Values`members, c.Values`updates
    ensures Ready(c)
    ensures
      var w := old(WorldOf(c));
      var s := Protocol.Worker(self, now, Routes(c[self].contacts, w[self], calls), messages, edits, deletes);
      Protocol.Enabled(w, open, s) && WorldOf(c) == Protocol.Apply(w, open, s)
    ensures
      && Snapshots.PendingUpdates(pending, old(NodesOf(c))[self])
      && NodesOf(c) == Snapshots.RetryUpdates(old(NodesOf(c)), self, pending, now, stamp,
                                              RetryRoutes(c[self].contacts, groupCalls))
  {
    hide Round, Ready, Listing, Routes, RetryRoutes, Protocol.Enabled, Protocol.Apply;
    hide Snapshots.PendingUpdates, Snapshots.RetryUpdates;
    messages, edits, deletes, pending := TakeLists(c, self, now, stamp, groupCalls);
    ghost var w := WorldOf(c);
    WorkerStep(w, open, self, now, Routes(c[self].contacts, w[self], calls), messages, edits, deletes);
    RetryLists(c, self, open, now, calls, messages, edits, deletes, w[self]);
  }

  // ---------------------------------------------------------------- two rounds, seen by the users

  /** A node that has its peer's address and gets every answer is connected, whatever its peer's
      round did to its table before. */
  lemma ConnectedLater(open: Opener, w: World, s: Protocol.Step, a: Id, b: Id, contacts: map<Id, Contact>,
                       calls: Schedule)
    requires Agreement.Inv(open, w) && s.who in w && Protocol.Enabled(w, open, s) && a in w
    requires AddressOf(contacts, b) != "" && forall op, id :: calls(op, id) == Answered
    ensures Convergence.Connected(w[a], a, b, Routes(contacts, w[a], calls))
    ensures Convergence.Connected(w[a], a, b, Routes(contacts, Protocol.Apply(w, open, s)[a], calls))
  {
    hide Protocol.Apply, Protocol.Enabled;
    var w' := Protocol.Apply(w, open, s);
    forall id, op | id in w[a] && w[a][id].sender == a && w[a][id].recipient == b
      ensures Routes(contacts, w'[a], calls)(op, id) == Answered
    {
      Agreement.StepEvolves(open, w, s, id, a);
    }
  }

  method HistoryAt(c: Cluster, self: Id, other: Id) returns (list: seq<Message>)
    requires Ready(c) && self in c
    ensures Histories.HistoryList(list, WorldOf(c)[self], Histories.Direct(self, other))
  {
    var db := c[self];
    list := db.GetMessages(Histories.Direct(self, other));
  }

  /** Two workers run once each with every call answered; then both users open the chat. */
  method Reconcile(c: Cluster, a: Id, b: Id, open: Opener, nowA: int, nowB: int, calls: Schedule,
                   stamp: Snapshots.Stamp, groupCalls: (Id, Id) -> Call)
    returns (seenByA: seq<Message>, seenByB: seq<Message>)
    requires Ready(c) && a in c && b in c && a != b && Agreement.Inv(open, WorldOf(c))
    requires AddressOf(c[a].contacts, b) != "" && AddressOf(c[b].contacts, a) != ""
    requires forall op, id :: calls(op, id) == Answered
    requires Convergence.NoneFailed(c[a].messages, a, b) && Convergence.NoneFailed(c[b].messages, b, a)
    modifies c.Values`messages, c.Values`groups, c.Values`members, c.Values`updates
    ensures Ready(c)
    ensures Histories.Entries(seenByA) == Histories.Entries(seenByB)
  {
    ghost var w := WorldOf(c);
    assert w[a] == c[a].messages && w[b] == c[b].messages;
    var ma, ea, da, pa := RunRound(c, a, open, nowA, calls, stamp, groupCalls);
    ghost var w1 := WorldOf(c);
    ghost var sa := Protocol.Worker(a, nowA, Routes(c[a].contacts, w[a], calls), ma, ea, da);
    ConnectedLater(open, w, sa, a, b, c[a].contacts, calls);
    ConnectedLater(open, w, sa, b, a, c[b].contacts, calls);
    var mb, eb, db, pb := RunRound(c, b, open, nowB, calls, stamp, groupCalls);
    ghost var sb := Protocol.Worker(b, nowB, Routes(c[b].contacts, w1[b], calls), mb, eb, db);
    seenByA := HistoryAt(c, a, b);
    seenByB := HistoryAt(c, b, a);
    Histories.RoundsAgree(open, w, sa, sb, seenByA, seenByB);
  }

  // ---------------------------------------------------------------- one round of a group's writer

  /** Each member agrees already, or can be called and handles the call. */
  ghost predicate CanAgree(w: Groups.Nodes, a: Id, g: Id, contacts: map<Id, Contact>, calls: (Id, Id) -> Call)
    requires a in w
  {
    forall k | k in Groups.MembersOf(w[a], g) && k != a ::
      k in w && (SingleWriter.Agrees(w, a, g, k) || (AddressOf(contacts, k) != "" && !calls(g, k).Lost?))
  }

  /** With the worker's routes a retry is handled only where the contacts have an address. */
  lemma ContactsIff(w: Groups.Nodes, a: Id, g: Id, pending: seq<Snapshots.Queued>, now: int,
                    stamp: Snapshots.Stamp, contacts: map<Id, Contact>, calls: (Id, Id) -> Call)
    requires a in w && Snapshots.PendingUpdates(pending, w[a]) && SingleWriter.Synced(Snapshots.RosterOf(w, g), a)
    ensures
      var w' := Snapshots.RetryUpdates(w, a, pending, now, stamp, RetryRoutes(contacts, calls));
      && Groups.MembersOf(w'[a], g) == Groups.MembersOf(w[a], g)
      && (SingleWriter.AllAgree(w', a, g) <==> CanAgree(w, a, g, contacts, calls))
  {
    hide SingleWriter.Synced, SingleWriter.Agrees, Snapshots.PendingUpdates;
    var routes := RetryRoutes(contacts, calls);
    forall k ensures routes(g, k).Lost? <==> AddressOf(contacts, k) == "" || calls(g, k).Lost? {
      assert routes(g, k) == Routed(contacts, k, calls(g, k));
    }
    SingleWriter.AllAgreeIff(w, SingleWriter.Worker(a, pending, now, stamp, routes), g);
  }

  /** The writer's worker runs once: the group agrees afterwards exactly if every member agreed
      before, or is among the contacts and handled the retry. */
  method ReconcileGroup(c: Cluster, self: Id, g: Id, open: Opener, now: int, calls: Schedule,
                        stamp: Snapshots.Stamp, groupCalls: (Id, Id) -> Call)
    requires Ready(c) && self in c && SingleWriter.Synced(Snapshots.RosterOf(NodesOf(c), g), self)
    modifies c.Values`messages, c.Values`groups, c.Values`members, c.Values`updates
    ensures Ready(c)
    ensures Groups.MembersOf(NodesOf(c)[self], g) == Groups.MembersOf(old(NodesOf(c))[self], g)
    ensures SingleWriter.AllAgree(NodesOf(c), self, g)
            <==> CanAgree(old(NodesOf(c)), self, g, c[self].contacts, groupCalls)
  {
    hide Ready, Protocol.Enabled, Protocol.Apply, Snapshots.PendingUpdates, RetryRoutes;
    hide SingleWriter.Synced, SingleWriter.AllAgree, SingleWriter.Agrees;
    ghost var w := NodesOf(c);
    var messages, edits, deletes, pending := RunRound(c, self, open, now, calls, stamp, groupCalls);
    ContactsIff(w, self, g, pending, now, stamp, c[self].contacts, groupCalls);
  }
}
