/** Group routes and snapshot delivery, acting on the nodes' databases. */
module GroupDelivery {
  import opened Common
  import opened Groups
  import opened Snapshots
  import opened Database
  import opened Delivery
  import SingleWriter

  ghost function NodesOf(c: Cluster): Nodes
    reads c.Values`groups, c.Values`members, c.Values`updates
  {
    map n | n in c :: c[n].GroupTables()
  }

  lemma NodesStep(c: Cluster, w: Nodes, n: Id, t: Tables)
    requires n in c && w.Keys == c.Keys && (forall x | x in c && x != n :: c[x].GroupTables() == w[x])
    requires c[n].GroupTables() == t
    ensures NodesOf(c) == w[n := t]
  {
  }

  // ---------------------------------------------------------------- the receiver

  /** The loop that reads the members out of the snapshot; added_at is not read. */
  method ReadMembers(list: seq<Member>, stamp: Stamp) returns (members: seq<Member>)
    ensures members == Arrived(list, stamp)
  {
    members := [];
    for i := 0 to |list|
      invariant members == Arrived(list[..i], stamp)
    {
      assert Front(list[..i + 1]) == list[..i];
      members := members + [list[i].(addedAt := stamp(list[i].id))];
    }
    assert list[..|list|] == list;
  }

  method AcceptGroupUpdate(db: DbManager, g: Id, s: Snapshot, now: int, stamp: Stamp) returns (code: int)
    requires db.Valid()
    modifies db`groups, db`members
    ensures db.Valid()
    ensures Accepted(db.GroupTables(), code) == AcceptSnapshot(old(db.GroupTables()), g, s, now, stamp)
  {
    var row := db.GetGroup(g);
    if row.None? {
      var created := db.CreateGroup(g, GroupInfo(if s.name == "" then g else s.name, s.sender, now));
    } else if s.name != "" && row.value.name != s.name {
      db.UpdateGroupName(g, s.name);
    }
    var members := ReadMembers(s.members, stamp);
    var ok := db.ReplaceGroupMembers(g, members);
    if !ok { return 500; }
    return 200;
  }

  // ---------------------------------------------------------------- pushing and retrying

  method SendSnapshot(c: Cluster, self: Id, to: Id, g: Id, s: Snapshot, now: int, stamp: Stamp, call: Call)
    returns (status: Option<int>)
    requires Ready(c) && self in c
    modifies c.Values`groups, c.Values`members
    ensures Ready(c)
    ensures Sent(NodesOf(c), status == Some(200)) == PostSnapshot(old(NodesOf(c)), self, to, g, s, now, stamp, call)
  {
    if call.Lost? || to !in c || to == self { return None; }
    ghost var w := NodesOf(c);
    var peer := c[to];
    var code := AcceptGroupUpdate(peer, g, s, now, stamp);
    NodesStep(c, w, to, peer.GroupTables());
    status := if call.Answered? then Some(code) else None;
  }

  /** One POST of a queued snapshot, and its UPDATE on 200. */
  method PushSnapshot(c: Cluster, self: Id, to: Id, g: Id, s: Snapshot, now: int, stamp: Stamp, call: Call)
    returns (ok: bool)
    requires Ready(c) && self in c
    modifies c.Values`groups, c.Values`members, c.Values`updates
    ensures Ready(c)
    ensures Sent(NodesOf(c), ok) == PostAndMark(old(NodesOf(c)), self, to, g, s, now, stamp, call)
  {
    var status := SendSnapshot(c, self, to, g, s, now, stamp, call);
    ok := status == Some(200);
    if ok {
      ghost var w := NodesOf(c);
      var db := c[self];
      db.MarkGroupUpdateAccepted(g, to);
      NodesStep(c, w, self, db.GroupTables());
    }
  }

  /** The fan-out loop's body: queue the snapshot, then push it if there is an address. */
  method DeliverTo(c: Cluster, self: Id, m: Member, g: Id, s: Snapshot, now: int, stamp: Stamp, call: Call)
    returns (ok: bool)
    requires Ready(c) && self in c
    modifies c.Values`groups, c.Values`members, c.Values`updates
    ensures Ready(c)
    ensures Sent(NodesOf(c), ok) == PushTo(old(NodesOf(c)), self, m, g, s, now, stamp, call)
  {
    ghost var w := NodesOf(c);
    var db := c[self];
    db.UpsertGroupUpdate(g, m.id, s, s.version, now);
    NodesStep(c, w, self, db.GroupTables());
    if m.address == "" { return false; }
    ok := PushSnapshot(c, self, m.id, g, s, now, stamp, call);
  }

  /** deliver_group_update: everyone but the sender. */
  method DeliverGroupUpdate(c: Cluster, self: Id, g: Id, list: seq<Member>, version: int, now: int, stamp: Stamp,
                            calls: Id -> Call) returns (allOnline: bool)
    requires Ready(c) && self in c
    modifies c.Values`groups, c.Values`members, c.Values`updates
    ensures Ready(c)
    ensures
      var groups := old(c[self].groups);
      var s := Snapshot(self, if g in groups then groups[g].name else "", version, list);
      Sent(NodesOf(c), allOnline) == FanOut(old(NodesOf(c)), self, list, g, s, now, stamp, calls)
  {
    var db := c[self];
    var group := db.GetGroup(g);
    hide PushTo, Ready;
    var s := Snapshot(self, if group.Some? then group.value.name else "", version, list);
    allOnline := true;
    for i := 0 to |list|
      invariant Ready(c)
      invariant Sent(NodesOf(c), allOnline) == FanOut(old(NodesOf(c)), self, list[..i], g, s, now, stamp, calls)
    {
      var m := list[i];
      assert Front(list[..i + 1]) == list[..i];
      if m.id != self {
        var ok := DeliverTo(c, self, m, g, s, now, stamp, calls(m.id));
        if !ok {
          allOnline := false;
        }
      }
    }
    assert list[..|list|] == list;
  }

  /** The retries go to the address in the contacts, not the one in the snapshot. */
  function RetryRoutes(contacts: map<Id, Contact>, calls: (Id, Id) -> Call): (Id, Id) -> Call {
    (g, k) => Routed(contacts, k, calls(g, k))
  }

  /** So a group member who is not among the writer's contacts is never sent what it missed. */
  lemma NotAContact(w: Nodes, a: Id, pending: seq<Queued>, now: int, stamp: Stamp, contacts: map<Id, Contact>,
                    calls: (Id, Id) -> Call, g: Id, k: Id)
    requires a in w && k != a && AddressOf(contacts, k) == ""
    ensures
      var w' := RetryUpdates(w, a, pending, now, stamp, RetryRoutes(contacts, calls));
      && Get(UpdatesOf(w'[a], g), k) == Get(UpdatesOf(w[a], g), k)
      && (k in w ==> MembersOf(w'[k], g) == MembersOf(w[k], g))
  {
    var w' := RetryUpdates(w, a, pending, now, stamp, RetryRoutes(contacts, calls));
    assert RetryRoutes(contacts, calls)(g, k) == Routed(contacts, k, calls(g, k));
    SingleWriter.UncalledStays(w, a, pending, now, stamp, RetryRoutes(contacts, calls), g, k);
    assert RosterOf(w, g)[a] == SeatOf(w[a], g) && RosterOf(w', g)[a] == SeatOf(w'[a], g);
    assert k in w ==> RosterOf(w, g)[k] == SeatOf(w[k], g) && RosterOf(w', g)[k] == SeatOf(w'[k], g);
  }

  /** Member by member, after one round of the writer's worker: its update is accepted exactly if it
      was before or it is a contact that answered, and it agrees exactly if it did before or it is a
      contact that handled the retry. */
  lemma ContactIff(w: Nodes, a: Id, pending: seq<Queued>, now: int, stamp: Stamp, contacts: map<Id, Contact>,
                   calls: (Id, Id) -> Call, g: Id, k: Id)
    requires a in w && PendingUpdates(pending, w[a]) && SingleWriter.Synced(RosterOf(w, g), a)
    requires k in MembersOf(w[a], g) && k != a
    ensures
      var w' := RetryUpdates(w, a, pending, now, stamp, RetryRoutes(contacts, calls));
      && k in UpdatesOf(w[a], g) && k in UpdatesOf(w'[a], g)
      && (UpdatesOf(w'[a], g)[k].accepted == 1 <==>
            || UpdatesOf(w[a], g)[k].accepted == 1
            || (k in w && AddressOf(contacts, k) != "" && calls(g, k) == Answered))
      && (k in w ==> (SingleWriter.Agrees(w', a, g, k) <==>
                        SingleWriter.Agrees(w, a, g, k) || (AddressOf(contacts, k) != "" && !calls(g, k).Lost?)))
  {
    hide SingleWriter.Synced, SingleWriter.Agrees, PendingUpdates;
    var routes := RetryRoutes(contacts, calls);
    assert routes(g, k) == Routed(contacts, k, calls(g, k));
    SingleWriter.RoundIff(w, SingleWriter.Worker(a, pending, now, stamp, routes), g, k);
  }

  /** A run from empty nodes: a creates a group and adds b, whom it has not among its contacts; the
      push is lost, and a round in which every call would be answered leaves b unaware. */
  lemma NonContactHappens() returns (w: Nodes, run: seq<SingleWriter.Step>)
    ensures w.Keys == {"a", "b"} && SingleWriter.Unused(RosterOf(w, "g"))
    ensures SingleWriter.Possible(w, run, "a", "g") && SingleWriter.After(w, run).Some?
    ensures run != [] && Last(run).Worker? && Last(run).retries == RetryRoutes(map[], (g, k) => Answered)
    ensures
      var w' := SingleWriter.After(w, run).value;
      "a" in w' && "b" in MembersOf(w'["a"], "g") && !SingleWriter.AllAgree(w', "a", "g")
  {
    hide SingleWriter.Apply, SingleWriter.Synced, Lists, PendingUpdates;
    hide SingleWriter.Possible, SingleWriter.After, RetryUpdates;
    var none := Tables(map[], map[], map[]);
    w := map["a" := none, "b" := none];
    var me, b := Member("a", "a.example", "admin", 1), Member("b", "b.example", "member", 2);
    var stamp: Stamp, lost: Id -> Call := (k: Id) => 0, (k: Id) => Lost;
    var s1 := SingleWriter.Create("a", "g", "", "a.example", 1);
    var s2 := SingleWriter.AddMember("a", "g", "b", "b.example", None, [me], 2, stamp, lost);
    var w1 := SingleWriter.Apply(w, s1);
    CreatedAlone(w, s1, me);
    var w2 := SingleWriter.Apply(w1, s2);
    var update := AddedQueued(w1, s2, me, b);
    var routes := RetryRoutes(map[], (g, k) => Answered);
    assert routes("g", "b") == Routed(map[], "b", Answered);
    var s3 := SingleWriter.Worker("a", [Queued("g", "b", update)], 3, stamp, routes);
    SingleWriter.LostPushStays(w1, s2, s3);
    run := [s1, s2, s3];
    SingleWriter.ThreeSteps(w, s1, s2, s3, "a", "g");
    var w3 := SingleWriter.Apply(w2, s3);
    SingleWriter.SyncedAlways(w, [s1, s2], "a", "g");
    SingleWriter.AllAgreeIff(w2, s3, "g");
    assert "b" in MembersOf(w3["a"], "g") && MembersOf(w3["b"], "g") == map[];
    assert "b" in Cards(MembersOf(w3["a"], "g")) && "b" !in Cards(MembersOf(w3["b"], "g"));
    assert !SingleWriter.Agrees(w3, "a", "g", "b");
  }

  lemma CreatedAlone(w: Nodes, s: SingleWriter.Step, me: Member)
    requires s.Create? && SingleWriter.Enabled(w, s) && w[s.who] == Tables(map[], map[], map[])
    requires me == Member(s.who, s.address, "admin", s.now)
    ensures
      var t := SingleWriter.Apply(w, s)[s.who];
      Lists([me], MembersOf(t, s.group)) && t.updates == map[]
    ensures forall n | n in w && n != s.who :: SingleWriter.Apply(w, s)[n] == w[n]
  {
    SingleWriter.CreatorIsAdmin(w, s);
    assert [me] == [] + [me];
    Append([], me);
  }

  /** The queue after the first addition, its push lost. */
  lemma AddedQueued(w: Nodes, s: SingleWriter.Step, me: Member, m: Member) returns (u: Update)
    requires s.AddMember? && s.list == [me] && SingleWriter.Enabled(w, s) && w[s.who].updates == map[]
    requires me.id == s.who != s.id && s.selfAddress == None && s.calls(s.id) == Lost
    requires m == Member(s.id, s.address, "member", s.now) && s.address != ""
    ensures
      var t := SingleWriter.Apply(w, s)[s.who];
      PendingUpdates([Queued(s.group, s.id, u)], t) && s.id in MembersOf(t, s.group)
  {
    var a, g := s.who, s.group;
    var list := [me, m];
    assert [me] == [] + [me];
    Append([], me);
    assert [me] + [m] == list;
    Append([me], m);
    assert Added([me], a, s.id, s.address, None, s.now) == list;
    var t := ReplaceMembers(w[a], g, list);
    var snap := SnapshotOf(t, g, a, list, s.now);
    assert Front([me]) == [] && Front(list) == [me];
    assert FanOut(w[a := t], a, [me], g, snap, s.now, s.stamp, s.calls) == Sent(w[a := t], true);
    u := Update(snap, s.now, 0, s.now);
    assert SingleWriter.Apply(w, s)[a] == Queue(t, g, snap, s.id, s.now);
  }

  method RetryGroupUpdate(c: Cluster, self: Id, u: Queued, now: int, stamp: Stamp, call: Call) returns (ok: bool)
    requires Ready(c) && self in c
    modifies c.Values`groups, c.Values`members, c.Values`updates
    ensures Ready(c)
    ensures Sent(NodesOf(c), ok) == PostAndMark(old(NodesOf(c)), self, u.member, u.group, u.update.snapshot, now, stamp,
                                                Routed(c[self].contacts, u.member, call))
  {
    var db := c[self];
    var address := db.GetContactAddress(u.member);
    if address == "" { return false; }
    ok := PushSnapshot(c, self, u.member, u.group, u.update.snapshot, now, stamp, call);
  }

  /** The worker's loop over the updates it listed. */
  method RetryGroupUpdates(c: Cluster, self: Id, pending: seq<Queued>, now: int, stamp: Stamp, calls: (Id, Id) -> Call)
    requires Ready(c) && self in c
    modifies c.Values`groups, c.Values`members, c.Values`updates
    ensures Ready(c)
    ensures NodesOf(c) == RetryUpdates(old(NodesOf(c)), self, pending, now, stamp, RetryRoutes(c[self].contacts, calls))
  {
    hide PostAndMark, Ready;
    ghost var routes := RetryRoutes(c[self].contacts, calls);
    for i := 0 to |pending|
      invariant Ready(c)
      invariant NodesOf(c) == RetryUpdates(old(NodesOf(c)), self, pending[..i], now, stamp, routes)
    {
      var u := pending[i];
      assert Front(pending[..i + 1]) == pending[..i];
      var ok := RetryGroupUpdate(c, self, u, now, stamp, calls(u.group, u.member));
    }
    assert pending[..|pending|] == pending;
  }
}
