/** The routes that create a group, change its members, and send to it. */
module GroupRoutes {
  import opened Common
  import opened Groups
  import opened Snapshots
  import opened Database
  import opened Delivery
  import opened GroupDelivery
  import Agreement
  import GroupEdits
  import GroupMessages
  import Messages
  import Outcomes
  import Protocol
  import Replication
  import SingleWriter

  method CreateGroupRoute(c: Cluster, self: Id, g: Id, name: string, address: string, now: int) returns (code: int)
    requires Ready(c) && self in c
    modifies c.Values`groups, c.Values`members
    ensures Ready(c)
    ensures NodesOf(c) == SingleWriter.Apply(old(NodesOf(c)), SingleWriter.Create(self, g, name, address, now))
    ensures code == if g in old(c[self].groups) then 500 else 200
  {
    ghost var w := NodesOf(c);
    var db := c[self];
    var created := db.CreateGroup(g, GroupInfo(name, self, now));
    if created {
      var me := Member(self, address, "admin", now);
      var ok := db.ReplaceGroupMembers(g, [me]);
      assert [me] == [] + [me];
      Append([], me);
    }
    NodesStep(c, w, self, db.GroupTables());
    code := if created then 200 else 500;
  }

  /** The two search loops of add_member: the first row with the id gets the address. */
  method SetMemberAddress(list: seq<Member>, id: Id, address: string) returns (r: seq<Member>, found: bool)
    ensures r == SetAddress(list, id, address) && (found <==> id in Tabled(list)) && (!found ==> r == list)
  {
    r, found := list, false;
    var i := 0;
    while i < |list|
      invariant i <= |list| && r == list && !found
      invariant forall j | 0 <= j < i :: list[j].id != id
    {
      if r[i].id == id {
        SetAddressAt(list, id, address, i);
        r, found := r[i := r[i].(address := address)], true;
        return;
      }
      i := i + 1;
    }
    SetAddressAt(list, id, address, i);
  }

  /** What add_member does to the list it read. */
  method AddTo(existing: seq<Member>, self: Id, id: Id, address: string, selfAddress: Option<string>, now: int)
    returns (list: seq<Member>)
    ensures list == Added(existing, self, id, address, selfAddress, now)
  {
    list := existing;
    if selfAddress.Some? {
      var seen;
      list, seen := SetMemberAddress(list, self, selfAddress.value);
    }
    var found;
    list, found := SetMemberAddress(list, id, address);
    if !found {
      list := list + [Member(id, address, "member", now)];
    }
  }

  method MembersAt(c: Cluster, self: Id, g: Id) returns (list: seq<Member>)
    requires Ready(c) && self in c
    ensures self in NodesOf(c) && Lists(list, MembersOf(NodesOf(c)[self], g))
  {
    var db := c[self];
    list := db.GetGroupMembers(g);
  }

  /** replace_group_members, and then deliver_group_update unless a row was refused. */
  method StoreAndDeliver(c: Cluster, self: Id, g: Id, list: seq<Member>, now: int, stamp: Stamp, calls: Id -> Call)
    returns (ok: bool, delivered: bool)
    requires Ready(c) && self in c
    modifies c.Values`groups, c.Values`members, c.Values`updates
    ensures Ready(c)
    ensures Sent(NodesOf(c), delivered) == SingleWriter.StoreAndPush(old(NodesOf(c)), self, g, list, now, stamp, calls)
    ensures ok <==> NoRepeats(list)
  {
    hide FanOut;
    ghost var w := NodesOf(c);
    var db := c[self];
    ok := db.ReplaceGroupMembers(g, list);
    NodesStep(c, w, self, db.GroupTables());
    if !ok { return ok, false; }
    delivered := DeliverGroupUpdate(c, self, g, list, now, now, stamp, calls);
  }

  lemma AddStep(w: Nodes, a: Id, g: Id, id: Id, address: string, selfAddress: Option<string>, list: seq<Member>,
                now: int, stamp: Stamp, calls: Id -> Call)
    requires a in w && Lists(list, MembersOf(w[a], g))
    ensures
      var s := SingleWriter.AddMember(a, g, id, address, selfAddress, list, now, stamp, calls);
      var list' := Added(list, a, id, address, selfAddress, now);
      && SingleWriter.Enabled(w, s) && NoRepeats(list')
      && SingleWriter.Apply(w, s) == SingleWriter.StoreAndPush(w, a, g, list', now, stamp, calls).nodes
  {
    AddedTabled(list, a, id, address, selfAddress, now);
  }

  lemma RemoveStep(w: Nodes, a: Id, g: Id, id: Id, list: seq<Member>, now: int, stamp: Stamp, calls: Id -> Call)
    requires a in w && Lists(list, MembersOf(w[a], g))
    ensures
      var s := SingleWriter.RemoveMember(a, g, id, list, now, stamp, calls);
      && SingleWriter.Enabled(w, s)
      && SingleWriter.Apply(w, s) == SingleWriter.RemoveFrom(w, a, g, id, list, now, stamp, calls)
    ensures NoRepeats(Without(list, id)) && (|Without(list, id)| == |list| <==> id !in MembersOf(w[a], g))
  {
    RemoveIsDifference(list, MembersOf(w[a], g), id);
  }

  method AddMemberRoute(c: Cluster, self: Id, g: Id, id: Id, address: string, selfAddress: Option<string>, now: int,
                        stamp: Stamp, calls: Id -> Call) returns (code: int, delivered: bool, existing: seq<Member>)
    requires Ready(c) && self in c
    modifies c.Values`groups, c.Values`members, c.Values`updates
    ensures Ready(c) && code == 200
    ensures
      var w := old(NodesOf(c));
      var s := SingleWriter.AddMember(self, g, id, address, selfAddress, existing, now, stamp, calls);
      var list := Added(existing, self, id, address, selfAddress, now);
      && SingleWriter.Enabled(w, s) && NodesOf(c) == SingleWriter.Apply(w, s)
      && delivered == SingleWriter.StoreAndPush(w, self, g, list, now, stamp, calls).ok
  {
    hide NodesOf, Ready, Lists, NoRepeats, Added, SingleWriter.StoreAndPush, SingleWriter.Enabled, SingleWriter.Apply;
    existing := MembersAt(c, self, g);
    var list := AddTo(existing, self, id, address, selfAddress, now);
    AddStep(NodesOf(c), self, g, id, address, selfAddress, existing, now, stamp, calls);
    var ok;
    ok, delivered := StoreAndDeliver(c, self, g, list, now, stamp, calls);
    code := if ok then 200 else 500;
  }

  /** The loop that keeps everybody else. */
  method KeepOthers(list: seq<Member>, id: Id) returns (rest: seq<Member>)
    ensures rest == Without(list, id)
  {
    rest := [];
    for i := 0 to |list|
      invariant rest == Without(list[..i], id)
    {
      assert Front(list[..i + 1]) == list[..i];
      if list[i].id != id {
        rest := rest + [list[i]];
      }
    }
    assert list[..|list|] == list;
  }

  method DeleteAt(c: Cluster, self: Id, g: Id)
    requires Ready(c) && self in c
    modifies c.Values`groups, c.Values`members
    ensures Ready(c)
    ensures NodesOf(c) == old(NodesOf(c))[self := SingleWriter.DeleteGroup(old(NodesOf(c))[self], g)]
  {
    ghost var w := NodesOf(c);
    var db := c[self];
    db.DeleteGroup(g);
    NodesStep(c, w, self, db.GroupTables());
  }

  method RemoveMemberRoute(c: Cluster, self: Id, g: Id, id: Id, now: int, stamp: Stamp, calls: Id -> Call)
    returns (code: int, delivered: bool, existing: seq<Member>)
    requires Ready(c) && self in c
    modifies c.Values`groups, c.Values`members, c.Values`updates
    ensures Ready(c)
    ensures
      var w, s := old(NodesOf(c)), SingleWriter.RemoveMember(self, g, id, existing, now, stamp, calls);
      SingleWriter.Enabled(w, s) && NodesOf(c) == SingleWriter.Apply(w, s)
    ensures code == if id in MembersOf(old(NodesOf(c))[self], g) then 200 else 404
    ensures code == 200 ==>
      delivered == SingleWriter.StoreAndPush(old(NodesOf(c)), self, g, Without(existing, id), now, stamp, calls).ok
  {
    hide NodesOf, Ready, Lists, NoRepeats, Without, SingleWriter.StoreAndPush, SingleWriter.Enabled, SingleWriter.Apply;
    existing := MembersAt(c, self, g);
    var rest := KeepOthers(existing, id);
    RemoveStep(NodesOf(c), self, g, id, existing, now, stamp, calls);
    if |rest| == |existing| { return 404, false, existing; }
    var ok;
    ok, delivered := StoreAndDeliver(c, self, g, rest, now, stamp, calls);
    if !ok { return 500, false, existing; }
    if delivered && rest == [] {
      DeleteAt(c, self, g);
    }
    code := 200;
  }

  // ---------------------------------------------------------------- sending to the group

  /** The loop's view of the members: the address in the list, or else the one in the contacts. */
  function Addressees(list: seq<Member>, contacts: map<Id, Contact>, ciphers: Id -> Option<string>)
    : seq<GroupMessages.Addressee>
  {
    seq(|list|, i requires 0 <= i < |list| =>
      GroupMessages.Addressee(list[i].id, ciphers(list[i].id),
                              if list[i].address == "" then AddressOf(contacts, list[i].id) else list[i].address))
  }

  /** The address in the list comes first; the contact's stands in for an empty one. */
  lemma AddresseesMean(list: seq<Member>, contacts: map<Id, Contact>, ciphers: Id -> Option<string>, i: nat)
    requires i < |list|
    ensures |Addressees(list, contacts, ciphers)| == |list|
    ensures
      var m, to := list[i], Addressees(list, contacts, ciphers)[i];
      && to.id == m.id && to.cipher == ciphers(m.id)
      && (m.address != "" ==> to.address == m.address)
      && (m.address == "" && m.id in contacts ==> to.address == contacts[m.id].address)
      && (m.address == "" && m.id !in contacts ==> to.address == "")
  {
  }

  /** A member list names each member once, so the loops call each once. */
  lemma AddresseesDistinct(list: seq<Member>, rows: map<Id, Member>, contacts: map<Id, Contact>,
                           ciphers: Id -> Option<string>)
    requires Lists(list, rows)
    ensures GroupEdits.OnlyIds(Addressees(list, contacts, ciphers))
  {
    RepeatsMean(list);
  }

  // What the loops come to, when the network is in a state the protocol can reach.

  lemma SendLoop(open: Messages.Opener, w: Replication.World, a: Id, id: Id, g: Id, text: Text, time: int,
                 list: seq<GroupMessages.Addressee>, calls: Id -> Call)
    requires a in w && id !in w[a]
    ensures GroupMessages.GroupSend(w, a, open, id, g, text, time, list, calls).world
         == SendOutcome(open, w, a, id, g, text, time, list, calls)
  {
    GroupMessages.GroupSendIsSend(w, a, open, id, g, text, time, list, calls);
  }

  /** One send step, to the first member encryption worked for. */
  function SendOutcome(open: Messages.Opener, w: Replication.World, a: Id, id: Id, g: Id, text: Text, time: int,
                       list: seq<GroupMessages.Addressee>, calls: Id -> Call): Replication.World
    requires a in w
  {
    var first := GroupMessages.FirstServed(list, a);
    if first.None? then w
    else Protocol.Apply(w, open, Protocol.Send(a, id, first.value.id, g, text, first.value.cipher, time,
                                               GroupEdits.RouteOf(first.value, calls(first.value.id))))
  }

  /** The message is one a node of the running protocol sent to another. */
  ghost predicate Sendable(open: Messages.Opener, w: Replication.World, a: Id, id: Id) {
    Agreement.Inv(open, w) && a in w && id in w[a] && w[a][id].sender == a && w[a][id].recipient != a
  }

  /** One edit step, for the message's recipient if still a member. */
  function EditOutcome(open: Messages.Opener, w: Replication.World, a: Id, id: Id, text: Text, time: int,
                       list: seq<GroupMessages.Addressee>, calls: Id -> Call): Replication.World
    requires a in w && id in w[a]
  {
    var to := GroupEdits.Find(list, w[a][id].recipient);
    if to.None? then w
    else Protocol.Apply(w, open, Protocol.Edit(a, id, text, to.value.cipher, time,
                                               GroupEdits.RouteOf(to.value, calls(to.value.id))))
  }

  lemma EditLoop(open: Messages.Opener, w: Replication.World, a: Id, id: Id, text: Text, time: int,
                 members: seq<Member>, rows: map<Id, Member>, contacts: map<Id, Contact>,
                 ciphers: Id -> Option<string>, calls: Id -> Call)
    requires Lists(members, rows) && a in w && id in w[a]
    ensures
      var list := Addressees(members, contacts, ciphers);
      Sendable(open, w, a, id) ==>
        GroupEdits.GroupEdit(w, a, open, id, text, time, list, calls)
          == EditOutcome(open, w, a, id, text, time, list, calls)
  {
    AddresseesDistinct(members, rows, contacts, ciphers);
    if Sendable(open, w, a, id) {
      GroupEdits.GroupEditIsEdit(open, w, a, id, text, time, Addressees(members, contacts, ciphers), calls);
    }
  }

  /** One delete step, its call lost unless the message's recipient is still a member. */
  function DeleteOutcome(open: Messages.Opener, w: Replication.World, a: Id, id: Id, time: int,
                         list: seq<GroupMessages.Addressee>, calls: Id -> Call): Replication.World
    requires a in w && id in w[a]
  {
    var to := GroupEdits.Find(list, w[a][id].recipient);
    Protocol.Apply(w, open, Protocol.Delete(a, id, time, if to.None? then Lost
                                                         else GroupEdits.RouteOf(to.value, calls(to.value.id))))
  }

  lemma DeleteLoop(open: Messages.Opener, w: Replication.World, a: Id, id: Id, time: int,
                   members: seq<Member>, rows: map<Id, Member>, contacts: map<Id, Contact>, calls: Id -> Call)
    requires Lists(members, rows) && a in w && id in w[a]
    ensures
      var list := Addressees(members, contacts, k => None);
      Sendable(open, w, a, id) ==>
        GroupEdits.GroupDelete(w, a, open, id, time, list, calls) == DeleteOutcome(open, w, a, id, time, list, calls)
  {
    AddresseesDistinct(members, rows, contacts, k => None);
    if Sendable(open, w, a, id) {
      GroupEdits.GroupDeleteIsDelete(open, w, a, id, time, Addressees(members, contacts, k => None), calls);
    }
  }

  lemma SendToIff(w: Replication.World, a: Id, open: Messages.Opener, id: Id, g: Id, text: Text, time: int,
                  to: GroupMessages.Addressee, call: Call)
    requires a in w
    ensures to.cipher.Some? && Readable(w, open, id, a, to.id, to.cipher.value, text) ==>
              (GroupMessages.SendTo(w, a, open, id, g, text, time, to, call).ok
               <==> to.address != "" && Outcomes.Answers(w, a, to.id, call))
  {
    if to.cipher.Some? && Readable(w, open, id, a, to.id, to.cipher.value, text) {
      var m := Messages.NewMessage(id, a, to.id, g, text, to.cipher.value, Messages.PENDING, time);
      Outcomes.SentIff(w, a, open, m, text, if to.address == "" then Lost else call);
    }
  }

  /** The loop body for a member other than the sender: store one row, post it, mark it on 200. */
  method SendToMember(c: Cluster, self: Id, open: Messages.Opener, id: Id, g: Id, text: Text, time: int,
                      to: GroupMessages.Addressee, call: Call) returns (ok: bool)
    requires Ready(c) && self in c
    modifies c.Values`messages
    ensures Ready(c)
    ensures Replication.Sent(WorldOf(c), ok)
      == GroupMessages.SendTo(old(WorldOf(c)), self, open, id, g, text, time, to, call)
    ensures to.cipher.Some? && Readable(old(WorldOf(c)), open, id, self, to.id, to.cipher.value, text) ==>
              (ok <==> to.address != "" && Outcomes.Answers(old(WorldOf(c)), self, to.id, call))
  {
    hide Readable, Outcomes.Answers;
    SendToIff(WorldOf(c), self, open, id, g, text, time, to, call);
    if to.cipher.None? { return false; }
    ghost var w := WorldOf(c);
    var db := c[self];
    var m := Messages.NewMessage(id, self, to.id, g, text, to.cipher.value, Messages.PENDING, time);
    var added := db.AddMessage(m);
    if !added {
      WorldStep(c, w, self, w[self]);
      return false;
    }
    WorldStep(c, w, self, db.messages);
    assert WorldOf(c) == w[self := Messages.Put(w[self], id, Some(m))];
    if to.address == "" { return false; }
    var req := Messages.RequestOf(Messages.Op.Messages, m);
    var status := SendRequest(c, self, open, req, call);
    ok := status == Some(200);
    if ok {
      Acknowledge(c, self, req, Some(to.id));
    }
  }

  method SendGroupRoute(c: Cluster, self: Id, open: Messages.Opener, id: Id, g: Id, text: Text, time: int,
                        ciphers: Id -> Option<string>, calls: Id -> Call)
    returns (code: int, allOnline: bool, members: seq<Member>)
    requires Ready(c) && self in c
    modifies c.Values`messages
    ensures Ready(c) && self in NodesOf(c) && Lists(members, MembersOf(NodesOf(c)[self], g))
    ensures code == if members == [] then 404 else 200
    ensures code == 404 ==> WorldOf(c) == old(WorldOf(c))
    ensures code == 200 ==>
      Replication.Sent(WorldOf(c), allOnline) == GroupMessages.GroupSend(
        old(WorldOf(c)), self, open, id, g, text, time, Addressees(members, c[self].contacts, ciphers), calls)
    ensures code == 200 && id !in old(WorldOf(c))[self] ==>
      WorldOf(c) == SendOutcome(open, old(WorldOf(c)), self, id, g, text, time,
                                Addressees(members, c[self].contacts, ciphers), calls)
  {
    hide NodesOf, Ready, Lists, GroupMessages.SendTo, SendOutcome;
    ghost var w := WorldOf(c);
    members := MembersAt(c, self, g);
    if members == [] { return 404, false, members; }
    var contacts := c[self].contacts;
    var list := Addressees(members, contacts, ciphers);
    allOnline := true;
    for i := 0 to |list|
      invariant Ready(c)
      invariant Replication.Sent(WorldOf(c), allOnline)
             == GroupMessages.GroupSend(old(WorldOf(c)), self, open, id, g, text, time, list[..i], calls)
    {
      assert Front(list[..i + 1]) == list[..i];
      if list[i].id != self {
        var ok := SendToMember(c, self, open, id, g, text, time, list[i], calls(list[i].id));
        if !ok {
          allOnline := false;
        }
      }
    }
    assert list[..|list|] == list;
    if id !in w[self] { SendLoop(open, w, self, id, g, text, time, list, calls); }
    code := 200;
  }

  // ---------------------------------------------------------------- editing and deleting what was sent

  /** The POST for one member, and its UPDATE on 200. */
  method CallMember(c: Cluster, self: Id, open: Messages.Opener, req: Messages.Request, to: GroupMessages.Addressee,
                    call: Call)
    requires Ready(c) && self in c && !req.MessageReq?
    modifies c.Values`messages
    ensures Ready(c)
    ensures WorldOf(c) == Replication.Attempt(old(WorldOf(c)), self, open, req, Some(to.id),
                                              GroupEdits.RouteOf(to, call)).world
  {
    if to.address == "" { return; }
    var status := SendRequest(c, self, open, req, call);
    if status == Some(200) {
      Acknowledge(c, self, req, Some(to.id));
    }
  }

  method EditMember(c: Cluster, self: Id, open: Messages.Opener, id: Id, text: Text, time: int,
                    to: GroupMessages.Addressee, call: Call)
    requires Ready(c) && self in c
    modifies c.Values`messages
    ensures Ready(c)
    ensures WorldOf(c) == GroupEdits.EditTo(old(WorldOf(c)), self, open, id, text, time, to, call)
  {
    hide Replication.Attempt;
    if to.cipher.None? { return; }
    ghost var w := WorldOf(c);
    var db := c[self];
    db.UpdateMessageEditFor(id, to.id, text, to.cipher.value, time);
    WorldStep(c, w, self, db.messages);
    assert WorldOf(c) == GroupEdits.EditFor(w, self, id, to.id, text, to.cipher.value, time);
    CallMember(c, self, open, Messages.EditReq(id, self, to.id, to.cipher.value, time), to, call);
  }

  method EditGroupRoute(c: Cluster, self: Id, open: Messages.Opener, id: Id, g: Id, text: Text, time: int,
                        ciphers: Id -> Option<string>, calls: Id -> Call) returns (code: int, members: seq<Member>)
    requires Ready(c) && self in c
    modifies c.Values`messages
    ensures Ready(c) && self in NodesOf(c) && Lists(members, MembersOf(NodesOf(c)[self], g))
    ensures
      var t := old(c[self].messages);
      code == if id !in t || t[id].group != g then 404 else if t[id].sender != self then 403
              else if members == [] then 404 else 200
    ensures WorldOf(c) ==
      if code != 200 then old(WorldOf(c))
      else GroupEdits.GroupEdit(old(WorldOf(c)), self, open, id, text, time,
                                Addressees(members, c[self].contacts, ciphers), calls)
    ensures code == 200 && Sendable(open, old(WorldOf(c)), self, id) ==>
      WorldOf(c) == EditOutcome(open, old(WorldOf(c)), self, id, text, time,
                                Addressees(members, c[self].contacts, ciphers), calls)
  {
    hide NodesOf, Ready, Lists, GroupEdits.EditTo, Sendable, EditOutcome;
    ghost var w := WorldOf(c);
    members := MembersAt(c, self, g);
    var db := c[self];
    var row := db.GetMessage(id);
    if row.None? || row.value.group != g { return 404, members; }
    if row.value.sender != self { return 403, members; }
    if members == [] { return 404, members; }
    var list := Addressees(members, db.contacts, ciphers);
    for i := 0 to |list|
      invariant Ready(c)
      invariant WorldOf(c) == GroupEdits.GroupEdit(old(WorldOf(c)), self, open, id, text, time, list[..i], calls)
    {
      assert Front(list[..i + 1]) == list[..i];
      if list[i].id != self {
        EditMember(c, self, open, id, text, time, list[i], calls(list[i].id));
      }
    }
    assert list[..|list|] == list;
    EditLoop(open, w, self, id, text, time, members, MembersOf(NodesOf(c)[self], g), db.contacts, ciphers, calls);
    code := 200;
  }

  method DeleteCallsLoop(c: Cluster, self: Id, open: Messages.Opener, id: Id, list: seq<GroupMessages.Addressee>,
                         calls: Id -> Call)
    requires Ready(c) && self in c
    modifies c.Values`messages
    ensures Ready(c)
    ensures WorldOf(c) == GroupEdits.DeleteCalls(old(WorldOf(c)), self, open, id, list, calls)
  {
    hide Ready, Replication.Attempt;
    for i := 0 to |list|
      invariant Ready(c)
      invariant WorldOf(c) == GroupEdits.DeleteCalls(old(WorldOf(c)), self, open, id, list[..i], calls)
    {
      var to := list[i];
      assert Front(list[..i + 1]) == list[..i];
      if to.id != self {
        CallMember(c, self, open, Messages.DeleteReq(id, self, to.id), to, calls(to.id));
      }
    }
    assert list[..|list|] == list;
  }

  method DeleteGroupMessageRoute(c: Cluster, self: Id, open: Messages.Opener, id: Id, g: Id, time: int,
                                 calls: Id -> Call) returns (code: int, members: seq<Member>)
    requires Ready(c) && self in c
    modifies c.Values`messages
    ensures Ready(c) && self in NodesOf(c) && Lists(members, MembersOf(NodesOf(c)[self], g))
    ensures
      var t := old(c[self].messages);
      && code == (if id !in t || t[id].group != g then 404 else if t[id].sender != self then 403 else 200)
      && WorldOf(c) == if code != 200 then old(WorldOf(c))
         else GroupEdits.GroupDelete(old(WorldOf(c)), self, open, id, time,
                                     Addressees(members, c[self].contacts, k => None), calls)
    ensures code == 200 && Sendable(open, old(WorldOf(c)), self, id) ==>
      WorldOf(c) == DeleteOutcome(open, old(WorldOf(c)), self, id, time,
                                  Addressees(members, c[self].contacts, k => None), calls)
  {
    hide NodesOf, Ready, Lists, GroupEdits.DeleteCalls, Sendable, DeleteOutcome;
    ghost var w := WorldOf(c);
    members := MembersAt(c, self, g);
    var db := c[self];
    var row := db.GetMessage(id);
    if row.None? || row.value.group != g { return 404, members; }
    if row.value.sender != self { return 403, members; }
    Tombstone(c, self, id, time);
    var list := Addressees(members, db.contacts, k => None);
    DeleteCallsLoop(c, self, open, id, list, calls);
    DeleteLoop(open, w, self, id, time, members, MembersOf(NodesOf(c)[self], g), db.contacts, calls);
    code := 200;
  }
}
