/** What a group is called, and whose it is, at the members a change or a retry reaches. */
module Naming {
  import opened Common
  import opened Groups
  import opened Snapshots
  import opened SingleWriter

  /** The group row at a member that handled a snapshot from a: new ones are a's, and called by the
      name a has for the group, or by the group's id if a has none; known ones follow a's name. */
  predicate Follows(before: Option<GroupInfo>, after: Option<GroupInfo>, g: Id, a: Id, name: string, now: int) {
    match before
    case None => after == Some(GroupInfo(if name != "" then name else g, a, now))
    case Some(row) => after == Some(GroupInfo(if name != "" then name else row.name, row.createdBy, row.createdAt))
  }

  /** A change of a group's list and its fan-out, seen at one node: if it is on the list and handles the
      push, its row for the group follows the sender's, and its members are the sender's; otherwise
      both stay. */
  predicate Reaches(w: Nodes, w': Nodes, a: Id, g: Id, rows: map<Id, Member>, now: int, calls: Id -> Call, k: Id)
    requires a in w && k in w && k in w'
  {
    if k in rows && rows[k].address != "" && calls(k) != Lost then
      && Follows(Get(w[k].groups, g), Get(w'[k].groups, g), g, a, NameOf(Get(w[a].groups, g)), now)
      && Cards(MembersOf(w'[k], g)) == Cards(rows)
    else Get(w'[k].groups, g) == Get(w[k].groups, g) && MembersOf(w'[k], g) == MembersOf(w[k], g)
  }

  lemma SeatReaches(w: Nodes, w': Nodes, r: Roster, r': Roster, a: Id, g: Id, s: Snapshot, now: int, calls: Id -> Call,
                    k: Id)
    requires a in w && k in w && k in w' && r.Keys == w.Keys && r'.Keys == w.Keys && k != a
    requires r[k] == SeatOf(w[k], g) && r'[k] == SeatOf(w'[k], g)
    requires s.sender == a && s.name == NameOf(Get(w[a].groups, g))
    requires k in Tabled(s.members) ==> PushedTo(r, r', a, Tabled(s.members)[k], g, s, now, calls)
    requires k !in Tabled(s.members) ==> r'[k].members == r[k].members && r'[k].info == r[k].info
    ensures Reaches(w, w', a, g, Tabled(s.members), now, calls, k)
  {
    hide Cards, Since;
  }

  lemma PushReaches(w: Nodes, a: Id, g: Id, list: seq<Member>, now: int, stamp: Stamp, calls: Id -> Call, k: Id)
    requires a in w && NoRepeats(list) && k in w && k != a
    ensures
      var w' := StoreAndPush(w, a, g, list, now, stamp, calls).nodes;
      Reaches(w, w', a, g, Tabled(list), now, calls, k) && MembersOf(w'[a], g) == Tabled(list)
  {
    hide FanOut, FanOutSeats, Tabled, NoRepeats, Cards, Reaches, PushedTo;
    var w1 := w[a := ReplaceMembers(w[a], g, list)];
    var s := SnapshotOf(w1[a], g, a, list, now);
    var r1 := RosterOf(w1, g);
    FanOutRosters(w1, a, list, g, s, now, stamp, calls, g);
    FanOutExact(r1, a, list, g, s, now, stamp, calls);
    var w' := StoreAndPush(w, a, g, list, now, stamp, calls).nodes;
    var r' := RosterOf(w', g);
    assert r1[a] == SeatOf(w1[a], g) && r'[a] == SeatOf(w'[a], g);
    SeatReaches(w, w', r1, r', a, g, s, now, calls, k);
  }

  /** Adding a member: every other member the push reaches knows the group by the adder's name for it,
      a newcomer as the adder's group, with the members the adder now has. */
  lemma AddReaches(w: Nodes, s: Step, k: Id)
    requires Enabled(w, s) && s.AddMember? && k in w && k != s.who
    ensures
      var w', a, g := Apply(w, s), s.who, s.group;
      && IsUnion(MembersOf(w[a], g), MembersOf(w'[a], g), a, s.id, s.address, s.selfAddress, s.now)
      && Reaches(w, w', a, g, MembersOf(w'[a], g), s.now, s.calls, k)
  {
    hide Reaches, IsUnion, StoreAndPush, Tabled, NoRepeats, AddedRows, Added;
    AddedTabled(s.list, s.who, s.id, s.address, s.selfAddress, s.now);
    AddedRowsUnion(MembersOf(w[s.who], s.group), s.who, s.id, s.address, s.selfAddress, s.now);
    PushReaches(w, s.who, s.group, Added(s.list, s.who, s.id, s.address, s.selfAddress, s.now), s.now, s.stamp,
                s.calls, k);
  }

  /** Removing one: the same of those who remain. */
  lemma RemoveReaches(w: Nodes, s: Step, k: Id)
    requires Enabled(w, s) && s.RemoveMember? && k in w && k != s.who && s.id in MembersOf(w[s.who], s.group)
    ensures Reaches(w, Apply(w, s), s.who, s.group, MembersOf(w[s.who], s.group) - {s.id}, s.now, s.calls, k)
  {
    hide Reaches, StoreAndPush, Tabled, NoRepeats, Without;
    WithoutTabled(s.list, s.id);
    WithoutLength(s.list, s.id);
    PushReaches(w, s.who, s.group, Without(s.list, s.id), s.now, s.stamp, s.calls, k);
    var w1 := StoreAndPush(w, s.who, s.group, Without(s.list, s.id), s.now, s.stamp, s.calls).nodes;
    SameReach(w, w1, Apply(w, s), s.who, s.group, MembersOf(w[s.who], s.group) - {s.id}, s.now, s.calls, k);
  }

  lemma SameReach(w: Nodes, w1: Nodes, w2: Nodes, a: Id, g: Id, rows: map<Id, Member>, now: int, calls: Id -> Call,
                  k: Id)
    requires a in w && k in w && k in w1 && k in w2 && w1[k] == w2[k] && Reaches(w, w1, a, g, rows, now, calls, k)
    ensures Reaches(w, w2, a, g, rows, now, calls, k)
  {
  }

  // ---------------------------------------------------------------- retries

  /** The writer's row for the group stays, and k's carries its name if it did, or if k was told. */
  predicate Carried(r: Roster, r': Roster, a: Id, k: Id, told: bool) {
    && a in r && a in r' && k in r && k in r'
    && r'[a].info == r[a].info
    && (told || Carries(r[k].info, NameOf(r[a].info)) ==> Carries(r'[k].info, NameOf(r[a].info)))
  }

  lemma CarriedTwice(r0: Roster, r1: Roster, r2: Roster, a: Id, k: Id, t1: bool, t2: bool)
    requires Carried(r0, r1, a, k, t1) && Carried(r1, r2, a, k, t2)
    ensures Carried(r0, r2, a, k, t1 || t2)
  {
  }

  lemma PostCarries(r: Roster, a: Id, u: Queued, now: int, stamp: Stamp, call: Call, k: Id)
    requires a in r && k in r && k != a && (u.member == k ==> u.update.snapshot.name == NameOf(r[a].info))
    ensures Carried(r, PostSeat(r, a, u.member, u.group, u.update.snapshot, now, stamp, call).roster, a, k,
                    u.member == k && call != Lost)
  {
    hide Tabled, NoRepeats, Arrived;
  }

  lemma {:induction false} RetriesCarry(w: Nodes, a: Id, list: seq<Queued>, now: int, stamp: Stamp,
                                        calls: (Id, Id) -> Call, g: Id, k: Id)
    requires a in w && k in w && k != a && k in UpdatesOf(w[a], g)
    requires UpdatesOf(w[a], g)[k].snapshot.name == NameOf(Get(w[a].groups, g))
    requires forall u | u in list && u.group == g :: StillQueued(u, RosterOf(w, g), a)
    ensures Carried(RosterOf(w, g), RosterOf(RetryUpdates(w, a, list, now, stamp, calls), g), a, k,
                    IsListed(list, g, k) && calls(g, k) != Lost)
    decreases |list|
  {
    hide PostAndMark, PostSeat, Carried, NameOf;
    var r := RosterOf(w, g);
    if list == [] {
      CarriedAlready(r, a, k);
    } else {
      var u, front := Last(list), Front(list);
      assert list == front + [u];
      assert IsListed(list, g, k) <==> IsListed(front, g, k) || (u.group == g && u.member == k);
      RetriesCarry(w, a, front, now, stamp, calls, g, k);
      var w1 := RetryUpdates(w, a, front, now, stamp, calls);
      var r1, r2 := RosterOf(w1, g), RosterOf(RetryUpdates(w, a, list, now, stamp, calls), g);
      PostRosters(w1, a, u.member, u.group, u.update.snapshot, now, stamp, calls(u.group, u.member), g);
      if u.group == g {
        assert StillQueued(u, r, a);
        SameName(r, r1, a, k, IsListed(front, g, k) && calls(g, k) != Lost);
        PostCarries(r1, a, u, now, stamp, calls(g, u.member), k);
        CarriedTwice(r, r1, r2, a, k, IsListed(front, g, k) && calls(g, k) != Lost,
                     u.member == k && calls(g, k) != Lost);
      }
    }
  }

  lemma CarriedAlready(r: Roster, a: Id, k: Id)
    requires a in r && k in r
    ensures Carried(r, r, a, k, false)
  {
  }

  lemma SameName(r: Roster, r': Roster, a: Id, k: Id, told: bool)
    requires Carried(r, r', a, k, told)
    ensures a in r && a in r' && r'[a].info == r[a].info
  {
  }

  lemma QueuedName(r: Roster, a: Id, k: Id)
    requires Synced(r, a) && k in r[a].members && k != a
    ensures k in r[a].updates && r[a].updates[k].snapshot.name == NameOf(r[a].info)
  {
    assert Current(r, a, k);
  }

  /** A pending member that handles its retry in a round of the writer's worker holds the writer's
      members, knows the group as the writer's, and by the writer's name for it if there is one. */
  lemma RetryTells(w: Nodes, s: Step, g: Id, k: Id)
    requires Enabled(w, s) && s.Worker? && Synced(RosterOf(w, g), s.who)
    requires k in w && k in MembersOf(w[s.who], g) && k != s.who && s.retries(g, k) != Lost
    requires k in UpdatesOf(w[s.who], g) && UpdatesOf(w[s.who], g)[k].accepted == 0
    ensures
      var a, w' := s.who, Apply(w, s);
      && Get(w'[a].groups, g) == Get(w[a].groups, g)
      && g in w'[k].groups && w'[k].groups[g].createdBy == a
      && (g in w[a].groups && w[a].groups[g].name != "" ==> w'[k].groups[g].name == w[a].groups[g].name)
      && Cards(MembersOf(w'[k], g)) == Cards(MembersOf(w[a], g))
  {
    hide PendingUpdates, Current, RetryUpdates, StillQueued, Cards;
    var a, w' := s.who, Apply(w, s);
    var r, r' := RosterOf(w, g), RosterOf(w', g);
    PendingListed(w, s, g, k);
    QueuedName(r, a, k);
    RetriesCarry(w, a, s.pending, s.now, s.stamp, s.retries, g, k);
    RetriesSynced(w, a, s.pending, s.now, s.stamp, s.retries, g);
    RoundIff(w, s, g, k);
    assert r[a] == SeatOf(w[a], g) && r'[a] == SeatOf(w'[a], g);
    assert r[k] == SeatOf(w[k], g) && r'[k] == SeatOf(w'[k], g);
  }

  lemma PendingListed(w: Nodes, s: Step, g: Id, k: Id)
    requires Enabled(w, s) && s.Worker? && k in UpdatesOf(w[s.who], g) && UpdatesOf(w[s.who], g)[k].accepted == 0
    ensures IsListed(s.pending, g, k)
    ensures forall u | u in s.pending && u.group == g :: StillQueued(u, RosterOf(w, g), s.who)
  {
    assert RosterOf(w, g)[s.who] == SeatOf(w[s.who], g);
    assert Queued(g, k, UpdatesOf(w[s.who], g)[k]) in s.pending;
  }
}
