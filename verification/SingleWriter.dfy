/** Group convergence when one node makes every change to a group. */
module SingleWriter {
  import opened Common
  import opened Groups
  import opened Snapshots

  datatype Step =
    | Create(who: Id, group: Id, name: string, address: string, now: int)
    | AddMember(who: Id, group: Id, id: Id, address: string, selfAddress: Option<string>, list: seq<Member>,
                now: int, stamp: Stamp, calls: Id -> Call)
    | RemoveMember(who: Id, group: Id, id: Id, list: seq<Member>, now: int, stamp: Stamp, calls: Id -> Call)
    | Worker(who: Id, pending: seq<Queued>, now: int, stamp: Stamp, retries: (Id, Id) -> Call)

  function CreateGroup(w: Nodes, a: Id, g: Id, name: string, address: string, now: int): Nodes
    requires a in w
  {
    if g in w[a].groups then w
    else
      var t := w[a].(groups := w[a].groups[g := GroupInfo(name, a, now)]);
      w[a := ReplaceMembers(t, g, [Member(a, address, "admin", now)])]
  }

  /** Store a list, and push it unless the store reported a conflict. */
  function StoreAndPush(w: Nodes, a: Id, g: Id, list: seq<Member>, now: int, stamp: Stamp, calls: Id -> Call): (o: Sent)
    requires a in w
    ensures o.nodes.Keys == w.Keys
  {
    var w1 := w[a := ReplaceMembers(w[a], g, list)];
    if !NoRepeats(list) then Sent(w1, false)
    else FanOut(w1, a, list, g, SnapshotOf(w1[a], g, a, list, now), now, stamp, calls)
  }

  function DeleteGroup(t: Tables, g: Id): Tables {
    t.(groups := t.groups - {g}, members := t.members - {g})
  }

  function RemoveFrom(w: Nodes, a: Id, g: Id, id: Id, list: seq<Member>, now: int, stamp: Stamp, calls: Id -> Call)
    : Nodes
    requires a in w
  {
    var rest := Without(list, id);
    if |rest| == |list| then w
    else
      var o := StoreAndPush(w, a, g, rest, now, stamp, calls);
      if o.ok && rest == [] then o.nodes[a := DeleteGroup(o.nodes[a], g)] else o.nodes
  }

  function Apply(w: Nodes, s: Step): (w': Nodes)
    requires s.who in w
    ensures w'.Keys == w.Keys
  {
    match s
    case Create(a, g, name, address, now) => CreateGroup(w, a, g, name, address, now)
    case AddMember(a, g, id, address, selfAddress, list, now, stamp, calls) =>
      StoreAndPush(w, a, g, Added(list, a, id, address, selfAddress, now), now, stamp, calls).nodes
    case RemoveMember(a, g, id, list, now, stamp, calls) => RemoveFrom(w, a, g, id, list, now, stamp, calls)
    case Worker(a, pending, now, stamp, retries) => RetryUpdates(w, a, pending, now, stamp, retries)
  }

  ghost predicate Enabled(w: Nodes, s: Step) {
    && s.who in w
    && match s
       case Create(_, _, _, _, _) => true
       case AddMember(a, g, _, _, _, list, _, _, _) => Lists(list, MembersOf(w[a], g))
       case RemoveMember(a, g, _, list, _, _, _) => Lists(list, MembersOf(w[a], g))
       case Worker(a, pending, _, _, _) => PendingUpdates(pending, w[a])
  }

  /** Only a changes the group. */
  predicate WrittenBy(s: Step, a: Id, g: Id) {
    s.Worker? || s.group != g || s.who == a
  }

  // ---------------------------------------------------------------- the invariant

  function NameOf(info: Option<GroupInfo>): string {
    if info.Some? then info.value.name else ""
  }

  /** The group exists there, under this name if it has one. */
  predicate Carries(info: Option<GroupInfo>, name: string) {
    info.Some? && (name != "" ==> info.value.name == name)
  }

  /** An update queued for member k carries the writer's current list and the group's name, and
      if it is accepted k's own tables agree with it. */
  predicate Current(r: Roster, a: Id, k: Id)
    requires a in r
  {
    && k in r[a].updates
    && var u := r[a].updates[k];
       && 0 <= u.accepted <= 1 && NoRepeats(u.snapshot.members) && u.snapshot.name == NameOf(r[a].info)
       && Cards(Tabled(u.snapshot.members)) == Cards(r[a].members)
       && (u.accepted == 1 && k in r ==>
             Cards(r[k].members) == Cards(r[a].members) && Carries(r[k].info, NameOf(r[a].info)))
  }

  /** And whatever others know of the group, they know as a's. */
  predicate Synced(r: Roster, a: Id) {
    && a in r
    && (forall k | k in r[a].members && k != a :: Current(r, a, k))
    && (forall k | k in r[a].updates :: r[a].updates[k].snapshot.sender == a)
    && (forall n | n in r && n != a :: r[n].updates == map[])
    && (forall n | n in r && n != a && r[n].info.Some? :: r[n].info.value.createdBy == a)
  }

  /** Before the group exists anywhere. */
  predicate Unused(r: Roster) {
    forall n | n in r :: r[n].members == map[] && r[n].updates == map[] && r[n].info.None?
  }

  lemma PushedCurrent(r1: Roster, r2: Roster, a: Id, m: Member, g: Id, s: Snapshot, now: int, calls: Id -> Call)
    requires a in r1 && a in r2 && r2.Keys == r1.Keys && m.id != a && PushedTo(r1, r2, a, m, g, s, now, calls)
    requires NoRepeats(s.members) && r2[a].members == Tabled(s.members) && s.name == NameOf(r2[a].info)
    ensures Current(r2, a, m.id)
  {
    hide Cards, Tabled, NoRepeats, Since;
  }

  lemma PushedAuthor(r1: Roster, r2: Roster, a: Id, list: seq<Member>, g: Id, s: Snapshot, now: int, calls: Id -> Call)
    requires a in r1 && a in r2 && r2.Keys == r1.Keys && s.sender == a
    requires forall k | k in Tabled(list) && k != a :: PushedTo(r1, r2, a, Tabled(list)[k], g, s, now, calls)
    requires forall k | k !in Tabled(list) || k == a :: Get(r2[a].updates, k) == Get(r1[a].updates, k)
    requires forall n | n in r1 && (n !in Tabled(list) || n == a) :: r2[n].info == r1[n].info
    requires forall k | k in r1[a].updates :: r1[a].updates[k].snapshot.sender == a
    requires forall n | n in r1 && n != a && r1[n].info.Some? :: r1[n].info.value.createdBy == a
    ensures forall k | k in r2[a].updates :: r2[a].updates[k].snapshot.sender == a
    ensures forall n | n in r2 && n != a && r2[n].info.Some? :: r2[n].info.value.createdBy == a
  {
    hide Cards, Tabled, NoRepeats, Since;
    forall k | k in r2[a].updates ensures r2[a].updates[k].snapshot.sender == a {
      if k in Tabled(list) && k != a {
        assert PushedTo(r1, r2, a, Tabled(list)[k], g, s, now, calls);
      } else {
        assert Get(r2[a].updates, k) == Get(r1[a].updates, k);
      }
    }
    forall n | n in r2 && n != a && r2[n].info.Some? ensures r2[n].info.value.createdBy == a {
      if n in Tabled(list) { assert PushedTo(r1, r2, a, Tabled(list)[n], g, s, now, calls); }
    }
  }

  lemma StoreSynced(w: Nodes, a: Id, g: Id, list: seq<Member>, now: int, stamp: Stamp, calls: Id -> Call)
    requires Synced(RosterOf(w, g), a) && NoRepeats(list)
    ensures Synced(RosterOf(StoreAndPush(w, a, g, list, now, stamp, calls).nodes, g), a)
    ensures RosterOf(StoreAndPush(w, a, g, list, now, stamp, calls).nodes, g)[a].members == Tabled(list)
  {
    hide Current, PushedTo, FanOut, FanOutSeats, Tabled, NoRepeats;
    var t := ReplaceMembers(w[a], g, list);
    var w1 := w[a := t];
    var s := SnapshotOf(t, g, a, list, now);
    PutRoster(w, a, t, g);
    FanOutRosters(w1, a, list, g, s, now, stamp, calls, g);
    var r1 := RosterOf(w1, g);
    FanOutExact(r1, a, list, g, s, now, stamp, calls);
    var r2 := FanOutSeats(r1, a, list, g, s, now, stamp, calls).roster;
    forall k | k in r2[a].members && k != a ensures Current(r2, a, k) {
      PushedCurrent(r1, r2, a, Tabled(list)[k], g, s, now, calls);
    }
    PushedAuthor(r1, r2, a, list, g, s, now, calls);
  }

  lemma OtherGroup(w: Nodes, a: Id, h: Id, list: seq<Member>, now: int, stamp: Stamp, calls: Id -> Call, g: Id)
    requires a in w && h != g
    ensures RosterOf(StoreAndPush(w, a, h, list, now, stamp, calls).nodes, g) == RosterOf(w, g)
  {
    var t := ReplaceMembers(w[a], h, list);
    PutRoster(w, a, t, g);
    FanOutRosters(w[a := t], a, list, h, SnapshotOf(t, h, a, list, now), now, stamp, calls, g);
  }

  // ---------------------------------------------------------------- the worker's round

  /** The queue rows are still those the worker listed, except that some are now accepted. */
  predicate StillQueued(u: Queued, r: Roster, a: Id)
    requires a in r
  {
    u.member in r[a].updates && r[a].updates[u.member].snapshot == u.update.snapshot
  }

  /** One retry of a listed update keeps the writer's group in step, and an answered one brings
      its member into agreement. */
  lemma RetrySynced(r: Roster, a: Id, u: Queued, now: int, stamp: Stamp, call: Call)
    requires Synced(r, a) && StillQueued(u, r, a)
    ensures
      var o := PostSeat(r, a, u.member, u.group, u.update.snapshot, now, stamp, call);
      && Synced(o.roster, a)
      && o.roster[a].members == r[a].members && o.roster[a].updates.Keys == r[a].updates.Keys
      && (forall k | k in r[a].updates ::
            && o.roster[a].updates[k].snapshot == r[a].updates[k].snapshot
            && (r[a].updates[k].accepted == 1 ==> o.roster[a].updates[k].accepted == 1))
      && (call == Answered && u.member in r && u.member != a && u.member in r[a].members ==>
            o.roster[a].updates[u.member].accepted == 1)
  {
    hide Cards, Tabled, NoRepeats, Arrived;
    var o := PostSeat(r, a, u.member, u.group, u.update.snapshot, now, stamp, call);
    ArrivedCards(u.update.snapshot.members, stamp);
    forall k | k in o.roster[a].members && k != a ensures Current(o.roster, a, k) {
      assert Current(r, a, k);
    }
  }

  lemma {:induction false} RetriesSynced(w: Nodes, a: Id, list: seq<Queued>, now: int, stamp: Stamp,
                                         calls: (Id, Id) -> Call, g: Id)
    requires Synced(RosterOf(w, g), a)
    requires forall u | u in list && u.group == g :: StillQueued(u, RosterOf(w, g), a)
    ensures
      var r, r' := RosterOf(w, g), RosterOf(RetryUpdates(w, a, list, now, stamp, calls), g);
      && Synced(r', a)
      && r'[a].members == r[a].members && r'[a].updates.Keys == r[a].updates.Keys
      && (forall k | k in r[a].updates ::
            && r'[a].updates[k].snapshot == r[a].updates[k].snapshot
            && (r[a].updates[k].accepted == 1 ==> r'[a].updates[k].accepted == 1))
      && (forall u | u in list && u.group == g && calls(g, u.member) == Answered
                     && u.member in r && u.member != a && u.member in r[a].members ::
            r'[a].updates[u.member].accepted == 1)
    decreases |list|
  {
    if list != [] {
      var u, front := Last(list), Front(list);
      assert list == front + [u];
      RetriesSynced(w, a, front, now, stamp, calls, g);
      var w1 := RetryUpdates(w, a, front, now, stamp, calls);
      PostRosters(w1, a, u.member, u.group, u.update.snapshot, now, stamp, calls(u.group, u.member), g);
      if u.group == g {
        assert StillQueued(u, RosterOf(w, g), a);
        RetrySynced(RosterOf(w1, g), a, u, now, stamp, calls(g, u.member));
      }
    }
  }

  lemma {:induction false} OtherRetries(w: Nodes, n: Id, list: seq<Queued>, now: int, stamp: Stamp,
                                        calls: (Id, Id) -> Call, g: Id)
    requires n in w && forall u | u in list :: u.group != g
    ensures RosterOf(RetryUpdates(w, n, list, now, stamp, calls), g) == RosterOf(w, g)
    decreases |list|
  {
    if list != [] {
      var u := Last(list);
      assert list == Front(list) + [u];
      OtherRetries(w, n, Front(list), now, stamp, calls, g);
      PostRosters(RetryUpdates(w, n, Front(list), now, stamp, calls), n, u.member, u.group, u.update.snapshot,
                  now, stamp, calls(u.group, u.member), g);
    }
  }

  /** A member the worker cannot call keeps its list, and its update stays as it was queued. */
  lemma {:induction false} UncalledStays(w: Nodes, a: Id, list: seq<Queued>, now: int, stamp: Stamp,
                                         calls: (Id, Id) -> Call, g: Id, k: Id)
    requires a in w && k != a && calls(g, k) == Lost
    ensures
      var r, r' := RosterOf(w, g), RosterOf(RetryUpdates(w, a, list, now, stamp, calls), g);
      && Get(r'[a].updates, k) == Get(r[a].updates, k)
      && (k in w ==> r'[k].members == r[k].members)
    decreases |list|
  {
    hide Tabled, NoRepeats, PostAndMark, Arrived, Named;
    if list != [] {
      var u, front := Last(list), Front(list);
      UncalledStays(w, a, front, now, stamp, calls, g, k);
      PostRosters(RetryUpdates(w, a, front, now, stamp, calls), a, u.member, u.group, u.update.snapshot, now, stamp,
                  calls(u.group, u.member), g);
    }
  }

  lemma RemoveSynced(w: Nodes, a: Id, n: Id, h: Id, id: Id, list: seq<Member>, now: int, stamp: Stamp,
                     calls: Id -> Call, g: Id)
    requires Synced(RosterOf(w, g), a) && n in w && Lists(list, MembersOf(w[n], h)) && (h != g || n == a)
    ensures Synced(RosterOf(RemoveFrom(w, n, h, id, list, now, stamp, calls), g), a)
  {
    hide StoreAndPush, Tabled, NoRepeats, Without, Current;
    var rest := Without(list, id);
    WithoutTabled(list, id);
    var o := StoreAndPush(w, n, h, rest, now, stamp, calls);
    if h == g {
      StoreSynced(w, a, g, rest, now, stamp, calls);
    } else {
      OtherGroup(w, n, h, rest, now, stamp, calls, g);
    }
    PutRoster(o.nodes, n, DeleteGroup(o.nodes[n], h), g);
  }

  /** With one writer, every step by anyone keeps every current member's queued update equal to
      the writer's list, and every accepted one honoured. */
  lemma SyncedKept(w: Nodes, s: Step, a: Id, g: Id)
    requires Enabled(w, s) && WrittenBy(s, a, g) && Synced(RosterOf(w, g), a)
    ensures Synced(RosterOf(Apply(w, s), g), a)
  {
    match s
    case Create(n, h, name, address, now) =>
      if h !in w[n].groups {
        var t := w[n].(groups := w[n].groups[h := GroupInfo(name, n, now)]);
        var me := Member(n, address, "admin", now);
        assert [me] == [] + [me];
        Append([], me);
        PutRoster(w, n, ReplaceMembers(t, h, [me]), g);
      }
    case AddMember(n, h, id, address, selfAddress, list, now, stamp, calls) =>
      AddedTabled(list, n, id, address, selfAddress, now);
      if h == g {
        StoreSynced(w, a, g, Added(list, n, id, address, selfAddress, now), now, stamp, calls);
      } else {
        OtherGroup(w, n, h, Added(list, n, id, address, selfAddress, now), now, stamp, calls, g);
      }
    case RemoveMember(n, h, id, list, now, stamp, calls) => RemoveSynced(w, a, n, h, id, list, now, stamp, calls, g);
    case Worker(n, pending, now, stamp, retries) =>
      if n == a {
        RetriesSynced(w, a, pending, now, stamp, retries, g);
      } else {
        assert RosterOf(w, g)[n] == SeatOf(w[n], g);
        OtherRetries(w, n, pending, now, stamp, retries, g);
      }
  }

  // ---------------------------------------------------------------- runs and convergence

  function After(w: Nodes, run: seq<Step>): Option<Nodes>
    decreases |run|
  {
    if run == [] then Some(w)
    else
      var before := After(w, Front(run));
      if before.Some? && Last(run).who in before.value then Some(Apply(before.value, Last(run))) else None
  }

  ghost predicate Possible(w: Nodes, run: seq<Step>, a: Id, g: Id)
    decreases |run|
  {
    run != [] ==>
      && Possible(w, Front(run), a, g) && After(w, Front(run)).Some?
      && Enabled(After(w, Front(run)).value, Last(run)) && WrittenBy(Last(run), a, g)
  }

  lemma ThreeSteps(w: Nodes, s1: Step, s2: Step, s3: Step, a: Id, g: Id)
    requires Enabled(w, s1) && WrittenBy(s1, a, g)
    requires Enabled(Apply(w, s1), s2) && WrittenBy(s2, a, g)
    requires Enabled(Apply(Apply(w, s1), s2), s3) && WrittenBy(s3, a, g)
    ensures Possible(w, [s1, s2], a, g) && After(w, [s1, s2]) == Some(Apply(Apply(w, s1), s2))
    ensures Possible(w, [s1, s2, s3], a, g)
    ensures After(w, [s1, s2, s3]) == Some(Apply(Apply(Apply(w, s1), s2), s3))
  {
    hide Apply;
    assert Front([s1]) == [] && Front([s1, s2]) == [s1] && Front([s1, s2, s3]) == [s1, s2];
    assert After(w, []) == Some(w) && After(w, [s1]) == Some(Apply(w, s1));
    assert After(w, [s1, s2]) == Some(Apply(Apply(w, s1), s2));
    assert Possible(w, [], a, g) && Possible(w, [s1], a, g) && Possible(w, [s1, s2], a, g);
  }

  /** In every state of every run in which only a changes the group, each other current member's
      update holds exactly a's list, and an accepted one means that member agrees. */
  lemma {:induction false} SyncedAlways(w: Nodes, run: seq<Step>, a: Id, g: Id)
    requires a in w && Unused(RosterOf(w, g)) && Possible(w, run, a, g)
    ensures After(w, run).Some? && Synced(RosterOf(After(w, run).value, g), a)
    decreases |run|
  {
    if run != [] {
      SyncedAlways(w, Front(run), a, g);
      SyncedKept(After(w, Front(run)).value, Last(run), a, g);
    }
  }

  /** After one round of the writer's worker in which every member answers, all current members
      hold the same list, and know the group by the writer's name for it and as the writer's. */
  lemma MembersAgree(w: Nodes, s: Step, g: Id)
    requires Enabled(w, s) && s.Worker? && Synced(RosterOf(w, g), s.who)
    requires forall k | k in MembersOf(w[s.who], g) && k != s.who :: k in w && s.retries(g, k) == Answered
    ensures
      var w' := Apply(w, s);
      && MembersOf(w'[s.who], g) == MembersOf(w[s.who], g)
      && forall k | k in MembersOf(w'[s.who], g) ::
           && k in w' && Cards(MembersOf(w'[k], g)) == Cards(MembersOf(w'[s.who], g))
           && (k != s.who && g in w'[s.who].groups ==>
                 && g in w'[k].groups && w'[k].groups[g].createdBy == s.who
                 && (w'[s.who].groups[g].name != "" ==> w'[k].groups[g].name == w'[s.who].groups[g].name))
  {
    var a := s.who;
    var r, r' := RosterOf(w, g), RosterOf(Apply(w, s), g);
    RetriesSynced(w, a, s.pending, s.now, s.stamp, s.retries, g);
    assert r[a] == SeatOf(w[a], g) && r'[a] == SeatOf(Apply(w, s)[a], g);
    forall k | k in r'[a].members && k != a
      ensures k in r' && Cards(r'[k].members) == Cards(r'[a].members)
    {
      assert Current(r, a, k) && Current(r', a, k);
      if r[a].updates[k].accepted == 0 {
        assert Queued(g, k, r[a].updates[k]) in s.pending;
      }
    }
  }

  /** Everyone in a's list of the group holds that list. */
  ghost predicate AllAgree(w: Nodes, a: Id, g: Id)
    requires a in w
  {
    forall k | k in MembersOf(w[a], g) && k != a :: k in w && Agrees(w, a, g, k)
  }

  predicate Agrees(w: Nodes, a: Id, g: Id, k: Id)
    requires a in w && k in w
  {
    Cards(MembersOf(w[k], g)) == Cards(MembersOf(w[a], g))
  }

  /** What retries do to member k: the update queued for it is accepted, and its own list agrees,
      if so before or if k was called with that outcome. */
  predicate Reaching(r: Roster, r': Roster, a: Id, k: Id, called: bool, call: Call) {
    && a in r && a in r' && r'.Keys == r.Keys && r'[a].members == r[a].members
    && k in r[a].updates && k in r'[a].updates
    && r'[a].updates[k].accepted == (if called && k in r && call == Answered then 1 else r[a].updates[k].accepted)
    && (k in r ==> (Cards(r'[k].members) == Cards(r[a].members) <==>
                      Cards(r[k].members) == Cards(r[a].members) || (called && !call.Lost?)))
  }

  lemma ReachingTwice(r0: Roster, r1: Roster, r2: Roster, a: Id, k: Id, c1: bool, c2: bool, call: Call)
    requires Reaching(r0, r1, a, k, c1, call) && Reaching(r1, r2, a, k, c2, call)
    ensures Reaching(r0, r2, a, k, c1 || c2, call)
  {
    hide Cards;
  }

  lemma RetryReaches(r: Roster, a: Id, u: Queued, now: int, stamp: Stamp, calls: Id -> Call, k: Id)
    requires Synced(r, a) && StillQueued(u, r, a) && k in r[a].members && k != a
    ensures Reaching(r, PostSeat(r, a, u.member, u.group, u.update.snapshot, now, stamp, calls(u.member)).roster, a, k,
                     u.member == k, calls(k))
  {
    assert Current(r, a, k);
    ArrivedCards(u.update.snapshot.members, stamp);
  }

  predicate IsListed(list: seq<Queued>, g: Id, k: Id) {
    exists u | u in list :: u.group == g && u.member == k
  }

  lemma NothingReaches(r: Roster, a: Id, k: Id, call: Call)
    requires Synced(r, a) && k in r[a].members && k != a
    ensures Reaching(r, r, a, k, false, call)
  {
    assert Current(r, a, k);
  }

  lemma {:induction false} RetriesReach(w: Nodes, a: Id, list: seq<Queued>, now: int, stamp: Stamp,
                                        calls: (Id, Id) -> Call, g: Id, k: Id)
    requires Synced(RosterOf(w, g), a) && k in RosterOf(w, g)[a].members && k != a
    requires forall u | u in list && u.group == g :: StillQueued(u, RosterOf(w, g), a)
    ensures Reaching(RosterOf(w, g), RosterOf(RetryUpdates(w, a, list, now, stamp, calls), g), a, k,
                     IsListed(list, g, k), calls(g, k))
    decreases |list|
  {
    hide PostSeat, PostAndMark, Reaching, Current;
    var r := RosterOf(w, g);
    if list == [] {
      NothingReaches(r, a, k, calls(g, k));
    } else {
      var u, front := Last(list), Front(list);
      assert list == front + [u];
      assert IsListed(list, g, k) <==> IsListed(front, g, k) || (u.group == g && u.member == k);
      RetriesReach(w, a, front, now, stamp, calls, g, k);
      RetriesSynced(w, a, front, now, stamp, calls, g);
      var w1 := RetryUpdates(w, a, front, now, stamp, calls);
      var r1 := RosterOf(w1, g);
      PostRosters(w1, a, u.member, u.group, u.update.snapshot, now, stamp, calls(u.group, u.member), g);
      if u.group == g {
        assert StillQueued(u, r, a);
        RetryReaches(r1, a, u, now, stamp, m => calls(g, m), k);
        ReachingTwice(r, r1, RosterOf(RetryUpdates(w, a, list, now, stamp, calls), g), a, k,
                      IsListed(front, g, k), u.member == k, calls(g, k));
      }
    }
  }

  /** Member by member, whatever the network does in a round of the writer's worker: the update is
      accepted afterwards exactly if it was before or its retry was answered, and the member agrees
      exactly if it did before or its retry was handled. */
  lemma RoundIff(w: Nodes, s: Step, g: Id, k: Id)
    requires Enabled(w, s) && s.Worker? && Synced(RosterOf(w, g), s.who) && k in MembersOf(w[s.who], g) && k != s.who
    ensures
      var a, w' := s.who, Apply(w, s);
      && MembersOf(w'[a], g) == MembersOf(w[a], g)
      && k in UpdatesOf(w[a], g) && k in UpdatesOf(w'[a], g)
      && (UpdatesOf(w'[a], g)[k].accepted == 1 <==>
            UpdatesOf(w[a], g)[k].accepted == 1 || (k in w && s.retries(g, k) == Answered))
      && (k in w ==> (Agrees(w', a, g, k) <==> Agrees(w, a, g, k) || !s.retries(g, k).Lost?))
  {
    var a := s.who;
    var r, r' := RosterOf(w, g), RosterOf(Apply(w, s), g);
    assert r[a] == SeatOf(w[a], g) && r'[a] == SeatOf(Apply(w, s)[a], g);
    assert k in w ==> r[k] == SeatOf(w[k], g) && r'[k] == SeatOf(Apply(w, s)[k], g);
    RetriesReach(w, a, s.pending, s.now, s.stamp, s.retries, g, k);
    assert Current(r, a, k);
    if r[a].updates[k].accepted == 0 {
      assert Queued(g, k, r[a].updates[k]) in s.pending;
    }
  }

  /** So the whole group agrees exactly if each member did before or was reached. */
  lemma AllAgreeIff(w: Nodes, s: Step, g: Id)
    requires Enabled(w, s) && s.Worker? && Synced(RosterOf(w, g), s.who)
    ensures AllAgree(Apply(w, s), s.who, g) <==>
            forall k | k in MembersOf(w[s.who], g) && k != s.who ::
              k in w && (Agrees(w, s.who, g, k) || !s.retries(g, k).Lost?)
    ensures MembersOf(Apply(w, s)[s.who], g) == MembersOf(w[s.who], g)
  {
    RetriesSynced(w, s.who, s.pending, s.now, s.stamp, s.retries, g);
    assert RosterOf(w, g)[s.who] == SeatOf(w[s.who], g);
    assert RosterOf(Apply(w, s), g)[s.who] == SeatOf(Apply(w, s)[s.who], g);
    forall k | k in MembersOf(w[s.who], g) && k != s.who && k in w
      ensures Agrees(Apply(w, s), s.who, g, k) <==> Agrees(w, s.who, g, k) || !s.retries(g, k).Lost?
    {
      RoundIff(w, s, g, k);
    }
  }

  // ---------------------------------------------------------------- a member nobody reaches

  lemma {:induction false} UnpushedStays(r: Roster, a: Id, list: seq<Member>, g: Id, s: Snapshot, now: int,
                                         stamp: Stamp, calls: Id -> Call, k: Id)
    requires a in r && k in r && k != a && calls(k) == Lost
    ensures FanOutSeats(r, a, list, g, s, now, stamp, calls).roster[k].members == r[k].members
    decreases |list|
  {
    if list != [] {
      UnpushedStays(r, a, Front(list), g, s, now, stamp, calls, k);
    }
  }

  /** A member added by a push that is lost, and out of reach of the retries, does not learn of it. */
  lemma LostPushStays(w: Nodes, add: Step, worker: Step)
    requires add.AddMember? && Enabled(w, add) && add.id in w && add.id != add.who && add.calls(add.id) == Lost
    requires worker.Worker? && worker.who == add.who && Enabled(Apply(w, add), worker)
    requires worker.retries(add.group, add.id) == Lost
    ensures
      var w' := Apply(Apply(w, add), worker);
      MembersOf(w'[add.id], add.group) == MembersOf(w[add.id], add.group)
  {
    var a, g, k := add.who, add.group, add.id;
    var list := Added(add.list, a, k, add.address, add.selfAddress, add.now);
    AddedTabled(add.list, a, k, add.address, add.selfAddress, add.now);
    var t := ReplaceMembers(w[a], g, list);
    var w1 := w[a := t];
    var snap := SnapshotOf(t, g, a, list, add.now);
    PutRoster(w, a, t, g);
    FanOutRosters(w1, a, list, g, snap, add.now, add.stamp, add.calls, g);
    UnpushedStays(RosterOf(w1, g), a, list, g, snap, add.now, add.stamp, add.calls, k);
    var w2 := Apply(w, add);
    assert RosterOf(w2, g)[k] == SeatOf(w2[k], g) && RosterOf(w1, g)[k] == SeatOf(w[k], g);
    UncalledStays(w2, a, worker.pending, worker.now, worker.stamp, worker.retries, g, k);
    assert RosterOf(Apply(w2, worker), g)[k] == SeatOf(Apply(w2, worker)[k], g);
  }

  /** A removal is pushed to those who remain. Nobody tells the removed node: whatever the calls
      do, its own member list stays as it was. */
  lemma RemovedIsNotTold(w: Nodes, s: Step)
    requires s.RemoveMember? && Enabled(w, s) && s.id in w && s.id != s.who
    ensures MembersOf(Apply(w, s)[s.id], s.group) == MembersOf(w[s.id], s.group)
  {
    hide FanOut, FanOutSeats, Tabled, NoRepeats, Without, PushedTo, Cards;
    var a, g := s.who, s.group;
    var rest := Without(s.list, s.id);
    WithoutTabled(s.list, s.id);
    var t := ReplaceMembers(w[a], g, rest);
    var w1 := w[a := t];
    var snap := SnapshotOf(t, g, a, rest, s.now);
    PutRoster(w, a, t, g);
    FanOutRosters(w1, a, rest, g, snap, s.now, s.stamp, s.calls, g);
    FanOutExact(RosterOf(w1, g), a, rest, g, snap, s.now, s.stamp, s.calls);
    var o := StoreAndPush(w, a, g, rest, s.now, s.stamp, s.calls);
    assert RosterOf(o.nodes, g)[s.id] == SeatOf(o.nodes[s.id], g);
    assert RosterOf(w1, g)[s.id] == SeatOf(w[s.id], g);
  }

  // ---------------------------------------------------------------- creation and the end of a group

  /** A new group has one member, its creator, as admin; an existing one is left alone. */
  lemma CreatorIsAdmin(w: Nodes, s: Step)
    requires Enabled(w, s) && s.Create?
    ensures
      var t, t' := w[s.who], Apply(w, s)[s.who];
      if s.group in t.groups then t' == t
      else
        && t'.groups == t.groups[s.group := GroupInfo(s.name, s.who, s.now)]
        && MembersOf(t', s.group) == map[s.who := Member(s.who, s.address, "admin", s.now)]
  {
    assert [Member(s.who, s.address, "admin", s.now)] == [] + [Member(s.who, s.address, "admin", s.now)];
    Append([], Member(s.who, s.address, "admin", s.now));
  }

  lemma {:induction false} FanOutKeepsGroups(w: Nodes, a: Id, list: seq<Member>, g: Id, s: Snapshot, now: int,
                                             stamp: Stamp, calls: Id -> Call)
    requires a in w
    ensures
      var t, t' := w[a], FanOut(w, a, list, g, s, now, stamp, calls).nodes[a];
      t'.groups == t.groups && t'.members == t.members
    decreases |list|
  {
    if list != [] {
      FanOutKeepsGroups(w, a, Front(list), g, s, now, stamp, calls);
    }
  }

  lemma NobodyToPush(w: Nodes, a: Id, list: seq<Member>, g: Id, s: Snapshot, now: int, stamp: Stamp, calls: Id -> Call)
    requires a in w && list == []
    ensures FanOut(w, a, list, g, s, now, stamp, calls) == Sent(w, true)
  {
  }

  /** Removing a member deletes the group exactly when nobody is left, and then always: nobody is
      left to refuse the update. */
  lemma LastOneOut(w: Nodes, s: Step)
    requires Enabled(w, s) && s.RemoveMember? && s.group in w[s.who].groups
    ensures
      var rows, t' := MembersOf(w[s.who], s.group), Apply(w, s)[s.who];
      && (s.group !in t'.groups <==> rows.Keys == {s.id})
      && MembersOf(t', s.group) == rows - {s.id}
  {
    hide FanOut, NoRepeats, Without;
    var a, g := s.who, s.group;
    var rest := Without(s.list, s.id);
    RemoveIsDifference(s.list, MembersOf(w[a], g), s.id);
    var t := ReplaceMembers(w[a], g, rest);
    FanOutKeepsGroups(w[a := t], a, rest, g, SnapshotOf(t, g, a, rest, s.now), s.now, s.stamp, s.calls);
    if rest == [] {
      NobodyToPush(w[a := t], a, rest, g, SnapshotOf(t, g, a, rest, s.now), s.now, s.stamp, s.calls);
      assert Tabled(rest) == map[];
      assert forall k | k in MembersOf(w[a], g) && k != s.id :: k in Tabled(rest);
    } else {
      RepeatsMean(rest);
      assert rest[0].id in Tabled(rest) && rest[0].id != s.id;
    }
  }
}
