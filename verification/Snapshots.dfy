/** Pushing membership snapshots: the fan-out after a change, the worker's retries, and the
    agreement they bring when one node makes all changes to a group. */
module Snapshots {
  import opened Common
  import opened Groups

  // added_at is left uninitialised by the receiver, so any value may be stored.
  type Stamp = Id -> int

  // ---------------------------------------------------------------- the receiver

  function Arrived(list: seq<Member>, stamp: Stamp): (r: seq<Member>)
    ensures |r| == |list|
    decreases |list|
  {
    if list == [] then []
    else Arrived(Front(list), stamp) + [Last(list).(addedAt := stamp(Last(list).id))]
  }

  function ReplaceMembers(t: Tables, g: Id, list: seq<Member>): Tables {
    t.(members := t.members[g := Tabled(list)])
  }

  datatype Accepted = Accepted(tables: Tables, code: int)

  /** The group row a snapshot leaves: a new one, or the old one renamed. */
  function Named(info: Option<GroupInfo>, g: Id, s: Snapshot, now: int): GroupInfo {
    if info.None? then GroupInfo(if s.name == "" then g else s.name, s.sender, now)
    else if s.name != "" && info.value.name != s.name then info.value.(name := s.name)
    else info.value
  }

  /** accept_group_update: create or rename the group, then replace its members. */
  function AcceptSnapshot(t: Tables, g: Id, s: Snapshot, now: int, stamp: Stamp): Accepted {
    var list := Arrived(s.members, stamp);
    var t1 := t.(groups := t.groups[g := Named(Get(t.groups, g), g, s, now)]);
    Accepted(ReplaceMembers(t1, g, list), if NoRepeats(list) then 200 else 500)
  }

  /** A node that never had the group gets it from the snapshot; one that had keeps its creator and
      follows the name. Nothing else it stores changes, and 500 means a repeated member. */
  lemma AcceptMeans(t: Tables, g: Id, s: Snapshot, now: int, stamp: Stamp)
    ensures
      var r := AcceptSnapshot(t, g, s, now, stamp);
      && r.tables.groups.Keys == t.groups.Keys + {g}
      && (s.name != "" ==> r.tables.groups[g].name == s.name)
      && (g !in t.groups ==> r.tables.groups[g].createdBy == s.sender && r.tables.groups[g].createdAt == now)
      && (g in t.groups ==> r.tables.groups[g].createdBy == t.groups[g].createdBy
                            && (s.name == "" ==> r.tables.groups[g] == t.groups[g]))
      && (forall h | h in t.groups && h != g :: r.tables.groups[h] == t.groups[h])
      && (forall h | h != g :: MembersOf(r.tables, h) == MembersOf(t, h))
      && r.tables.updates == t.updates
      && (r.code == 200 || r.code == 500)
      && (r.code == 200 <==> forall i, j | 0 <= i < j < |s.members| :: s.members[i].id != s.members[j].id)
      && Cards(MembersOf(r.tables, g)) == Cards(Tabled(s.members))
  {
    hide Tabled, NoRepeats, Arrived, Cards;
    ArrivedCards(s.members, stamp);
    RepeatsMean(s.members);
  }

  // ---------------------------------------------------------------- the sender

  /** When the member's row was first queued; a newer snapshot does not change it. */
  function Since(rows: map<Id, Update>, member: Id, now: int): int {
    if member in rows then rows[member].createdAt else now
  }

  function Queue(t: Tables, g: Id, s: Snapshot, member: Id, now: int): Tables {
    var rows := UpdatesOf(t, g);
    t.(updates := t.updates[g := rows[member := Update(s, s.version, 0, Since(rows, member, now))]])
  }

  function MarkUpdate(t: Tables, g: Id, member: Id): Tables {
    if member in UpdatesOf(t, g)
    then t.(updates := t.updates[g := UpdatesOf(t, g)[member := UpdatesOf(t, g)[member].(accepted := 1)]])
    else t
  }

  datatype Sent = Sent(nodes: Nodes, ok: bool)

  function PostSnapshot(w: Nodes, a: Id, to: Id, g: Id, s: Snapshot, now: int, stamp: Stamp, call: Call): Sent {
    if call.Lost? || to !in w || to == a then Sent(w, false)
    else
      var rep := AcceptSnapshot(w[to], g, s, now, stamp);
      Sent(w[to := rep.tables], call.Answered? && rep.code == 200)
  }

  function PostAndMark(w: Nodes, a: Id, to: Id, g: Id, s: Snapshot, now: int, stamp: Stamp, call: Call): (r: Sent)
    requires a in w
    ensures r.nodes.Keys == w.Keys
  {
    var r := PostSnapshot(w, a, to, g, s, now, stamp, call);
    if r.ok then Sent(r.nodes[a := MarkUpdate(r.nodes[a], g, to)], true) else r
  }

  /** The fan-out's turn for one member. */
  function PushTo(w: Nodes, a: Id, m: Member, g: Id, s: Snapshot, now: int, stamp: Stamp, call: Call): (r: Sent)
    requires a in w
    ensures r.nodes.Keys == w.Keys
  {
    var w1 := w[a := Queue(w[a], g, s, m.id, now)];
    if m.address == "" then Sent(w1, false) else PostAndMark(w1, a, m.id, g, s, now, stamp, call)
  }

  /** deliver_group_update: ok is all_online. */
  function FanOut(w: Nodes, a: Id, list: seq<Member>, g: Id, s: Snapshot, now: int, stamp: Stamp, calls: Id -> Call)
    : (r: Sent)
    requires a in w
    ensures r.nodes.Keys == w.Keys
    decreases |list|
  {
    if list == [] then Sent(w, true)
    else
      var m, before := Last(list), FanOut(w, a, Front(list), g, s, now, stamp, calls);
      if m.id == a then before
      else
        var r := PushTo(before.nodes, a, m, g, s, now, stamp, calls(m.id));
        Sent(r.nodes, before.ok && r.ok)
  }

  function SnapshotOf(t: Tables, g: Id, a: Id, list: seq<Member>, version: int): Snapshot {
    Snapshot(a, if g in t.groups then t.groups[g].name else "", version, list)
  }

  // ---------------------------------------------------------------- the worker

  datatype Queued = Queued(group: Id, member: Id, update: Update)

  /** get_pending_group_updates: each pending row once, oldest first. */
  ghost predicate PendingUpdates(list: seq<Queued>, t: Tables) {
    && (forall i, j | 0 <= i < j < |list| ::
          && (list[i].group != list[j].group || list[i].member != list[j].member)
          && list[i].update.createdAt <= list[j].update.createdAt)
    && (forall u | u in list :: u.member in UpdatesOf(t, u.group) && UpdatesOf(t, u.group)[u.member] == u.update
                                && u.update.accepted == 0)
    && (forall g, k | k in UpdatesOf(t, g) && UpdatesOf(t, g)[k].accepted == 0 ::
          Queued(g, k, UpdatesOf(t, g)[k]) in list)
  }

  function RetryUpdates(w: Nodes, a: Id, list: seq<Queued>, now: int, stamp: Stamp, calls: (Id, Id) -> Call)
    : (w': Nodes)
    requires a in w
    ensures w'.Keys == w.Keys
    decreases |list|
  {
    if list == [] then w
    else
      var u := Last(list);
      var before := RetryUpdates(w, a, Front(list), now, stamp, calls);
      PostAndMark(before, a, u.member, u.group, u.update.snapshot, now, stamp, calls(u.group, u.member)).nodes
  }

  // ---------------------------------------------------------------- what a push does

  datatype Card = Card(address: string, role: string)

  /** Membership as far as nodes can agree on it. */
  function Cards(rows: map<Id, Member>): map<Id, Card> {
    map k | k in rows :: Card(rows[k].address, rows[k].role)
  }

  lemma PutCard(rows: map<Id, Member>, m: Member)
    ensures Cards(rows[m.id := m]) == Cards(rows)[m.id := Card(m.address, m.role)]
    ensures Cards(rows).Keys == rows.Keys
  {
  }

  lemma {:induction false} ArrivedCards(list: seq<Member>, stamp: Stamp)
    ensures Cards(Tabled(Arrived(list, stamp))) == Cards(Tabled(list))
    ensures NoRepeats(Arrived(list, stamp)) == NoRepeats(list)
    decreases |list|
  {
    if list != [] {
      var m, front := Last(list), Front(list);
      var m' := m.(addedAt := stamp(m.id));
      ArrivedCards(front, stamp);
      Append(Arrived(front, stamp), m');
      PutCard(Tabled(front), m);
      PutCard(Tabled(Arrived(front, stamp)), m');
    }
  }

  // ---------------------------------------------------------------- one group at every node

  /** What one node's tables hold about one group: its row, its members, and the updates queued. */
  datatype Seat = Seat(info: Option<GroupInfo>, members: map<Id, Member>, updates: map<Id, Update>)
  type Roster = map<Id, Seat>

  function SeatOf(t: Tables, g: Id): Seat {
    Seat(Get(t.groups, g), MembersOf(t, g), UpdatesOf(t, g))
  }

  function RosterOf(w: Nodes, g: Id): Roster {
    map n | n in w :: SeatOf(w[n], g)
  }

  datatype SentRoster = SentRoster(roster: Roster, ok: bool)

  function Marked(u: map<Id, Update>, k: Id): map<Id, Update> {
    if k in u then u[k := u[k].(accepted := 1)] else u
  }

  function PostSeat(r: Roster, a: Id, to: Id, g: Id, s: Snapshot, now: int, stamp: Stamp, call: Call)
    : (o: SentRoster)
    requires a in r
    ensures o.roster.Keys == r.Keys
  {
    if call.Lost? || to !in r || to == a then SentRoster(r, false)
    else
      var list := Arrived(s.members, stamp);
      var r1 := r[to := r[to].(info := Some(Named(r[to].info, g, s, now)), members := Tabled(list))];
      if call.Answered? && NoRepeats(list) then
        SentRoster(r1[a := r1[a].(updates := Marked(r1[a].updates, to))], true)
      else SentRoster(r1, false)
  }

  function PushSeat(r: Roster, a: Id, m: Member, g: Id, s: Snapshot, now: int, stamp: Stamp, call: Call)
    : (o: SentRoster)
    requires a in r
    ensures o.roster.Keys == r.Keys
  {
    var u := r[a].updates;
    var r1 := r[a := r[a].(updates := u[m.id := Update(s, s.version, 0, Since(u, m.id, now))])];
    if m.address == "" then SentRoster(r1, false) else PostSeat(r1, a, m.id, g, s, now, stamp, call)
  }

  function FanOutSeats(r: Roster, a: Id, list: seq<Member>, g: Id, s: Snapshot, now: int, stamp: Stamp,
                       calls: Id -> Call): (o: SentRoster)
    requires a in r
    ensures o.roster.Keys == r.Keys
    decreases |list|
  {
    if list == [] then SentRoster(r, true)
    else
      var m, before := Last(list), FanOutSeats(r, a, Front(list), g, s, now, stamp, calls);
      if m.id == a then before
      else
        var o := PushSeat(before.roster, a, m, g, s, now, stamp, calls(m.id));
        SentRoster(o.roster, before.ok && o.ok)
  }

  lemma PutRoster(w: Nodes, n: Id, t: Tables, h: Id)
    requires n in w
    ensures RosterOf(w[n := t], h) == RosterOf(w, h)[n := SeatOf(t, h)]
    ensures SeatOf(t, h) == SeatOf(w[n], h) ==> RosterOf(w[n := t], h) == RosterOf(w, h)
  {
  }

  lemma AcceptSeat(t: Tables, g: Id, s: Snapshot, now: int, stamp: Stamp, h: Id)
    ensures SeatOf(AcceptSnapshot(t, g, s, now, stamp).tables, h) ==
            if h != g then SeatOf(t, h)
            else SeatOf(t, h).(info := Some(Named(Get(t.groups, h), g, s, now)),
                               members := Tabled(Arrived(s.members, stamp)))
  {
  }

  lemma MarkSeat(t: Tables, g: Id, k: Id, h: Id)
    ensures SeatOf(MarkUpdate(t, g, k), h) ==
            if h == g then SeatOf(t, h).(updates := Marked(UpdatesOf(t, h), k)) else SeatOf(t, h)
  {
  }

  lemma PostRosters(w: Nodes, a: Id, to: Id, g: Id, s: Snapshot, now: int, stamp: Stamp, call: Call, h: Id)
    requires a in w
    ensures
      var o := PostAndMark(w, a, to, g, s, now, stamp, call);
      var p := PostSeat(RosterOf(w, g), a, to, g, s, now, stamp, call);
      && o.ok == p.ok
      && RosterOf(o.nodes, h) == if h == g then p.roster else RosterOf(w, h)
  {
    if !call.Lost? && to in w && to != a {
      var t := AcceptSnapshot(w[to], g, s, now, stamp).tables;
      AcceptSeat(w[to], g, s, now, stamp, h);
      PutRoster(w, to, t, h);
      var w1 := w[to := t];
      MarkSeat(w1[a], g, to, h);
      PutRoster(w1, a, MarkUpdate(w1[a], g, to), h);
    }
  }

  lemma PushRosters(w: Nodes, a: Id, m: Member, g: Id, s: Snapshot, now: int, stamp: Stamp, call: Call, h: Id)
    requires a in w
    ensures
      var o := PushTo(w, a, m, g, s, now, stamp, call);
      var p := PushSeat(RosterOf(w, g), a, m, g, s, now, stamp, call);
      && o.ok == p.ok
      && RosterOf(o.nodes, h) == if h == g then p.roster else RosterOf(w, h)
  {
    hide PostAndMark, PostSeat;
    var t := Queue(w[a], g, s, m.id, now);
    PutRoster(w, a, t, h);
    PutRoster(w, a, t, g);
    PostRosters(w[a := t], a, m.id, g, s, now, stamp, call, h);
  }

  lemma {:induction false} FanOutRosters(w: Nodes, a: Id, list: seq<Member>, g: Id, s: Snapshot, now: int, stamp: Stamp,
                                         calls: Id -> Call, h: Id)
    requires a in w
    ensures
      var o := FanOut(w, a, list, g, s, now, stamp, calls);
      var p := FanOutSeats(RosterOf(w, g), a, list, g, s, now, stamp, calls);
      && o.ok == p.ok
      && RosterOf(o.nodes, h) == if h == g then p.roster else RosterOf(w, h)
    decreases |list|
  {
    if list != [] {
      var m := Last(list);
      FanOutRosters(w, a, Front(list), g, s, now, stamp, calls, h);
      FanOutRosters(w, a, Front(list), g, s, now, stamp, calls, g);
      if m.id != a {
        var w1 := FanOut(w, a, Front(list), g, s, now, stamp, calls).nodes;
        PushRosters(w1, a, m, g, s, now, stamp, calls(m.id), h);
      }
    }
  }

  // ---------------------------------------------------------------- the fan-out is exact

  predicate Reached(r: Roster, m: Member, calls: Id -> Call) {
    m.address != "" && m.id in r && calls(m.id) == Answered
  }

  predicate Handled(r: Roster, m: Member, calls: Id -> Call) {
    m.address != "" && m.id in r && !calls(m.id).Lost?
  }

  /** What a push leaves at its member: the snapshot's members and name if it handled it, and
      otherwise what was there. */
  predicate Delivered(before: Roster, r: Roster, m: Member, g: Id, s: Snapshot, now: int, calls: Id -> Call) {
    m.id in r && m.id in before ==>
      if Handled(r, m, calls) then
        && Cards(r[m.id].members) == Cards(Tabled(s.members))
        && r[m.id].info == Some(Named(before[m.id].info, g, s, now))
      else r[m.id].members == before[m.id].members && r[m.id].info == before[m.id].info
  }

  lemma PushEffect(r: Roster, a: Id, m: Member, g: Id, s: Snapshot, now: int, stamp: Stamp, calls: Id -> Call)
    requires a in r && m.id != a && NoRepeats(s.members)
    ensures
      var o := PushSeat(r, a, m, g, s, now, stamp, calls(m.id));
      var up := Reached(r, m, calls);
      && o.ok == up
      && o.roster[a].members == r[a].members && o.roster[a].info == r[a].info
      && o.roster[a].updates
           == r[a].updates[m.id := Update(s, s.version, if up then 1 else 0, Since(r[a].updates, m.id, now))]
      && (forall n | n in r && n != a :: o.roster[n].updates == r[n].updates)
      && (forall n | n in r && n != m.id :: o.roster[n].members == r[n].members && o.roster[n].info == r[n].info)
      && Delivered(r, o.roster, m, g, s, now, calls)
  {
    hide Named, Tabled;
    var queued := Update(s, s.version, 0, Since(r[a].updates, m.id, now));
    var u := r[a].updates[m.id := queued];
    var r1 := r[a := r[a].(updates := u)];
    if m.address != "" && !calls(m.id).Lost? && m.id in r {
      var list := Arrived(s.members, stamp);
      ArrivedCards(s.members, stamp);
      var r2 := r1[m.id := r1[m.id].(info := Some(Named(r1[m.id].info, g, s, now)), members := Tabled(list))];
      assert r2[a] == r1[a];
      assert u[m.id := u[m.id].(accepted := 1)] == r[a].updates[m.id := queued.(accepted := 1)];
    }
  }

  /** After the fan-out m's queued update is this snapshot, in its old place if one was queued
      before; it is accepted exactly if m could be reached and answered; and m's own tables follow
      it exactly if m handled it. */
  predicate PushedTo(before: Roster, r: Roster, a: Id, m: Member, g: Id, s: Snapshot, now: int, calls: Id -> Call)
    requires a in before && a in r
  {
    && m.id in r[a].updates
    && r[a].updates[m.id]
         == Update(s, s.version, if Reached(r, m, calls) then 1 else 0, Since(before[a].updates, m.id, now))
    && Delivered(before, r, m, g, s, now, calls)
  }

  lemma PushedStays(r: Roster, r1: Roster, r2: Roster, a: Id, m: Member, g: Id, s: Snapshot, now: int,
                    calls: Id -> Call)
    requires a in r && a in r1 && a in r2 && r1.Keys == r.Keys && r2.Keys == r.Keys
    requires PushedTo(r, r1, a, m, g, s, now, calls)
    requires m.id in r2[a].updates && r2[a].updates[m.id] == r1[a].updates[m.id]
    requires m.id in r ==> r2[m.id].members == r1[m.id].members && r2[m.id].info == r1[m.id].info
    ensures PushedTo(r, r2, a, m, g, s, now, calls)
  {
    hide Cards, Named, Since;
  }

  lemma PushedNow(r: Roster, r1: Roster, r2: Roster, a: Id, m: Member, g: Id, s: Snapshot, now: int, calls: Id -> Call)
    requires a in r && a in r1 && a in r2 && r1.Keys == r.Keys && r2.Keys == r.Keys
    requires Get(r1[a].updates, m.id) == Get(r[a].updates, m.id)
    requires m.id in r ==> r1[m.id].members == r[m.id].members && r1[m.id].info == r[m.id].info
    requires r2[a].updates == r1[a].updates[m.id :=
               Update(s, s.version, if Reached(r1, m, calls) then 1 else 0, Since(r1[a].updates, m.id, now))]
    requires Delivered(r1, r2, m, g, s, now, calls)
    ensures PushedTo(r, r2, a, m, g, s, now, calls)
  {
    hide Cards, Named;
  }

  lemma {:induction false} FanOutExact(r: Roster, a: Id, list: seq<Member>, g: Id, s: Snapshot, now: int, stamp: Stamp,
                                       calls: Id -> Call)
    requires a in r && NoRepeats(list) && NoRepeats(s.members)
    ensures
      var o := FanOutSeats(r, a, list, g, s, now, stamp, calls);
      && (forall k | k in Tabled(list) && k != a :: PushedTo(r, o.roster, a, Tabled(list)[k], g, s, now, calls))
      && (o.ok <==> forall k | k in Tabled(list) && k != a ::
            k in o.roster[a].updates && o.roster[a].updates[k].accepted == 1)
      && (forall k | k !in Tabled(list) || k == a :: Get(o.roster[a].updates, k) == Get(r[a].updates, k))
      && (forall n | n in r && (n !in Tabled(list) || n == a) ::
            o.roster[n].members == r[n].members && o.roster[n].info == r[n].info)
      && (forall n | n in r && n != a :: o.roster[n].updates == r[n].updates)
    decreases |list|
  {
    hide Cards, Named, Since, PushSeat, Delivered;
    if list != [] {
      var m, front := Last(list), Front(list);
      FanOutExact(r, a, front, g, s, now, stamp, calls);
      if m.id != a {
        var r1 := FanOutSeats(r, a, front, g, s, now, stamp, calls).roster;
        var r2 := PushSeat(r1, a, m, g, s, now, stamp, calls(m.id)).roster;
        PushEffect(r1, a, m, g, s, now, stamp, calls);
        PushedNow(r, r1, r2, a, m, g, s, now, calls);
        forall k | k in Tabled(front) && k != a
          ensures PushedTo(r, r2, a, Tabled(front)[k], g, s, now, calls)
        {
          PushedStays(r, r1, r2, a, Tabled(front)[k], g, s, now, calls);
        }
      }
    }
  }

  /** The same of the nodes' tables: the flag is true exactly when every other member's queued
      update is this snapshot, accepted; each names its addressee; and nothing is written about
      other groups, other members' queues, or nodes outside the list. */
  lemma FlagIsExact(w: Nodes, a: Id, list: seq<Member>, g: Id, version: int, now: int, stamp: Stamp, calls: Id -> Call)
    requires a in w && NoRepeats(list)
    ensures
      var name := if g in w[a].groups then w[a].groups[g].name else "";
      var s := Snapshot(a, name, version, list);
      var o := FanOut(w, a, list, g, s, now, stamp, calls);
      var queue := UpdatesOf(o.nodes[a], g);
      && (o.ok <==> forall k | k in Tabled(list) && k != a :: k in queue && queue[k].accepted == 1)
      && (forall k | k in Tabled(list) && k != a ::
            && k in queue && k in Tabled(queue[k].snapshot.members) && 0 <= queue[k].accepted <= 1
            && var rows := UpdatesOf(w[a], g);
               queue[k] == Update(s, version, queue[k].accepted, if k in rows then rows[k].createdAt else now))
      && (forall k | k !in Tabled(list) || k == a :: Get(queue, k) == Get(UpdatesOf(w[a], g), k))
      && (forall h | h != g :: RosterOf(o.nodes, h) == RosterOf(w, h))
      && (forall n | n in w && (n !in Tabled(list) || n == a) :: MembersOf(o.nodes[n], g) == MembersOf(w[n], g))
  {
    var s := SnapshotOf(w[a], g, a, list, version);
    var o := FanOut(w, a, list, g, s, now, stamp, calls);
    var r := RosterOf(w, g);
    FanOutRosters(w, a, list, g, s, now, stamp, calls, g);
    FanOutExact(r, a, list, g, s, now, stamp, calls);
    var r' := RosterOf(o.nodes, g);
    assert forall n | n in w :: r'[n] == SeatOf(o.nodes[n], g) && r[n] == SeatOf(w[n], g);
    forall k | k in Tabled(list) && k != a ensures PushedTo(r, r', a, Tabled(list)[k], g, s, now, calls) {}
    forall h | h != g ensures RosterOf(o.nodes, h) == RosterOf(w, h) {
      FanOutRosters(w, a, list, g, s, now, stamp, calls, h);
    }
  }
}
