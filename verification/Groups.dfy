/** Group tables, membership changes, and the snapshots that carry them to other nodes. */
module Groups {
  import opened Common

  datatype Member = Member(id: Id, address: string, role: string, addedAt: int)
  datatype GroupInfo = GroupInfo(name: string, createdBy: Id, createdAt: int)

  /** The JSON body of accept_group_update without its group id, which is always that of the
      queue row it is stored under; name is "" when the sender has no group row. */
  datatype Snapshot = Snapshot(sender: Id, name: string, version: int, members: seq<Member>)
  datatype Update = Update(snapshot: Snapshot, version: int, accepted: int, createdAt: int)

  /** group_members and group_updates have composite keys (group, member). */
  datatype Tables = Tables(groups: map<Id, GroupInfo>, members: map<Id, map<Id, Member>>,
                           updates: map<Id, map<Id, Update>>)

  type Nodes = map<Id, Tables>

  function MembersOf(t: Tables, g: Id): map<Id, Member> {
    if g in t.members then t.members[g] else map[]
  }

  function UpdatesOf(t: Tables, g: Id): map<Id, Update> {
    if g in t.updates then t.updates[g] else map[]
  }

  // ---------------------------------------------------------------- member lists

  /** INSERT one row after another into an empty group; a repeated key is refused. */
  function Tabled(list: seq<Member>): (rows: map<Id, Member>)
    ensures forall k | k in rows :: rows[k].id == k
  {
    if list == [] then map[]
    else
      var rows, m := Tabled(Front(list)), Last(list);
      if m.id in rows then rows else rows[m.id := m]
  }

  /** Every insert succeeded. */
  predicate NoRepeats(list: seq<Member>) {
    list == [] || (NoRepeats(Front(list)) && Last(list).id !in Tabled(Front(list)))
  }

  /** A query result for a group: each row once, oldest first. */
  ghost predicate Lists(list: seq<Member>, rows: map<Id, Member>) {
    && NoRepeats(list) && Tabled(list) == rows
    && forall i, j | 0 <= i < j < |list| :: list[i].addedAt <= list[j].addedAt
  }

  lemma Append(list: seq<Member>, m: Member)
    ensures Tabled(list + [m]) == if m.id in Tabled(list) then Tabled(list) else Tabled(list)[m.id := m]
    ensures NoRepeats(list + [m]) <==> NoRepeats(list) && m.id !in Tabled(list)
  {
    assert Front(list + [m]) == list && Last(list + [m]) == m;
  }

  /** The ids of a list are the keys it is stored under, and repeats are exactly equal ids. */
  lemma {:induction false} RepeatsMean(list: seq<Member>)
    ensures forall k :: k in Tabled(list) <==> exists i | 0 <= i < |list| :: list[i].id == k
    ensures NoRepeats(list) <==> forall i, j | 0 <= i < j < |list| :: list[i].id != list[j].id
    decreases |list|
  {
    if list != [] {
      var front := Front(list);
      RepeatsMean(front);
      assert forall i | 0 <= i < |front| :: list[i] == front[i];
      forall k ensures k in Tabled(list) <==> exists i | 0 <= i < |list| :: list[i].id == k {
        if k == Last(list).id { assert list[|list| - 1].id == k; }
      }
      if Last(list).id in Tabled(front) {
        var i :| 0 <= i < |front| && front[i].id == Last(list).id;
        assert list[i].id == list[|list| - 1].id;
      }
    }
  }

  /** Of rows with the same id the first is stored, and the others are refused. */
  lemma {:induction false} FirstIsStored(list: seq<Member>, i: nat)
    requires i < |list| && forall j | 0 <= j < i :: list[j].id != list[i].id
    ensures Get(Tabled(list), list[i].id) == Some(list[i])
    decreases |list|
  {
    if i < |list| - 1 {
      FirstIsStored(Front(list), i);
    } else {
      RepeatsMean(Front(list));
    }
  }

  lemma {:induction false} CountOnce(list: seq<Member>, m: Member)
    requires NoRepeats(list)
    ensures multiset(list)[m] == if Get(Tabled(list), m.id) == Some(m) then 1 else 0
    decreases |list|
  {
    if list != [] {
      assert list == Front(list) + [Last(list)];
      CountOnce(Front(list), m);
    }
  }

  /** Storing a list and querying the group gives the list back, up to the order of added_at. */
  lemma ReplaceThenGet(list: seq<Member>, back: seq<Member>)
    requires NoRepeats(list) && Lists(back, Tabled(list))
    ensures multiset(back) == multiset(list)
  {
    forall m ensures multiset(back)[m] == multiset(list)[m] {
      CountOnce(back, m);
      CountOnce(list, m);
    }
  }

  /** for (auto &m : list) if (m.member_id == id) { m.server_address = address; break; } */
  function SetAddress(list: seq<Member>, id: Id, address: string): (r: seq<Member>)
    ensures |r| == |list|
    decreases |list|
  {
    if list == [] then []
    else
      var m := Last(list);
      if id in Tabled(Front(list)) then SetAddress(Front(list), id, address) + [m]
      else Front(list) + [if m.id == id then m.(address := address) else m]
  }

  /** SetAddress changes the first row with the id, and only its address. */
  lemma {:induction false} SetAddressAt(list: seq<Member>, id: Id, address: string, i: nat)
    requires i <= |list| && (forall j | 0 <= j < i :: list[j].id != id)
    ensures i == |list| ==> SetAddress(list, id, address) == list && id !in Tabled(list)
    ensures i < |list| && list[i].id == id ==>
              SetAddress(list, id, address) == list[i := list[i].(address := address)] && id in Tabled(list)
    decreases |list|
  {
    if list != [] {
      var front, m := Front(list), Last(list);
      assert list == front + [m];
      if i < |front| {
        SetAddressAt(front, id, address, i);
      } else {
        SetAddressAt(front, id, address, |front|);
      }
    }
  }

  /** The list add_member stores. */
  function Added(list: seq<Member>, self: Id, id: Id, address: string, selfAddress: Option<string>, now: int)
    : seq<Member>
  {
    var list1 := if selfAddress.Some? then SetAddress(list, self, selfAddress.value) else list;
    if id in Tabled(list1) then SetAddress(list1, id, address) else list1 + [Member(id, address, "member", now)]
  }

  /** The list remove_member stores. */
  function Without(list: seq<Member>, id: Id): seq<Member>
    decreases |list|
  {
    if list == [] then []
    else Without(Front(list), id) + if Last(list).id == id then [] else [Last(list)]
  }

  function Readdressed(rows: map<Id, Member>, id: Id, address: string): map<Id, Member> {
    if id in rows then rows[id := rows[id].(address := address)] else rows
  }

  lemma {:induction false} SetAddressTabled(list: seq<Member>, id: Id, address: string)
    requires NoRepeats(list)
    ensures NoRepeats(SetAddress(list, id, address))
    ensures Tabled(SetAddress(list, id, address)) == Readdressed(Tabled(list), id, address)
    decreases |list|
  {
    hide Tabled, NoRepeats;
    if list == [] {
      SetAddressAt(list, id, address, 0);
    } else {
      var front, m := Front(list), Last(list);
      assert list == front + [m];
      Append(front, m);
      SetAddressTabled(front, id, address);
      Append(SetAddress(front, id, address), m);
      Append(front, m.(address := address));
    }
  }

  lemma PutMinus<V>(rows: map<Id, V>, id: Id, k: Id, v: V)
    ensures rows[k := v] - {id} == if k == id then rows - {id} else (rows - {id})[k := v]
  {
  }

  lemma {:induction false} WithoutTabled(list: seq<Member>, id: Id)
    requires NoRepeats(list)
    ensures NoRepeats(Without(list, id)) && Tabled(Without(list, id)) == Tabled(list) - {id}
    decreases |list|
  {
    if list != [] {
      var front, m := Front(list), Last(list);
      WithoutTabled(front, id);
      PutMinus(Tabled(front), id, m.id, m);
      if m.id != id {
        Append(Without(front, id), m);
      } else {
        assert Without(list, id) == Without(front, id);
      }
    }
  }

  lemma {:induction false} WithoutLength(list: seq<Member>, id: Id)
    requires NoRepeats(list)
    ensures |Without(list, id)| == |list| - if id in Tabled(list) then 1 else 0
    decreases |list|
  {
    if list != [] {
      WithoutLength(Front(list), id);
    }
  }

  // ---------------------------------------------------------------- membership algebra

  function AddedRows(rows: map<Id, Member>, self: Id, id: Id, address: string, selfAddress: Option<string>, now: int)
    : map<Id, Member>
  {
    var rows1 := if selfAddress.Some? then Readdressed(rows, self, selfAddress.value) else rows;
    if id in rows1 then Readdressed(rows1, id, address) else rows1[id := Member(id, address, "member", now)]
  }

  lemma AddedTabled(list: seq<Member>, self: Id, id: Id, address: string, selfAddress: Option<string>, now: int)
    requires NoRepeats(list)
    ensures NoRepeats(Added(list, self, id, address, selfAddress, now))
    ensures Tabled(Added(list, self, id, address, selfAddress, now))
         == AddedRows(Tabled(list), self, id, address, selfAddress, now)
  {
    var list1 := if selfAddress.Some? then SetAddress(list, self, selfAddress.value) else list;
    if selfAddress.Some? { SetAddressTabled(list, self, selfAddress.value); }
    if id in Tabled(list1) {
      SetAddressTabled(list1, id, address);
    } else {
      Append(list1, Member(id, address, "member", now));
    }
  }

  /** Everybody stays with role and joining time, the newcomer gets the role "member", and only
      the addresses the caller supplied can change. */
  ghost predicate IsUnion(rows: map<Id, Member>, rows': map<Id, Member>, self: Id, id: Id, address: string,
                          selfAddress: Option<string>, now: int)
  {
    && rows'.Keys == rows.Keys + {id}
    && rows'[id].address == address
    && (id !in rows ==> rows'[id] == Member(id, address, "member", now))
    && (forall k | k in rows :: rows'[k].role == rows[k].role && rows'[k].addedAt == rows[k].addedAt)
    && (forall k | k in rows && k != id && (k != self || selfAddress.None?) :: rows'[k] == rows[k])
    && (self in rows && self != id && selfAddress.Some? ==> rows'[self].address == selfAddress.value)
  }

  lemma AddedRowsUnion(rows: map<Id, Member>, self: Id, id: Id, address: string, selfAddress: Option<string>, now: int)
    ensures IsUnion(rows, AddedRows(rows, self, id, address, selfAddress, now), self, id, address, selfAddress, now)
  {
  }

  /** Adding a member is union, and the list the route builds is stored without a key conflict. */
  lemma AddIsUnion(list: seq<Member>, rows: map<Id, Member>, self: Id, id: Id, address: string,
                   selfAddress: Option<string>, now: int)
    requires Lists(list, rows)
    ensures
      var list' := Added(list, self, id, address, selfAddress, now);
      NoRepeats(list') && IsUnion(rows, Tabled(list'), self, id, address, selfAddress, now)
  {
    AddedTabled(list, self, id, address, selfAddress, now);
    AddedRowsUnion(rows, self, id, address, selfAddress, now);
  }

  /** Removing is set difference, and the route answers 404 exactly for a non-member. */
  lemma RemoveIsDifference(list: seq<Member>, rows: map<Id, Member>, id: Id)
    requires Lists(list, rows)
    ensures
      var list' := Without(list, id);
      && NoRepeats(list') && Tabled(list') == rows - {id}
      && (|list'| == |list| <==> id !in rows)
  {
    WithoutTabled(list, id);
    WithoutLength(list, id);
  }
}
