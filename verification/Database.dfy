/** db_manager: the tables of one node and the statements that read and write them. A cursor
    yields the matching rows in some order, ordered where the statement says so. */
module Database {
  import opened Common
  import opened Messages
  import opened Groups
  import opened Histories
  import Access
  import Replication
  import Snapshots

  datatype Contact = Contact(name: string, address: string)
  datatype ContactInfo = ContactInfo(id: Id, contact: Contact, latest: Option<Message>)

  function AddressOf(contacts: map<Id, Contact>, id: Id): string {
    if id in contacts then contacts[id].address else ""
  }

  // ---------------------------------------------------------------- cursors

  lemma {:induction false} SomeLeast<T>(keys: set<T>, key: T -> int)
    requires keys != {}
    ensures exists k | k in keys :: forall k' | k' in keys :: key(k) <= key(k')
    decreases |keys|
  {
    var x :| x in keys;
    var rest := keys - {x};
    if rest == {} {
      assert keys == {x};
    } else {
      SomeLeast(rest, key);
      var k :| k in rest && forall k' | k' in rest :: key(k) <= key(k');
      var best := if key(x) <= key(k) then x else k;
      assert forall k' | k' in keys :: k' == x || k' in rest;
      assert best in keys && forall k' | k' in keys :: key(best) <= key(k');
    }
  }

  lemma ListMore(list: seq<Message>, m: Message)
    requires Replication.Distinct(list) && forall x | x in list :: x.id != m.id
    ensures Replication.Distinct(list + [m])
  {
    forall i, j | 0 <= i < j < |list + [m]| ensures (list + [m])[i].id != (list + [m])[j].id {
      assert (list + [m])[i] == list[i] && list[i] in list;
    }
  }

  lemma SortedMore(list: seq<Message>, m: Message)
    requires Sorted(list) && forall x | x in list :: x.timestamp <= m.timestamp
    ensures Sorted(list + [m])
  {
    forall i, j | 0 <= i < j < |list + [m]| ensures (list + [m])[i].timestamp <= (list + [m])[j].timestamp {
      assert (list + [m])[i] == list[i] && list[i] in list;
    }
  }

  lemma Overwrite<K, V>(m: map<K, V>, k: K, v: V, v': V)
    ensures m[k := v][k := v'] == m[k := v']
  {
  }

  /** A history cursor part-way: list holds the rows already stepped over, todo the keys of the rest. */
  ghost predicate Stepped(list: seq<Message>, t: Table, q: Query, todo: set<Id>) {
    && Replication.Distinct(list) && Sorted(list)
    && (forall id | id in todo :: id in t && Selects(q, t[id]))
    && (forall m | m in list :: m.id in t && t[m.id] == m && Selects(q, m) && m.id !in todo)
    && (forall m, id | m in list && id in todo :: m.timestamp <= t[id].timestamp)
    && (forall id | id in t && Selects(q, t[id]) :: id in todo || t[id] in list)
  }

  lemma StepOn(list: seq<Message>, t: Table, q: Query, todo: set<Id>, id: Id)
    requires Stepped(list, t, q, todo) && Replication.KeysMatch(t)
    requires id in todo && forall k | k in todo :: t[id].timestamp <= t[k].timestamp
    ensures Stepped(list + [t[id]], t, q, todo - {id})
  {
    ListMore(list, t[id]);
    SortedMore(list, t[id]);
  }

  lemma Walkable(t: Table, q: Query, todo: set<Id>)
    requires todo == set id | id in t && Selects(q, t[id])
    ensures Stepped([], t, q, todo)
  {
  }

  lemma Earliest(t: Table, q: Query, list: seq<Message>, todo: set<Id>)
    requires Stepped(list, t, q, todo) && todo != {}
    ensures todo <= t.Keys
    ensures exists id | id in todo :: forall k | k in todo :: t[id].timestamp <= t[k].timestamp
  {
    hide Selects;
    SomeLeast(todo, (id: Id) => if id in t then t[id].timestamp else 0);
  }

  lemma AllStepped(t: Table, q: Query, list: seq<Message>)
    requires Stepped(list, t, q, {})
    ensures HistoryList(list, t, q)
  {
  }

  /** The same for the member cursor. */
  ghost predicate Walked(list: seq<Member>, rows: map<Id, Member>, todo: set<Id>) {
    && todo <= rows.Keys && NoRepeats(list) && Tabled(list) == rows - todo
    && (forall i, j | 0 <= i < j < |list| :: list[i].addedAt <= list[j].addedAt)
    && (forall i, k | 0 <= i < |list| && k in todo :: list[i].addedAt <= rows[k].addedAt)
  }

  lemma WalkOn(list: seq<Member>, rows: map<Id, Member>, todo: set<Id>, k: Id)
    requires Walked(list, rows, todo) && forall x | x in rows :: rows[x].id == x
    requires k in todo && forall x | x in todo :: rows[k].addedAt <= rows[x].addedAt
    ensures Walked(list + [rows[k]], rows, todo - {k})
  {
    Append(list, rows[k]);
    assert (rows - todo)[k := rows[k]] == rows - (todo - {k});
  }

  /** The cursor over queued updates. */
  ghost predicate Queueing(list: seq<Snapshots.Queued>, rows: map<Id, map<Id, Update>>, todo: set<(Id, Id)>) {
    && (forall p | p in todo :: p.0 in rows && p.1 in rows[p.0] && rows[p.0][p.1].accepted == 0)
    && (forall i | 0 <= i < |list| ::
          var u := list[i];
          && u.group in rows && u.member in rows[u.group] && rows[u.group][u.member] == u.update
          && u.update.accepted == 0 && (u.group, u.member) !in todo)
    && (forall i, j | 0 <= i < j < |list| ::
          && (list[i].group != list[j].group || list[i].member != list[j].member)
          && list[i].update.createdAt <= list[j].update.createdAt)
    && (forall i, p | 0 <= i < |list| && p in todo :: list[i].update.createdAt <= rows[p.0][p.1].createdAt)
    && (forall g, k | g in rows && k in rows[g] && rows[g][k].accepted == 0 ::
          (g, k) in todo || Snapshots.Queued(g, k, rows[g][k]) in list)
  }

  lemma SomeOldest(list: seq<Snapshots.Queued>, rows: map<Id, map<Id, Update>>, todo: set<(Id, Id)>)
    requires Queueing(list, rows, todo) && todo != {}
    ensures forall p | p in todo :: p.0 in rows && p.1 in rows[p.0]
    ensures exists p | p in todo :: forall x | x in todo :: rows[p.0][p.1].createdAt <= rows[x.0][x.1].createdAt
  {
    SomeLeast(todo, (p: (Id, Id)) => if p.0 in rows && p.1 in rows[p.0] then rows[p.0][p.1].createdAt else 0);
  }

  lemma QueueOn(list: seq<Snapshots.Queued>, rows: map<Id, map<Id, Update>>, todo: set<(Id, Id)>, p: (Id, Id))
    requires Queueing(list, rows, todo) && p in todo
    requires forall x | x in todo :: rows[p.0][p.1].createdAt <= rows[x.0][x.1].createdAt
    ensures Queueing(list + [Snapshots.Queued(p.0, p.1, rows[p.0][p.1])], rows, todo - {p})
  {
  }

  /** Contacts listed so far. */
  ghost predicate Presented(infos: seq<ContactInfo>, contacts: map<Id, Contact>, t: Table, self: Id, done: set<Id>) {
    && (forall i, j | 0 <= i < j < |infos| :: infos[i].id != infos[j].id)
    && (forall i | 0 <= i < |infos| ::
          && infos[i].id in done && infos[i].id in contacts && infos[i].contact == contacts[infos[i].id]
          && LatestRow(infos[i].latest, t, Direct(self, infos[i].id)))
    && (forall id | id in done :: exists i | 0 <= i < |infos| :: infos[i].id == id)
  }

  lemma PresentOn(infos: seq<ContactInfo>, contacts: map<Id, Contact>, t: Table, self: Id, done: set<Id>,
                  info: ContactInfo)
    requires Presented(infos, contacts, t, self, done) && info.id !in done
    requires info.id in contacts && info.contact == contacts[info.id]
      && LatestRow(info.latest, t, Direct(self, info.id))
    ensures Presented(infos + [info], contacts, t, self, done + {info.id})
  {
    hide LatestRow;
    var more := infos + [info];
    forall id | id in done + {info.id} ensures exists i | 0 <= i < |more| :: more[i].id == id {
      if id == info.id {
        assert more[|infos|].id == id;
      } else {
        var i :| 0 <= i < |infos| && infos[i].id == id;
        assert more[i].id == id;
      }
    }
  }

  class DbManager {
    var contacts: map<Id, Contact>
    var messages: Table
    var groups: map<Id, GroupInfo>
    var members: map<Id, map<Id, Member>>
    var updates: map<Id, map<Id, Update>>
    var clients: map<Id, Access.Client>
    var requests: map<Id, Access.AuthRequest>

    /** Rows are found under their primary keys. */
    ghost predicate Valid() reads this {
      && Replication.KeysMatch(messages)
      && forall g, k | g in members && k in members[g] :: members[g][k].id == k
    }

    ghost function GroupTables(): Tables
      reads this`groups, this`members, this`updates
    {
      Tables(groups, members, updates)
    }

    constructor ()
      ensures Valid() && messages == map[] && GroupTables() == Tables(map[], map[], map[])
      ensures contacts == map[] && clients == map[] && requests == map[]
    {
      contacts, messages, groups, members, updates := map[], map[], map[], map[], map[];
      clients, requests := map[], map[];
    }

    // -------------------------------------------------------------- contacts

    method UpsertContact(id: Id, name: string, address: string)
      modifies this`contacts
      ensures contacts == old(contacts)[id := Contact(name, address)]
    {
      contacts := contacts[id := Contact(name, address)];
    }

    method GetContactAddress(id: Id) returns (address: string)
      ensures address == AddressOf(contacts, id)
    {
      address := "";
      if id in contacts {
        address := contacts[id].address;
      }
    }

    // -------------------------------------------------------------- messages

    /** INSERT names eight columns; the others take their defaults. */
    method AddMessage(m: Message) returns (ok: bool)
      requires Valid()
      modifies this`messages
      ensures Valid()
      ensures ok <==> m.id !in old(messages)
      ensures !ok ==> messages == old(messages)
      ensures ok ==> messages == old(messages)[m.id :=
                       NewMessage(m.id, m.sender, m.recipient, m.group, m.plaintext, m.ciphertext, m.accepted,
                                  m.timestamp)]
    {
      ok := m.id !in messages;
      if ok {
        messages := messages[m.id := m.(editedAt := 0, editAccepted := 0, deleteAccepted := 1, deletedAt := 0)];
      }
    }

    method MarkAccepted(id: Id, to: Id)
      requires Valid()
      modifies this`messages
      ensures Valid() && messages == Mark(old(messages), id, Some(to), Accepted)
    {
      if id in messages && messages[id].recipient == to {
        messages := messages[id := messages[id].(accepted := DELIVERED)];
      }
    }

    method MarkFailed(id: Id)
      requires Valid()
      modifies this`messages
      ensures Valid() && messages == Mark(old(messages), id, None, Failed)
    {
      if id in messages {
        messages := messages[id := messages[id].(accepted := FAILED)];
      }
    }

    method MarkDeleted(id: Id)
      requires Valid()
      modifies this`messages
      ensures Valid() && messages.Keys == old(messages).Keys
      ensures forall k | k in messages ::
                messages[k] == if k == id then old(messages)[k].(accepted := DELETED) else old(messages)[k]
    {
      if id in messages {
        messages := messages[id := messages[id].(accepted := DELETED)];
      }
    }

    method MarkDeletePending(id: Id, now: int)
      requires Valid()
      modifies this`messages
      ensures Valid() && messages.Keys == old(messages).Keys
      ensures forall k | k in messages ::
                messages[k] == if k == id then old(messages)[k].(deleteAccepted := 0, deletedAt := now)
                               else old(messages)[k]
    {
      if id in messages {
        messages := messages[id := messages[id].(deleteAccepted := 0, deletedAt := now)];
      }
    }

    /** The overloads with and without a recipient. */
    method MarkDeleteAccepted(id: Id, to: Option<Id>)
      requires Valid()
      modifies this`messages
      ensures Valid() && messages == Mark(old(messages), id, to, DeleteAccepted)
    {
      if id in messages && (to.None? || messages[id].recipient == to.value) {
        messages := messages[id := messages[id].(deleteAccepted := 1)];
      }
    }

    method MarkDeleteFailed(id: Id)
      requires Valid()
      modifies this`messages
      ensures Valid() && messages == Mark(old(messages), id, None, DeleteFailed)
    {
      if id in messages {
        messages := messages[id := messages[id].(deleteAccepted := 2)];
      }
    }

    method MarkEditAccepted(id: Id, to: Option<Id>)
      requires Valid()
      modifies this`messages
      ensures Valid() && messages == Mark(old(messages), id, to, EditAccepted)
    {
      if id in messages && (to.None? || messages[id].recipient == to.value) {
        messages := messages[id := messages[id].(editAccepted := 1)];
      }
    }

    method MarkEditFailed(id: Id)
      requires Valid()
      modifies this`messages
      ensures Valid() && messages == Mark(old(messages), id, None, EditFailed)
    {
      if id in messages {
        messages := messages[id := messages[id].(editAccepted := 2)];
      }
    }

    method GetMessage(id: Id) returns (row: Option<Message>)
      ensures row == Get(messages, id)
    {
      row := None;
      if id in messages {
        row := Some(messages[id]);
      }
    }

    /** An UPDATE that matches no row succeeds. */
    method UpdateMessageEdit(id: Id, text: Text, cipher: string, at: int)
      requires Valid()
      modifies this`messages
      ensures Valid()
      ensures messages == if id in old(messages) then old(messages)[id := EditRow(old(messages)[id], text, cipher, at)]
                          else old(messages)
    {
      if id in messages {
        var m := messages[id].(plaintext := text, ciphertext := cipher, editedAt := at, editAccepted := 0);
        messages := messages[id := m];
      }
    }

    method UpdateMessageEditFor(id: Id, to: Id, text: Text, cipher: string, at: int)
      requires Valid()
      modifies this`messages
      ensures Valid()
      ensures messages == if id in old(messages) && old(messages)[id].recipient == to
                          then old(messages)[id := EditRow(old(messages)[id], text, cipher, at)] else old(messages)
    {
      if id in messages && messages[id].recipient == to {
        var m := messages[id].(plaintext := text, ciphertext := cipher, editedAt := at, editAccepted := 0);
        messages := messages[id := m];
      }
    }

    /** get_pending_messages, get_pending_edits, get_pending_deletes. */
    method GetPending(op: Op) returns (list: seq<Message>)
      requires Valid()
      ensures Replication.Listing(list, messages, op)
    {
      list := [];
      var todo := set id | id in messages && IsPending(op, messages[id]);
      while todo != {}
        invariant forall id | id in todo :: id in messages && IsPending(op, messages[id])
        invariant Replication.Distinct(list)
        invariant forall m | m in list :: m.id in messages && messages[m.id] == m && IsPending(op, m) && m.id !in todo
        invariant forall id | id in messages && IsPending(op, messages[id]) :: id in todo || messages[id] in list
        decreases |todo|
      {
        var id :| id in todo;
        ListMore(list, messages[id]);
        list := list + [messages[id]];
        todo := todo - {id};
      }
    }

    /** get_messages_between and get_messages_for_group. */
    method GetMessages(q: Query) returns (list: seq<Message>)
      requires Valid()
      ensures HistoryList(list, messages, q)
    {
      list := [];
      var t := messages;
      var todo := set id | id in t && Selects(q, t[id]);
      Walkable(t, q, todo);
      hide Stepped, Selects, HistoryList;
      while todo != {}
        invariant Stepped(list, t, q, todo)
        decreases |todo|
      {
        Earliest(t, q, list, todo);
        var id :| id in todo && forall k | k in todo :: t[id].timestamp <= t[k].timestamp;
        StepOn(list, t, q, todo, id);
        list := list + [t[id]];
        todo := todo - {id};
      }
      AllStepped(t, q, list);
    }

    /** The latest-message query of get_contacts_with_latest_message, and get_last_message_for_group. */
    method GetLatest(q: Query) returns (row: Option<Message>)
      requires Valid()
      ensures LatestRow(row, messages, q)
    {
      row := None;
      var found := set id | id in messages && Selects(q, messages[id]);
      assert forall id | id in messages && Selects(q, messages[id]) :: id in found;
      if found != {} {
        ghost var t := messages;
        SomeLeast(found, (id: Id) => if id in t then -t[id].timestamp else 0);
        var id :| id in found && forall k | k in found :: messages[k].timestamp <= messages[id].timestamp;
        row := Some(messages[id]);
      }
    }

    /** Every contact once, each with its preview. */
    method GetContactsWithLatestMessage(self: Id) returns (infos: seq<ContactInfo>)
      requires Valid()
      ensures Presented(infos, contacts, messages, self, contacts.Keys)
    {
      infos := [];
      var todo := contacts.Keys;
      while todo != {}
        invariant todo <= contacts.Keys && Presented(infos, contacts, messages, self, contacts.Keys - todo)
        decreases |todo|
      {
        var id :| id in todo;
        var latest := GetLatest(Direct(self, id));
        var info := ContactInfo(id, contacts[id], latest);
        PresentOn(infos, contacts, messages, self, contacts.Keys - todo, info);
        assert contacts.Keys - todo + {id} == contacts.Keys - (todo - {id});
        infos := infos + [info];
        todo := todo - {id};
      }
      assert contacts.Keys - todo == contacts.Keys;
    }

    // -------------------------------------------------------------- groups

    method GetGroup(g: Id) returns (row: Option<GroupInfo>)
      ensures row == Get(groups, g)
    {
      row := None;
      if g in groups {
        row := Some(groups[g]);
      }
    }

    method CreateGroup(g: Id, info: GroupInfo) returns (ok: bool)
      modifies this`groups
      ensures ok <==> g !in old(groups)
      ensures groups == if ok then old(groups)[g := info] else old(groups)
    {
      ok := g !in groups;
      if ok {
        groups := groups[g := info];
      }
    }

    method UpdateGroupName(g: Id, name: string)
      modifies this`groups
      ensures groups == if g in old(groups) then old(groups)[g := old(groups)[g].(name := name)] else old(groups)
    {
      if g in groups {
        groups := groups[g := groups[g].(name := name)];
      }
    }

    /** Two statements: the group, then its members. Queued updates stay. */
    method DeleteGroup(g: Id)
      requires Valid()
      modifies this`groups, this`members
      ensures Valid()
      ensures groups == old(groups) - {g} && members == old(members) - {g}
    {
      groups := groups - {g};
      members := members - {g};
    }

    /** DELETE, then one INSERT after another; a repeated member is refused and the loop goes on. */
    method ReplaceGroupMembers(g: Id, list: seq<Member>) returns (allOk: bool)
      requires Valid()
      modifies this`members
      ensures Valid()
      ensures members == old(members)[g := Tabled(list)] && (allOk <==> NoRepeats(list))
    {
      ghost var before := members;
      members := members[g := map[]];
      allOk := true;
      for i := 0 to |list|
        invariant g in members && members == before[g := members[g]]
        invariant members[g] == Tabled(list[..i]) && (allOk <==> NoRepeats(list[..i]))
      {
        var m, rows := list[i], members[g];
        Append(list[..i], m);
        assert list[..i + 1] == list[..i] + [m];
        if m.id in rows {
          allOk := false;
        } else {
          Overwrite(before, g, rows, rows[m.id := m]);
          members := members[g := rows[m.id := m]];
        }
      }
      assert list[..|list|] == list;
    }

    method GetGroupMembers(g: Id) returns (list: seq<Member>)
      requires Valid()
      ensures Lists(list, MembersOf(GroupTables(), g))
    {
      list := [];
      var rows := if g in members then members[g] else map[];
      var todo := rows.Keys;
      while todo != {}
        invariant Walked(list, rows, todo)
        decreases |todo|
      {
        SomeLeast(todo, (k: Id) => if k in rows then rows[k].addedAt else 0);
        var k :| k in todo && forall x | x in todo :: rows[k].addedAt <= rows[x].addedAt;
        WalkOn(list, rows, todo, k);
        list := list + [rows[k]];
        todo := todo - {k};
      }
      assert rows - todo == rows;
    }

    /** Queue a snapshot for a member, pending again if one was queued before; such a row keeps its
        created_at. */
    method UpsertGroupUpdate(g: Id, member: Id, s: Snapshot, version: int, now: int)
      modifies this`updates
      ensures
        var rows := UpdatesOf(old(GroupTables()), g);
        updates == old(updates)[g := rows[member :=
                     Update(s, version, 0, if member in rows then rows[member].createdAt else now)]]
    {
      var rows := if g in updates then updates[g] else map[];
      if member in rows {
        updates := updates[g := rows[member := rows[member].(snapshot := s, version := version, accepted := 0)]];
      } else {
        updates := updates[g := rows[member := Update(s, version, 0, now)]];
      }
    }

    method MarkGroupUpdateAccepted(g: Id, member: Id)
      modifies this`updates
      ensures GroupTables() == Snapshots.MarkUpdate(old(GroupTables()), g, member)
    {
      if g in updates && member in updates[g] {
        updates := updates[g := updates[g][member := updates[g][member].(accepted := 1)]];
      }
    }

    method GetPendingGroupUpdates() returns (list: seq<Snapshots.Queued>)
      ensures Snapshots.PendingUpdates(list, GroupTables())
    {
      list := [];
      var rows: map<Id, map<Id, Update>> := updates;
      var todo := set g, k | g in rows && k in rows[g] && rows[g][k].accepted == 0 :: (g, k);
      while todo != {}
        invariant Queueing(list, rows, todo)
        decreases |todo|
      {
        SomeOldest(list, rows, todo);
        var p :| p in todo && forall x | x in todo :: rows[p.0][p.1].createdAt <= rows[x.0][x.1].createdAt;
        QueueOn(list, rows, todo, p);
        list := list + [Snapshots.Queued(p.0, p.1, rows[p.0][p.1])];
        todo := todo - {p};
      }
    }

    // -------------------------------------------------------------- clients and requests

    method HasClients() returns (some: bool)
      ensures some <==> clients != map[]
    {
      some := |clients| > 0;
    }

    method CreateClient(id: Id, row: Access.Client) returns (ok: bool)
      modifies this`clients
      ensures ok <==> id !in old(clients)
      ensures clients == if ok then old(clients)[id := row] else old(clients)
    {
      ok := id !in clients;
      if ok {
        clients := clients[id := row];
      }
    }

    method GetClient(id: Id) returns (row: Option<Access.Client>)
      ensures row == Get(clients, id)
    {
      row := None;
      if id in clients {
        row := Some(clients[id]);
      }
    }

    /** DELETE succeeds whether or not the row exists, so no caller ever sees it fail. */
    method DeleteClient(id: Id)
      modifies this`clients
      ensures clients == old(clients) - {id}
    {
      clients := clients - {id};
    }

    method AddAuthRequest(id: Id, device: string, created: int, expires: int) returns (ok: bool)
      modifies this`requests
      ensures ok <==> id !in old(requests)
      ensures requests == if ok then old(requests)[id := Access.AuthRequest(device, created, expires, "", "")]
                          else old(requests)
    {
      ok := id !in requests;
      if ok {
        requests := requests[id := Access.AuthRequest(device, created, expires, "", "")];
      }
    }

    method GetAuthRequest(id: Id) returns (row: Option<Access.AuthRequest>)
      ensures row == Get(requests, id)
    {
      row := None;
      if id in requests {
        row := Some(requests[id]);
      }
    }

    method DeleteAuthRequest(id: Id)
      modifies this`requests
      ensures requests == old(requests) - {id}
    {
      requests := requests - {id};
    }

    method ApproveAuthRequest(id: Id, client: Id, secret: string)
      modifies this`requests
      ensures requests == if id in old(requests)
                          then old(requests)[id := old(requests)[id].(client := client, secret := secret)]
                          else old(requests)
    {
      if id in requests {
        requests := requests[id := requests[id].(client := client, secret := secret)];
      }
    }
  }
}
