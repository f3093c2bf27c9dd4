/** The history and preview queries: what a chat window shows, and the line under a contact's name. */
module Histories {
  import opened Common
  import opened Messages
  import opened Replication
  import opened Convergence
  import Agreement
  import Interleaving
  import Outcomes
  import Protocol
  import Runs
  import Staleness

  /** The two WHERE clauses: a direct chat, and a group's messages. */
  datatype Query = Direct(self: Id, other: Id) | InGroup(group: Id)

  predicate Selects(q: Query, m: Message) {
    match q
    case Direct(self, other) => InChat(m, self, other)
    case InGroup(group) => m.group == group && m.accepted != DELETED
  }

  /** ORDER BY timestamp ASC; rows of equal timestamp in any order. */
  ghost predicate HistoryList(list: seq<Message>, t: Table, q: Query) {
    && Distinct(list) && Sorted(list)
    && (forall m | m in list :: m.id in t && t[m.id] == m && Selects(q, m))
    && (forall id | id in t && Selects(q, t[id]) :: t[id] in list)
  }

  predicate Sorted(list: seq<Message>) {
    forall i, j | 0 <= i < j < |list| :: list[i].timestamp <= list[j].timestamp
  }

  /** ORDER BY timestamp DESC LIMIT 1. */
  ghost predicate LatestRow(row: Option<Message>, t: Table, q: Query) {
    match row
    case None => forall id | id in t :: !Selects(q, t[id])
    case Some(m) =>
      && m.id in t && t[m.id] == m && Selects(q, m)
      && forall id | id in t && Selects(q, t[id]) :: t[id].timestamp <= m.timestamp
  }

  /** The preview is empty exactly when the history is, and otherwise it is a message of that
      history, as late as its last. */
  lemma PreviewAgrees(list: seq<Message>, row: Option<Message>, t: Table, q: Query)
    requires HistoryList(list, t, q) && LatestRow(row, t, q)
    ensures row.None? <==> list == []
    ensures row.Some? ==> row.value in list && row.value.timestamp == Last(list).timestamp
    ensures row.Some? ==> forall m | m in list :: m.timestamp <= row.value.timestamp
    ensures forall i, j | 0 <= i < j < |list| :: list[i].timestamp <= list[j].timestamp
  {
    if list != [] {
      assert Last(list) in list;
      if row.Some? {
        var i :| 0 <= i < |list| && list[i] == row.value;
        assert list[i].timestamp <= Last(list).timestamp;
      }
    }
  }

  /** Which rows a chat shows: what was sent between the two outside groups, or to the group, and
      has not been deleted. */
  lemma ListMeans(list: seq<Message>, t: Table, q: Query, id: Id)
    requires HistoryList(list, t, q) && KeysMatch(t)
    ensures (exists m :: m in list && m.id == id) <==>
            id in t && t[id].accepted != 3 &&
            (match q
             case Direct(a, b) => t[id].group == "" && ((t[id].sender == a && t[id].recipient == b)
                                                        || (t[id].sender == b && t[id].recipient == a))
             case InGroup(g) => t[id].group == g)
    ensures forall m | m in list && m.id == id :: id in t && m == t[id]
  {
    if id in t && Selects(q, t[id]) { assert t[id] in list; }
  }

  /** The message is in the list, with this sender, text and time. */
  predicate ShownIn(list: seq<Message>, id: Id, sender: Id, text: Text, time: int) {
    exists m | m in list :: m.id == id && m.sender == sender && m.plaintext == text && m.timestamp == time
  }

  predicate HiddenIn(list: seq<Message>, id: Id) {
    forall m | m in list :: m.id != id
  }

  /** What each query of a node says about a message it holds. */
  lemma RowShows(list: seq<Message>, t: Table, q: Query, m: Message)
    requires HistoryList(list, t, q) && KeysMatch(t) && Get(t, m.id) == Some(m) && m.accepted != 3
    ensures q == InGroup(m.group) ==> ShownIn(list, m.id, m.sender, m.plaintext, m.timestamp)
    ensures m.group == "" && (q == Direct(m.sender, m.recipient) || q == Direct(m.recipient, m.sender)) ==>
              ShownIn(list, m.id, m.sender, m.plaintext, m.timestamp)
    ensures (q.InGroup? && q.group != m.group) || (q.Direct? && m.group != "") ==> HiddenIn(list, m.id)
  {
    ListMeans(list, t, q, m.id);
    if q == InGroup(m.group)
       || (m.group == "" && (q == Direct(m.sender, m.recipient) || q == Direct(m.recipient, m.sender))) {
      var x :| x in list && x.id == m.id;
      assert x == m;
    }
  }

  /** A message sent to a group is in the group's history at its author, and at the recipient if the
      POST was handled; it is in no direct history and in no other group's. */
  lemma GroupSendShows(open: Opener, w: World, s: Protocol.Step, n: Id, q: Query, list: seq<Message>)
    requires Agreement.Inv(open, w) && Protocol.Enabled(w, open, s) && s.Send? && s.cipher.Some? && s.group != ""
    requires n == s.who || (n == s.to && Outcomes.Handles(w, s.who, s.to, s.call))
    requires n in Protocol.Apply(w, open, s) && HistoryList(list, Protocol.Apply(w, open, s)[n], q)
    ensures q == InGroup(s.group) ==> ShownIn(list, s.id, s.who, s.text, s.time)
    ensures q.Direct? || (q.InGroup? && q.group != s.group) ==> HiddenIn(list, s.id)
  {
    SentRow(open, w, s, n);
    RowShows(list, Protocol.Apply(w, open, s)[n], q, Protocol.Apply(w, open, s)[n][s.id]);
  }

  /** A direct message is in the two ends' history with each other, and in no group's. */
  lemma DirectSendShows(open: Opener, w: World, s: Protocol.Step, n: Id, q: Query, list: seq<Message>)
    requires Agreement.Inv(open, w) && Protocol.Enabled(w, open, s) && s.Send? && s.cipher.Some? && s.group == ""
    requires n == s.who || (n == s.to && Outcomes.Handles(w, s.who, s.to, s.call))
    requires n in Protocol.Apply(w, open, s) && HistoryList(list, Protocol.Apply(w, open, s)[n], q)
    ensures q == Direct(s.who, s.to) || q == Direct(s.to, s.who) ==> ShownIn(list, s.id, s.who, s.text, s.time)
    ensures q.InGroup? && q.group != "" ==> HiddenIn(list, s.id)
  {
    SentRow(open, w, s, n);
    RowShows(list, Protocol.Apply(w, open, s)[n], q, Protocol.Apply(w, open, s)[n][s.id]);
  }

  lemma SentRow(open: Opener, w: World, s: Protocol.Step, n: Id)
    requires Agreement.Inv(open, w) && Protocol.Enabled(w, open, s) && s.Send? && s.cipher.Some?
    requires n == s.who || (n == s.to && Outcomes.Handles(w, s.who, s.to, s.call))
    ensures
      var w' := Protocol.Apply(w, open, s);
      && n in w' && KeysMatch(w'[n]) && s.id in w'[n]
      && var m := w'[n][s.id];
         && m.id == s.id && m.sender == s.who && m.recipient == s.to && m.group == s.group
         && m.plaintext == s.text && m.timestamp == s.time && m.accepted != 3
  {
    hide Agreement.Inv, Protocol.Apply;
    Outcomes.SendStep(w, open, s);
    Agreement.InvKept(open, w, s);
    Agreement.InvKeysMatch(open, Protocol.Apply(w, open, s), n);
  }

  // ---------------------------------------------------------------- histories as multisets

  datatype Entry = Entry(id: Id, view: View)

  function Entries(list: seq<Message>): multiset<Entry>
    decreases |list|
  {
    if list == [] then multiset{}
    else Entries(Front(list)) + multiset{Entry(Last(list).id, ViewOf(Last(list)))}
  }

  lemma {:induction false} EntriesCount(list: seq<Message>, e: Entry)
    requires Distinct(list)
    ensures Entries(list)[e] == if exists m | m in list :: e == Entry(m.id, ViewOf(m)) then 1 else 0
    decreases |list|
  {
    if list != [] {
      var m, front := Last(list), Front(list);
      assert list == front + [m];
      EntriesCount(front, e);
      if e == Entry(m.id, ViewOf(m)) {
        assert forall x | x in front :: x.id != m.id;
      }
    }
  }

  /** An entry is a listed message's id, text, time and edit time. */
  lemma EntriesMean(list: seq<Message>, id: Id, text: Text, time: int, editedAt: int)
    requires Distinct(list)
    ensures Entry(id, View(text, time, editedAt)) in Entries(list) <==>
            exists m | m in list ::
              m.id == id && m.plaintext == text && m.timestamp == time && m.editedAt == editedAt
  {
    var e := Entry(id, View(text, time, editedAt));
    EntriesCount(list, e);
    assert forall m: Message :: e == Entry(m.id, ViewOf(m)) <==>
             m.id == id && m.plaintext == text && m.timestamp == time && m.editedAt == editedAt;
  }

  /** A direct history list shows what the history map says, each entry once. */
  lemma EntriesAre(list: seq<Message>, t: Table, a: Id, b: Id, e: Entry)
    requires HistoryList(list, t, Direct(a, b)) && KeysMatch(t)
    ensures Entries(list)[e] == if Get(History(t, a, b), e.id) == Some(e.view) then 1 else 0
  {
    EntriesCount(list, e);
    if Get(History(t, a, b), e.id) == Some(e.view) {
      assert t[e.id] in list;
    }
  }

  /** Two nodes whose histories agree show their users the same messages. The participants may
      be named in either order. */
  lemma SameEntries(list: seq<Message>, list': seq<Message>, t: Table, t': Table, a: Id, b: Id)
    requires HistoryList(list, t, Direct(a, b)) && HistoryList(list', t', Direct(b, a))
    requires KeysMatch(t) && KeysMatch(t') && History(t, a, b) == History(t', a, b)
    ensures Entries(list) == Entries(list')
  {
    assert History(t', a, b) == History(t', b, a);
    forall e ensures Entries(list)[e] == Entries(list')[e] {
      EntriesAre(list, t, a, b, e);
      EntriesAre(list', t', b, a, e);
    }
  }

  /** After one connected worker round on each of two nodes between which no retry has given up,
      their users look at the same messages. */
  lemma RoundsAgree(open: Opener, w: World, sa: Protocol.Step, sb: Protocol.Step, list: seq<Message>,
                    list': seq<Message>)
    requires Agreement.Inv(open, w) && sa.Worker? && sb.Worker? && sa.who != sb.who && sa.who in w && sb.who in w
    requires Protocol.Enabled(w, open, sa) && Protocol.Enabled(Protocol.Apply(w, open, sa), open, sb)
    requires Connected(w[sa.who], sa.who, sb.who, sa.calls) && Connected(w[sb.who], sb.who, sa.who, sb.calls)
    requires NoneFailed(w[sa.who], sa.who, sb.who) && NoneFailed(w[sb.who], sb.who, sa.who)
    requires
      var w' := Protocol.Apply(Protocol.Apply(w, open, sa), open, sb);
      HistoryList(list, w'[sa.who], Direct(sa.who, sb.who)) && HistoryList(list', w'[sb.who], Direct(sb.who, sa.who))
    ensures Entries(list) == Entries(list')
  {
    hide HistoryList, Protocol.Apply, Protocol.Enabled;
    var w1 := Protocol.Apply(w, open, sa);
    var w2 := Protocol.Apply(w1, open, sb);
    Converges(open, w, sa, sb);
    Agreement.InvKept(open, w, sa);
    Agreement.InvKept(open, w1, sb);
    Agreement.InvKeysMatch(open, w2, sa.who);
    Agreement.InvKeysMatch(open, w2, sb.who);
    SameEntries(list, list', w2[sa.who], w2[sb.who], sa.who, sb.who);
  }

  /** The same from any state a run of the protocol reaches. */
  lemma UsersAgree(open: Opener, start: World, run: seq<Protocol.Step>, sa: Protocol.Step, sb: Protocol.Step,
                   list: seq<Message>, list': seq<Message>)
    requires Runs.Fresh(start) && Runs.Possible(start, open, run) && sa.Worker? && sb.Worker? && sa.who != sb.who
    requires sa.who in start && sb.who in start
    requires
      var w := Runs.After(start, open, run);
      && Protocol.Enabled(w, open, sa) && Protocol.Enabled(Protocol.Apply(w, open, sa), open, sb)
      && Connected(w[sa.who], sa.who, sb.who, sa.calls) && Connected(w[sb.who], sb.who, sa.who, sb.calls)
      && NoneFailed(w[sa.who], sa.who, sb.who) && NoneFailed(w[sb.who], sb.who, sa.who)
    requires
      var w' := Protocol.Apply(Protocol.Apply(Runs.After(start, open, run), open, sa), open, sb);
      HistoryList(list, w'[sa.who], Direct(sa.who, sb.who)) && HistoryList(list', w'[sb.who], Direct(sb.who, sa.who))
    ensures Entries(list) == Entries(list')
  {
    hide HistoryList, Protocol.Apply, Protocol.Enabled;
    Runs.FreshInv(open, start);
    Runs.RunKeepsInv(start, open, run);
    RoundsAgree(open, Runs.After(start, open, run), sa, sb, list, list');
  }

  /** Whatever the interleaving, once a recipient has tombstoned a message no history and no
      preview of that node, direct or group, ever shows it again. */
  lemma TombstoneNeverShown(t: seq<Interleaving.Net>, steps: seq<Interleaving.Step>, open: Opener, i: nat, j: nat,
                            n: Id, id: Id, q: Query, list: seq<Message>, row: Option<Message>)
    requires Staleness.Trace(t, steps, open) && i <= j < |t|
    requires Interleaving.Holds(t[i].world, n, id)
    requires t[i].world[n][id].sender != n && t[i].world[n][id].accepted == DELETED
    requires n in t[j].world && HistoryList(list, t[j].world[n], q) && LatestRow(row, t[j].world[n], q)
    ensures forall m | m in list :: m.id != id
    ensures row.Some? ==> row.value.id != id
  {
    Staleness.TombstonesAbsorb(t, steps, open, i, j, n, id);
  }
}
