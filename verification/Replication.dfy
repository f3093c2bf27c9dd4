/** Direct-message replication, one handler run or worker round per step.

    The network is one messages table per node. Everything the protocol does to one
    message id depends only on the rows with that id, so each step is also described
    on a "slice": the rows of one id at every node. Invariants are stated on slices. */
module Replication {
  import opened Common
  import opened Messages

  type World = map<Id, Table>
  type Slice = map<Id, Option<Message>>
  type Schedule = (Op, Id) -> Call

  function SliceOf(w: World, id: Id): Slice {
    map n | n in w :: Get(w[n], id)
  }

  // ---------------------------------------------------------------- a POST and its acknowledgement

  datatype Sent = Sent(world: World, ok: bool)
  datatype SentSlice = SentSlice(slice: Slice, ok: bool)

  predicate Reaches(nodes: set<Id>, a: Id, req: Request, call: Call) {
    !call.Lost? && req.recipient in nodes && req.recipient != a
  }

  /** send_message: the peer's handler runs unless the call is lost, and ok means "200 came back". */
  function Post(w: World, a: Id, open: Opener, req: Request, call: Call): Sent {
    if !Reaches(w.Keys, a, req, call) then Sent(w, false)
    else
      var rep := Handle(req.recipient, w[req.recipient], open, req);
      Sent(w[req.recipient := rep.table], call.Answered? && rep.code == 200)
  }

  /** Post, then flip the matching flag on 200. */
  function Attempt(w: World, a: Id, open: Opener, req: Request, to: Option<Id>, call: Call): Sent
    requires a in w
  {
    var s := Post(w, a, open, req, call);
    if s.ok then Sent(s.world[a := Mark(s.world[a], req.id, to, AckFlag(req))], true) else s
  }

  function Retry(w: World, a: Id, open: Opener, op: Op, m: Message, now: int, call: Call): World
    requires a in w
  {
    var s := Attempt(w, a, open, RequestOf(op, m), Some(m.recipient), call);
    if !s.ok && Expired(op, m, now) then s.world[a := Mark(s.world[a], m.id, None, FailFlag(op))]
    else s.world
  }

  /** One of the worker's loops over a list taken earlier. */
  function RetryAll(w: World, a: Id, open: Opener, op: Op, list: seq<Message>, now: int, calls: Schedule): (w': World)
    requires a in w
    ensures w'.Keys == w.Keys
    decreases |list|
  {
    if list == [] then w
    else
      var m := Last(list);
      Retry(RetryAll(w, a, open, op, Front(list), now, calls), a, open, op, m, now, calls(op, m.id))
  }

  /** A query result: every matching row exactly once, in whatever order. */
  ghost predicate Listing(list: seq<Message>, t: Table, op: Op) {
    && Distinct(list)
    && (forall m | m in list :: m.id in t && t[m.id] == m && IsPending(op, m))
    && (forall id | id in t && IsPending(op, t[id]) :: t[id] in list)
  }

  predicate Distinct(list: seq<Message>) {
    forall i, j | 0 <= i < j < |list| :: list[i].id != list[j].id
  }

  function Round(w: World, a: Id, open: Opener, now: int, calls: Schedule,
                 messages: seq<Message>, edits: seq<Message>, deletes: seq<Message>): (w': World)
    requires a in w
    ensures w'.Keys == w.Keys
  {
    var w1 := RetryAll(w, a, open, Op.Messages, messages, now, calls);
    var w2 := RetryAll(w1, a, open, Edits, edits, now, calls);
    RetryAll(w2, a, open, Deletes, deletes, now, calls)
  }

  // ---------------------------------------------------------------- the same on one slice

  function PostSlice(sl: Slice, a: Id, open: Opener, req: Request, call: Call): SentSlice {
    if !Reaches(sl.Keys, a, req, call) then SentSlice(sl, false)
    else
      var rep := HandleRow(req.recipient, sl[req.recipient], open, req);
      SentSlice(sl[req.recipient := rep.row], call.Answered? && rep.code == 200)
  }

  function AttemptSlice(sl: Slice, a: Id, open: Opener, req: Request, to: Option<Id>, call: Call): SentSlice
    requires a in sl
  {
    var s := PostSlice(sl, a, open, req, call);
    if s.ok then SentSlice(s.slice[a := MarkRow(s.slice[a], to, AckFlag(req))], true) else s
  }

  function RetrySlice(sl: Slice, a: Id, open: Opener, op: Op, m: Message, now: int, call: Call): Slice
    requires a in sl
  {
    var s := AttemptSlice(sl, a, open, RequestOf(op, m), Some(m.recipient), call);
    if !s.ok && Expired(op, m, now) then s.slice[a := MarkRow(s.slice[a], None, FailFlag(op))] else s.slice
  }

  function RetryPending(sl: Slice, a: Id, open: Opener, op: Op, m: Message, now: int, calls: Schedule): (sl': Slice)
    requires a in sl
    ensures sl'.Keys == sl.Keys
  {
    if IsPending(op, m) then RetrySlice(sl, a, open, op, m, now, calls(op, m.id)) else sl
  }

  /** A whole round as it acts on one id: messages, then edits, then deletes, each decided
      by the row as it was when the round began. */
  function RoundSlice(sl: Slice, a: Id, open: Opener, now: int, calls: Schedule): (sl': Slice)
    requires a in sl
    ensures sl'.Keys == sl.Keys
  {
    if sl[a].None? then sl
    else
      var m := sl[a].value;
      var s1 := RetryPending(sl, a, open, Op.Messages, m, now, calls);
      var s2 := RetryPending(s1, a, open, Edits, m, now, calls);
      RetryPending(s2, a, open, Deletes, m, now, calls)
  }

  lemma PutSlice(w: World, n: Id, id: Id, row: Option<Message>, k: Id)
    requires n in w
    requires row.None? ==> id !in w[n]
    ensures SliceOf(w[n := Put(w[n], id, row)], k) ==
            if k == id then SliceOf(w, k)[n := row] else SliceOf(w, k)
  {
  }

  lemma AttemptSlices(w: World, a: Id, open: Opener, req: Request, to: Option<Id>, call: Call, k: Id)
    requires a in w
    ensures
      var s := Attempt(w, a, open, req, to, call);
      var t := AttemptSlice(SliceOf(w, req.id), a, open, req, to, call);
      && s.ok == t.ok
      && SliceOf(s.world, k) == if k == req.id then t.slice else SliceOf(w, k)
  {
    if Reaches(w.Keys, a, req, call) {
      var b := req.recipient;
      var rep := HandleRow(b, Get(w[b], req.id), open, req);
      PutSlice(w, b, req.id, rep.row, k);
      PutSlice(w, b, req.id, rep.row, req.id);
      var w1 := Post(w, a, open, req, call).world;
      PutSlice(w1, a, req.id, MarkRow(Get(w1[a], req.id), to, AckFlag(req)), k);
    }
  }

  lemma RetrySlices(w: World, a: Id, open: Opener, op: Op, m: Message, now: int, call: Call, k: Id)
    requires a in w
    ensures SliceOf(Retry(w, a, open, op, m, now, call), k) ==
            if k == m.id then RetrySlice(SliceOf(w, k), a, open, op, m, now, call) else SliceOf(w, k)
  {
    var req := RequestOf(op, m);
    AttemptSlices(w, a, open, req, Some(m.recipient), call, k);
    AttemptSlices(w, a, open, req, Some(m.recipient), call, m.id);
    var w1 := Attempt(w, a, open, req, Some(m.recipient), call).world;
    PutSlice(w1, a, m.id, MarkRow(Get(w1[a], m.id), None, FailFlag(op)), k);
  }

  /** A loop over a duplicate-free list acts on each id by that id's own entry alone, so the
      order in which the query returned the rows does not matter. */
  lemma {:induction false} RetryAllSlices(w: World, a: Id, open: Opener, op: Op, list: seq<Message>, now: int,
                                          calls: Schedule, k: Id)
    requires a in w && Distinct(list)
    ensures (forall m | m in list :: m.id != k) ==>
      SliceOf(RetryAll(w, a, open, op, list, now, calls), k) == SliceOf(w, k)
    ensures forall m | m in list && m.id == k ::
      SliceOf(RetryAll(w, a, open, op, list, now, calls), k)
        == RetrySlice(SliceOf(w, k), a, open, op, m, now, calls(op, k))
    decreases |list|
  {
    if list != [] {
      var m, front := Last(list), Front(list);
      assert forall i | 0 <= i < |front| :: front[i] == list[i];
      RetryAllSlices(w, a, open, op, front, now, calls, k);
      RetrySlices(RetryAll(w, a, open, op, front, now, calls), a, open, op, m, now, calls(op, m.id), k);
      assert m in list;
      assert forall x | x in front :: x in list && x.id != m.id;
      assert forall x | x in list :: x in front || x == m;
    }
  }

  ghost predicate KeysMatch(t: Table) {
    forall id | id in t :: t[id].id == id
  }

  lemma PendingSlices(w0: World, w: World, a: Id, open: Opener, op: Op, list: seq<Message>, now: int,
                      calls: Schedule, k: Id)
    requires a in w && a in w0 && Listing(list, w0[a], op) && KeysMatch(w0[a])
    ensures SliceOf(RetryAll(w, a, open, op, list, now, calls), k) ==
            if k in w0[a] then RetryPending(SliceOf(w, k), a, open, op, w0[a][k], now, calls) else SliceOf(w, k)
  {
    RetryAllSlices(w, a, open, op, list, now, calls, k);
    if k in w0[a] && IsPending(op, w0[a][k]) {
      assert w0[a][k] in list;
    } else {
      forall m | m in list ensures m.id != k {}
    }
  }

  /** The worker's loops, over whatever lists the queries returned, do to every id what
      RoundSlice does to it. */
  lemma RoundSlices(w: World, a: Id, open: Opener, now: int, calls: Schedule,
                    messages: seq<Message>, edits: seq<Message>, deletes: seq<Message>, k: Id)
    requires a in w && KeysMatch(w[a])
    requires Listing(messages, w[a], Op.Messages) && Listing(edits, w[a], Edits) && Listing(deletes, w[a], Deletes)
    ensures SliceOf(Round(w, a, open, now, calls, messages, edits, deletes), k)
         == RoundSlice(SliceOf(w, k), a, open, now, calls)
  {
    var w1 := RetryAll(w, a, open, Op.Messages, messages, now, calls);
    var w2 := RetryAll(w1, a, open, Edits, edits, now, calls);
    PendingSlices(w, w, a, open, Op.Messages, messages, now, calls, k);
    PendingSlices(w, w1, a, open, Edits, edits, now, calls, k);
    PendingSlices(w, w2, a, open, Deletes, deletes, now, calls, k);
  }
}
