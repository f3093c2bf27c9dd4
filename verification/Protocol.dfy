/** The steps of the direct-message protocol: the send, edit and delete routes, each with
    its nested POST, and one round of a node's retry worker. */
module Protocol {
  import opened Common
  import opened Messages
  import opened Replication

  datatype Step =
    | Send(who: Id, id: Id, to: Id, group: Id, text: Text, cipher: Option<string>, time: int, call: Call)
    | Edit(who: Id, id: Id, text: Text, cipher: Option<string>, time: int, call: Call)
    | Delete(who: Id, id: Id, time: int, call: Call)
    | Worker(who: Id, now: int, calls: Schedule,
             messages: seq<Message>, edits: seq<Message>, deletes: seq<Message>)

  /** deliver_message: the row is inserted as pending, then posted. */
  function SendMessage(w: World, a: Id, open: Opener, m: Message, call: Call): (s: Sent)
    requires a in w
    ensures s.world.Keys == w.Keys
  {
    if m.id in w[a] then Sent(w, false)
    else Attempt(w[a := Put(w[a], m.id, Some(m))], a, open, RequestOf(Op.Messages, m), Some(m.recipient), call)
  }

  /** The edit_message route: only the author's own row, and only if encryption worked. */
  function EditMessage(w: World, a: Id, open: Opener, id: Id, text: Text, cipher: Option<string>,
                       time: int, call: Call): (w': World)
    requires a in w
    ensures w'.Keys == w.Keys
  {
    if id !in w[a] || w[a][id].sender != a || cipher.None? then w
    else
      var m := EditRow(w[a][id], text, cipher.value, time);
      Attempt(w[a := Put(w[a], id, Some(m))], a, open,
              EditReq(id, a, m.recipient, cipher.value, time), None, call).world
  }

  /** The delete_message route. */
  function DeleteMessage(w: World, a: Id, open: Opener, id: Id, time: int, call: Call): (w': World)
    requires a in w
    ensures w'.Keys == w.Keys
  {
    if id !in w[a] || w[a][id].sender != a then w
    else
      var m := DeleteRow(w[a][id], time);
      Attempt(w[a := Put(w[a], id, Some(m))], a, open, DeleteReq(id, a, m.recipient), None, call).world
  }

  function Apply(w: World, open: Opener, s: Step): (w': World)
    requires s.who in w
    ensures w'.Keys == w.Keys
  {
    match s
    case Send(a, id, to, group, text, cipher, time, call) =>
      if cipher.None? then w
      else SendMessage(w, a, open, NewMessage(id, a, to, group, text, cipher.value, PENDING, time), call).world
    case Edit(a, id, text, cipher, time, call) => EditMessage(w, a, open, id, text, cipher, time, call)
    case Delete(a, id, time, call) => DeleteMessage(w, a, open, id, time, call)
    case Worker(a, now, calls, messages, edits, deletes) =>
      Round(w, a, open, now, calls, messages, edits, deletes)
  }

  /** What the environment owes a step: a new UUID is fresh everywhere, encryption produced
      something its reader can open, the clock is positive, and the worker's lists are the
      results of its queries. */
  ghost predicate Enabled(w: World, open: Opener, s: Step) {
    && s.who in w
    && match s
       case Send(a, id, to, group, text, cipher, time, call) =>
         && (forall n | n in w :: id !in w[n])
         && (cipher.Some? ==> open(cipher.value, a, to) == Some(text))
       case Edit(a, id, text, cipher, time, call) =>
         && time > 0
         && (id in w[a] && cipher.Some? ==> open(cipher.value, a, w[a][id].recipient) == Some(text))
       case Delete(a, id, time, call) => time > 0
       case Worker(a, now, calls, messages, edits, deletes) =>
         && Listing(messages, w[a], Op.Messages)
         && Listing(edits, w[a], Edits)
         && Listing(deletes, w[a], Deletes)
  }

  // ---------------------------------------------------------------- steps on one slice

  function SendSlice(sl: Slice, a: Id, open: Opener, m: Message, call: Call): Slice
    requires a in sl
  {
    if sl[a].Some? then sl
    else AttemptSlice(sl[a := Some(m)], a, open, RequestOf(Op.Messages, m), Some(m.recipient), call).slice
  }

  function EditSlice(sl: Slice, a: Id, open: Opener, text: Text, cipher: Option<string>, time: int, call: Call,
                     id: Id): Slice
    requires a in sl
  {
    if sl[a].None? || sl[a].value.sender != a || cipher.None? then sl
    else
      var m := EditRow(sl[a].value, text, cipher.value, time);
      AttemptSlice(sl[a := Some(m)], a, open, EditReq(id, a, m.recipient, cipher.value, time), None, call).slice
  }

  function DeleteSlice(sl: Slice, a: Id, open: Opener, time: int, call: Call, id: Id): Slice
    requires a in sl
  {
    if sl[a].None? || sl[a].value.sender != a then sl
    else
      var m := DeleteRow(sl[a].value, time);
      AttemptSlice(sl[a := Some(m)], a, open, DeleteReq(id, a, m.recipient), None, call).slice
  }

  function ApplySlice(sl: Slice, open: Opener, s: Step, k: Id): Slice
    requires s.who in sl
  {
    match s
    case Send(a, id, to, group, text, cipher, time, call) =>
      if cipher.None? || k != id then sl
      else SendSlice(sl, a, open, NewMessage(id, a, to, group, text, cipher.value, PENDING, time), call)
    case Edit(a, id, text, cipher, time, call) =>
      if k != id then sl else EditSlice(sl, a, open, text, cipher, time, call, id)
    case Delete(a, id, time, call) =>
      if k != id then sl else DeleteSlice(sl, a, open, time, call, id)
    case Worker(a, now, calls, _, _, _) => RoundSlice(sl, a, open, now, calls)
  }

  /** Each step moves the rows of different ids independently. */
  lemma ApplySlices(w: World, open: Opener, s: Step, k: Id)
    requires Enabled(w, open, s) && KeysMatch(w[s.who])
    ensures SliceOf(Apply(w, open, s), k) == ApplySlice(SliceOf(w, k), open, s, k)
  {
    match s
    case Send(a, id, to, group, text, cipher, time, call) =>
      if cipher.Some? {
        var m := NewMessage(id, a, to, group, text, cipher.value, PENDING, time);
        PutSlice(w, a, id, Some(m), k);
        PutSlice(w, a, id, Some(m), id);
        AttemptSlices(w[a := Put(w[a], id, Some(m))], a, open, RequestOf(Op.Messages, m), Some(to), call, k);
      }
    case Edit(a, id, text, cipher, time, call) =>
      if id in w[a] && w[a][id].sender == a && cipher.Some? {
        var m := EditRow(w[a][id], text, cipher.value, time);
        PutSlice(w, a, id, Some(m), k);
        PutSlice(w, a, id, Some(m), id);
        AttemptSlices(w[a := Put(w[a], id, Some(m))], a, open,
                      EditReq(id, a, m.recipient, cipher.value, time), None, call, k);
      }
    case Delete(a, id, time, call) =>
      if id in w[a] && w[a][id].sender == a {
        var m := DeleteRow(w[a][id], time);
        PutSlice(w, a, id, Some(m), k);
        PutSlice(w, a, id, Some(m), id);
        AttemptSlices(w[a := Put(w[a], id, Some(m))], a, open, DeleteReq(id, a, m.recipient), None, call, k);
      }
    case Worker(a, now, calls, messages, edits, deletes) =>
      RoundSlices(w, a, open, now, calls, messages, edits, deletes, k);
  }
}
