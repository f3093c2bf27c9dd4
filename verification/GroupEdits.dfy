/** Editing and deleting a group message. The routes call every member, but a message id has
    one row and so one recipient; the rest of the calls change nothing. */
module GroupEdits {
  import opened Common
  import opened Messages
  import opened Replication
  import opened Protocol
  import opened Agreement
  import opened GroupMessages

  function RouteOf(to: Addressee, call: Call): Call {
    if to.address == "" then Lost else call
  }

  /** update_message_edit_for: only the row addressed to this member. */
  function EditFor(w: World, a: Id, id: Id, to: Id, text: Text, cipher: string, time: int): World
    requires a in w
  {
    if id in w[a] && w[a][id].recipient == to
    then w[a := Put(w[a], id, Some(EditRow(w[a][id], text, cipher, time)))] else w
  }

  function EditTo(w: World, a: Id, open: Opener, id: Id, text: Text, time: int, to: Addressee, call: Call): (w': World)
    requires a in w
    ensures w'.Keys == w.Keys
  {
    if to.cipher.None? then w
    else Attempt(EditFor(w, a, id, to.id, text, to.cipher.value, time), a, open,
                 EditReq(id, a, to.id, to.cipher.value, time), Some(to.id), RouteOf(to, call)).world
  }

  /** The loop of the group edit route. */
  function GroupEdit(w: World, a: Id, open: Opener, id: Id, text: Text, time: int,
                     members: seq<Addressee>, calls: Id -> Call): (w': World)
    requires a in w
    ensures w'.Keys == w.Keys
    decreases |members|
  {
    if members == [] then w
    else
      var before, to := GroupEdit(w, a, open, id, text, time, Front(members), calls), Last(members);
      if to.id == a then before else EditTo(before, a, open, id, text, time, to, calls(to.id))
  }

  /** The loop of the group delete route, after the row has been marked. */
  function DeleteCalls(w: World, a: Id, open: Opener, id: Id, members: seq<Addressee>, calls: Id -> Call): (w': World)
    requires a in w
    ensures w'.Keys == w.Keys
    decreases |members|
  {
    if members == [] then w
    else
      var before, to := DeleteCalls(w, a, open, id, Front(members), calls), Last(members);
      if to.id == a then before
      else Attempt(before, a, open, DeleteReq(id, a, to.id), Some(to.id), RouteOf(to, calls(to.id))).world
  }

  function GroupDelete(w: World, a: Id, open: Opener, id: Id, time: int, members: seq<Addressee>, calls: Id -> Call)
    : World
    requires a in w && id in w[a]
  {
    DeleteCalls(w[a := Put(w[a], id, Some(DeleteRow(w[a][id], time)))], a, open, id, members, calls)
  }

  // ---------------------------------------------------------------- only one call matters

  predicate OnlyIds(members: seq<Addressee>) {
    forall i, j | 0 <= i < j < |members| :: members[i].id != members[j].id
  }

  /** The member the message was addressed to, if still listed. */
  function Find(members: seq<Addressee>, b: Id): Option<Addressee>
    decreases |members|
  {
    if members == [] then None
    else if Last(members).id == b then Some(Last(members)) else Find(Front(members), b)
  }

  /** a wrote the message to b, and nobody else has a row for it. */
  predicate Between(w: World, a: Id, b: Id, id: Id) {
    && a in w && id in w[a] && w[a][id].sender == a && w[a][id].recipient == b && a != b
    && forall n | n in w && n != a && n != b :: id !in w[n]
  }

  lemma BetweenFromInv(open: Opener, w: World, a: Id, id: Id)
    requires Inv(open, w) && a in w && id in w[a] && w[a][id].sender == a && w[a][id].recipient != a
    ensures Between(w, a, w[a][id].recipient, id)
  {
    var sl := SliceOf(w, id);
    assert SliceInv(open, sl, id) && Own(sl, a);
    forall n | n in w && n != a && n != w[a][id].recipient ensures id !in w[n] {
      if id in w[n] { OnlyPair(open, sl, a, n, id); }
    }
  }

  /** A call about the message to anybody but its recipient changes no table. */
  lemma BystanderCall(w: World, a: Id, b: Id, open: Opener, req: Request, id: Id, call: Call)
    requires Between(w, a, b, id) && !req.MessageReq? && req.id == id && req.sender == a && req.recipient != b
    ensures Attempt(w, a, open, req, Some(req.recipient), call).world == w
  {
    var n := req.recipient;
    if Reaches(w.Keys, a, req, call) {
      assert Put(w[n], id, None) == w[n];
      assert w[n := w[n]] == w;
      assert Post(w, a, open, req, call).world == w;
    }
    assert Mark(w[a], id, Some(n), AckFlag(req)) == w[a];
    assert w[a := w[a]] == w;
  }

  /** The call to the recipient touches only the two ends. */
  lemma RecipientCall(w: World, a: Id, b: Id, open: Opener, req: Request, id: Id, call: Call)
    requires Between(w, a, b, id) && !req.MessageReq? && req.id == id && req.sender == a && req.recipient == b
    ensures Between(Attempt(w, a, open, req, Some(b), call).world, a, b, id)
    ensures Attempt(w, a, open, req, Some(b), call) == Attempt(w, a, open, req, None, call)
  {
  }

  lemma {:induction false} EditLoop(w: World, a: Id, b: Id, open: Opener, id: Id, text: Text, time: int,
                                    members: seq<Addressee>, calls: Id -> Call)
    requires Between(w, a, b, id) && OnlyIds(members)
    ensures
      var to := Find(members, b);
      var w' := GroupEdit(w, a, open, id, text, time, members, calls);
      && Between(w', a, b, id)
      && w' == if to.None? then w else EditTo(w, a, open, id, text, time, to.value, calls(b))
    decreases |members|
  {
    if members != [] {
      var front, to := Front(members), Last(members);
      EditLoop(w, a, b, open, id, text, time, front, calls);
      FindOnly(members, b);
      var w1 := GroupEdit(w, a, open, id, text, time, front, calls);
      if to.id != a && to.cipher.Some? {
        var req := EditReq(id, a, to.id, to.cipher.value, time);
        if to.id == b {
          RecipientCall(EditFor(w1, a, id, b, text, to.cipher.value, time), a, b, open, req, id, RouteOf(to, calls(b)));
        } else {
          BystanderCall(w1, a, b, open, req, id, RouteOf(to, calls(to.id)));
        }
      }
    }
  }

  lemma {:induction false} FindOnly(members: seq<Addressee>, b: Id)
    requires OnlyIds(members)
    ensures Find(members, b).Some? ==> Find(members, b).value in members && Find(members, b).value.id == b
    ensures members != [] ==> OnlyIds(Front(members)) && (Last(members).id == b ==> Find(Front(members), b).None?)
    decreases |members|
  {
    if members != [] {
      FindOnly(Front(members), b);
    }
  }

  lemma {:induction false} DeleteLoop(w: World, a: Id, b: Id, open: Opener, id: Id, members: seq<Addressee>,
                                      calls: Id -> Call)
    requires Between(w, a, b, id) && OnlyIds(members)
    ensures
      var to := Find(members, b);
      var w' := DeleteCalls(w, a, open, id, members, calls);
      && Between(w', a, b, id)
      && w' == if to.None? then w
               else Attempt(w, a, open, DeleteReq(id, a, b), Some(b), RouteOf(to.value, calls(b))).world
    decreases |members|
  {
    if members != [] {
      var front, to := Front(members), Last(members);
      DeleteLoop(w, a, b, open, id, front, calls);
      FindOnly(members, b);
      var w1 := DeleteCalls(w, a, open, id, front, calls);
      if to.id != a {
        var req := DeleteReq(id, a, to.id);
        if to.id == b {
          RecipientCall(w1, a, b, open, req, id, RouteOf(to, calls(b)));
        } else {
          BystanderCall(w1, a, b, open, req, id, RouteOf(to, calls(to.id)));
        }
      }
    }
  }

  // ---------------------------------------------------------------- the routes are steps of the protocol

  /** Editing a group message is the edit step for its one recipient, or nothing at all when that
      recipient has left the group or cannot be encrypted to. */
  lemma GroupEditIsEdit(open: Opener, w: World, a: Id, id: Id, text: Text, time: int,
                        members: seq<Addressee>, calls: Id -> Call)
    requires Inv(open, w) && a in w && id in w[a] && w[a][id].sender == a && w[a][id].recipient != a
    requires OnlyIds(members)
    ensures
      var to := Find(members, w[a][id].recipient);
      GroupEdit(w, a, open, id, text, time, members, calls)
        == if to.None? then w
           else Apply(w, open, Edit(a, id, text, to.value.cipher, time, RouteOf(to.value, calls(to.value.id))))
  {
    var b := w[a][id].recipient;
    BetweenFromInv(open, w, a, id);
    EditLoop(w, a, b, open, id, text, time, members, calls);
    FindOnly(members, b);
    var to := Find(members, b);
    if to.Some? && to.value.cipher.Some? {
      var cipher := to.value.cipher.value;
      RecipientCall(EditFor(w, a, id, b, text, cipher, time), a, b, open, EditReq(id, a, b, cipher, time), id,
                    RouteOf(to.value, calls(b)));
    }
  }

  /** Deleting one is the delete step, its call lost when the recipient has left the group. */
  lemma GroupDeleteIsDelete(open: Opener, w: World, a: Id, id: Id, time: int, members: seq<Addressee>,
                            calls: Id -> Call)
    requires Inv(open, w) && a in w && id in w[a] && w[a][id].sender == a && w[a][id].recipient != a
    requires OnlyIds(members)
    ensures
      var to := Find(members, w[a][id].recipient);
      GroupDelete(w, a, open, id, time, members, calls)
        == Apply(w, open, Delete(a, id, time, if to.None? then Lost else RouteOf(to.value, calls(to.value.id))))
  {
    var b := w[a][id].recipient;
    BetweenFromInv(open, w, a, id);
    var w1 := w[a := Put(w[a], id, Some(DeleteRow(w[a][id], time)))];
    DeleteLoop(w1, a, b, open, id, members, calls);
    FindOnly(members, b);
    var to := Find(members, b);
    RecipientCall(w1, a, b, open, DeleteReq(id, a, b), id, if to.None? then Lost else RouteOf(to.value, calls(b)));
  }
}
