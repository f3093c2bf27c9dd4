/** Requests that overtake each other: exactly when a handled delete leaves the message gone, when a
    handled edit leaves two nodes agreeing, and when a sender's own tombstone survives. */
module Overtaking {
  import opened Common
  import opened Messages
  import opened Interleaving
  import opened Staleness

  // ---------------------------------------------------------------- what one step does to a row

  lemma AuthoredStays(f: Net, open: Opener, s: Step, a: Id, id: Id)
    requires Inv(f, open) && Enabled(f, open, s) && Authored(f, a, id)
    ensures Authored(Apply(f, open, s), a, id)
    ensures Apply(f, open, s).world[a][id].recipient == f.world[a][id].recipient
  {
    if !s.Insert? { KeepsEnds(f, open, s, a, id); }
  }

  /** A message somebody else wrote arrives at n exactly when n handles it. */
  lemma ArrivesIff(f: Net, open: Opener, s: Step, a: Id, n: Id, id: Id)
    requires Inv(f, open) && Enabled(f, open, s) && Authored(f, a, id) && a != n && !Holds(f.world, n, id)
    ensures
      var f' := Apply(f, open, s);
      && (Holds(f'.world, n, id) <==> HandsMessage(s, n, id))
      && (Holds(f'.world, n, id) ==> Received(f', n, id) && f'.world[n][id].accepted == DELIVERED)
  {
    if s.Deliver? { Source(f, open, s.req); }
  }

  /** Besides its author only its recipient can hold a message. */
  lemma OnlyRecipient(f: Net, open: Opener, a: Id, n: Id, id: Id)
    requires Inv(f, open) && Authored(f, a, id) && Holds(f.world, n, id) && n != a
    ensures f.world[a][id].recipient == n
  {
    assert RowGood(f, a, id) && RowGood(f, n, id);
    var own, m := VersionOf(f.world[a][id]), f.world[n][id];
    if m.sender == n {
      OneAuthor(f, open, a, n, id);
    } else {
      var v :| v in f.versions && v.id == m.id && v.sender == m.sender && v.recipient == m.recipient
               && v.plaintext == m.plaintext && (m.editedAt != 0 ==> v.editedAt == m.editedAt);
      assert v.id == own.id && own in f.versions;
    }
  }

  /** The group routes also post an edit or a delete to members it was not addressed to. Whenever
      such a request is handled, and whenever its answer is applied, no table changes. */
  lemma StrayRequest(f: Net, open: Opener, req: Request, a: Id)
    requires Inv(f, open) && !req.MessageReq? && req.sender == a && Authored(f, a, req.id)
    requires req.recipient in f.world && req.recipient != a && req.recipient != f.world[a][req.id].recipient
    ensures Handle(req.recipient, f.world[req.recipient], open, req).table == f.world[req.recipient]
    ensures Mark(f.world[a], req.id, Some(req.recipient), AckFlag(req)) == f.world[a]
  {
    var n, id := req.recipient, req.id;
    assert Put(f.world[n], id, None) == f.world[n];
    if Holds(f.world, n, id) { OnlyRecipient(f, open, a, n, id); }
  }

  // ---------------------------------------------------------------- deletes

  /** Handling a delete leaves a tombstone exactly if the message had arrived. */
  lemma DeleteTakesIff(f: Net, open: Opener, req: Request)
    requires Inv(f, open) && Enabled(f, open, Deliver(req)) && req.DeleteReq?
    ensures
      var w' := Apply(f, open, Deliver(req)).world;
      Holds(w', req.recipient, req.id) && w'[req.recipient][req.id].accepted == DELETED
      <==> Holds(f.world, req.recipient, req.id)
  {
    Source(f, open, req);
    if Holds(f.world, req.recipient, req.id) {
      ReceivedExactly(f, open, Deliver(req), req.recipient, req.id);
    } else {
      ArrivesIff(f, open, Deliver(req), req.sender, req.recipient, req.id);
    }
  }

  /** After a delete that found nothing, and until the next, the message is there exactly if it
      was handled in between. */
  lemma {:induction false} AfterEarlyDelete(t: seq<Net>, steps: seq<Step>, open: Opener, i: nat, j: nat, n: Id, id: Id)
    requires Trace(t, steps, open) && i < j < |t| && HandsDelete(steps[i], n, id) && !Holds(t[i].world, n, id)
    requires forall k | i < k < j :: !HandsDelete(steps[k], n, id)
    ensures Authored(t[j], steps[i].req.sender, id)
    ensures Holds(t[j].world, n, id) <==> exists k | i < k < j :: HandsMessage(steps[k], n, id)
    ensures Holds(t[j].world, n, id) ==> Received(t[j], n, id) && t[j].world[n][id].accepted == DELIVERED
  {
    hide Apply, Enabled, Inv, Trace;
    TraceStart(t, steps, open);
    TraceStep(t, steps, open, j - 1);
    TraceStep(t, steps, open, i);
    var a := steps[i].req.sender;
    if i == j - 1 {
      EarlyDelete(t[i], open, steps[i], n, id);
    } else {
      AfterEarlyDelete(t, steps, open, i, j - 1, n, id);
      AuthoredStays(t[j - 1], open, steps[j - 1], a, id);
      NotToOneself(t[i], open, steps[i]);
      if Holds(t[j - 1].world, n, id) {
        ReceivedExactly(t[j - 1], open, steps[j - 1], n, id);
      } else {
        ArrivesIff(t[j - 1], open, steps[j - 1], a, n, id);
      }
    }
  }

  lemma NotToOneself(f: Net, open: Opener, s: Step)
    requires Enabled(f, open, s) && s.Deliver?
    ensures s.req.sender != s.req.recipient
  {
  }

  lemma EarlyDelete(f: Net, open: Opener, s: Step, n: Id, id: Id)
    requires Inv(f, open) && Enabled(f, open, s) && HandsDelete(s, n, id) && !Holds(f.world, n, id)
    ensures Authored(Apply(f, open, s), s.req.sender, id) && !Holds(Apply(f, open, s).world, n, id)
  {
    Source(f, open, s.req);
    AuthoredStays(f, open, s, s.req.sender, id);
    ArrivesIff(f, open, s, s.req.sender, n, id);
  }

  /** The recipient shows a message after the last delete it handled exactly if that delete came
      before the message and the message came after: the handler answers 200 to a delete of an
      unknown id and keeps no trace of it. */
  lemma DeleteFinalIff(t: seq<Net>, steps: seq<Step>, open: Opener, i: nat, j: nat, n: Id, id: Id)
    requires Trace(t, steps, open) && i < j < |t| && HandsDelete(steps[i], n, id)
    requires forall k | i < k < j :: !HandsDelete(steps[k], n, id)
    ensures Holds(t[j].world, n, id) && t[j].world[n][id].accepted != DELETED <==>
            !Holds(t[i].world, n, id) && exists k | i < k < j :: HandsMessage(steps[k], n, id)
  {
    TraceInv(t, steps, open, i);
    if Holds(t[i].world, n, id) {
      Source(t[i], open, steps[i].req);
      ReceivedExactly(t[i], open, steps[i], n, id);
      TombstonesAbsorb(t, steps, open, i + 1, j, n, id);
    } else {
      AfterEarlyDelete(t, steps, open, i, j, n, id);
    }
  }

  // ---------------------------------------------------------------- edits

  /** The copy carries the last edit handled, whichever was made last. */
  lemma {:induction false} LastEditStays(t: seq<Net>, steps: seq<Step>, open: Opener, i: nat, j: nat, n: Id, id: Id)
    requires Trace(t, steps, open) && i < j < |t| && HandsEdit(steps[i], n, id) && Holds(t[i].world, n, id)
    requires forall k | i < k < j :: !HandsEdit(steps[k], n, id)
    ensures Received(t[j], n, id) && t[j].world[n][id].sender == steps[i].req.sender
    ensures t[j].world[n][id].editedAt == steps[i].req.editedAt
    ensures Some(t[j].world[n][id].plaintext) == open(steps[i].req.ciphertext, steps[i].req.sender, n)
  {
    hide Apply, Enabled, Inv, Trace;
    TraceStart(t, steps, open);
    TraceStep(t, steps, open, j - 1);
    if i == j - 1 {
      assert steps[i] == Deliver(steps[i].req);
      Source(t[i], open, steps[i].req);
    } else {
      LastEditStays(t, steps, open, i, j - 1, n, id);
    }
    ReceivedExactly(t[j - 1], open, steps[j - 1], n, id);
  }

  lemma BecomesReceived(f: Net, open: Opener, s: Step, n: Id, id: Id)
    requires Inv(f, open) && Enabled(f, open, s) && !Received(f, n, id) && Received(Apply(f, open, s), n, id)
    ensures Apply(f, open, s).world[n][id].editedAt == 0
  {
    if Holds(f.world, n, id) {
      AuthoredStays(f, open, s, n, id);
    }
  }

  /** Until its first edit every version of a message has the text of its row. */
  ghost predicate Unedited(f: Net) {
    forall v | v in f.versions && Holds(f.world, v.sender, v.id) && f.world[v.sender][v.id].editedAt == 0 ::
      v.plaintext == f.world[v.sender][v.id].plaintext
  }

  lemma UneditedKept(f: Net, open: Opener, s: Step)
    requires Inv(f, open) && Unedited(f) && Enabled(f, open, s)
    ensures Unedited(Apply(f, open, s))
  {
    var f' := Apply(f, open, s);
    forall v | v in f'.versions && Holds(f'.world, v.sender, v.id) && f'.world[v.sender][v.id].editedAt == 0
      ensures v.plaintext == f'.world[v.sender][v.id].plaintext
    {
      if v in f.versions {
        assert VersionGood(f, open, v);
        AuthorText(f, open, s, v.sender, v.id);
      } else {
        NewVersion(f, open, s, v);
      }
    }
  }

  /** Only an edit changes the text or edit time of an author's row. */
  lemma AuthorText(f: Net, open: Opener, s: Step, a: Id, id: Id)
    requires Inv(f, open) && Enabled(f, open, s) && Authored(f, a, id)
    ensures
      var m, m' := f.world[a][id], Apply(f, open, s).world[a][id];
      m'.editedAt != 0 || (m'.plaintext == m.plaintext && m'.editedAt == m.editedAt)
  {
    hide Inv;
    if s.Deliver? {
      NotHandled(f, open, s.req, a, id);
    }
  }

  lemma NewVersion(f: Net, open: Opener, s: Step, v: Version)
    requires Inv(f, open) && Enabled(f, open, s) && v in Apply(f, open, s).versions && v !in f.versions
    ensures
      var w' := Apply(f, open, s).world;
      Holds(w', v.sender, v.id) && w'[v.sender][v.id].plaintext == v.plaintext
  {
    if s.Edit? || s.Pend? {
      assert RowGood(f, s.who, s.id);
    }
  }

  lemma {:induction false} UneditedAlways(t: seq<Net>, steps: seq<Step>, open: Opener, j: nat)
    requires Trace(t, steps, open) && j < |t|
    ensures Unedited(t[j])
  {
    hide Apply, Enabled, Inv, Trace;
    TraceStart(t, steps, open);
    if j > 0 {
      UneditedAlways(t, steps, open, j - 1);
      TraceStep(t, steps, open, j - 1);
      UneditedKept(t[j - 1], open, steps[j - 1]);
    }
  }

  /** The last edit that found the message at n among the first j steps. */
  function LastEdit(t: seq<Net>, steps: seq<Step>, n: Id, id: Id, j: nat): (r: Option<Request>)
    requires j <= |steps| < |t|
    ensures r.Some? ==> r.value.EditReq?
  {
    if j == 0 then None
    else if HandsEdit(steps[j - 1], n, id) && Holds(t[j - 1].world, n, id) then Some(steps[j - 1].req)
    else LastEdit(t, steps, n, id, j - 1)
  }

  /** A received copy carries that edit, or none. */
  ghost predicate Carries(f: Net, open: Opener, n: Id, id: Id, last: Option<Request>)
    requires last.Some? ==> last.value.EditReq?
  {
    if !Received(f, n, id) then last.None?
    else
      var r := f.world[n][id];
      match last
      case None => r.editedAt == 0
      case Some(req) => r.editedAt == req.editedAt && Some(r.plaintext) == open(req.ciphertext, req.sender, n)
  }

  lemma {:induction false} LastEditIs(t: seq<Net>, steps: seq<Step>, open: Opener, j: nat, n: Id, id: Id)
    requires Trace(t, steps, open) && j < |t|
    ensures Carries(t[j], open, n, id, LastEdit(t, steps, n, id, j))
  {
    hide Apply, Enabled, Inv, Trace;
    TraceStart(t, steps, open);
    if j > 0 {
      var f, s := t[j - 1], steps[j - 1];
      LastEditIs(t, steps, open, j - 1, n, id);
      TraceStep(t, steps, open, j - 1);
      if Received(f, n, id) {
        ReceivedExactly(f, open, s, n, id);
      } else {
        if Holds(f.world, n, id) && Hands(s, n, id) { NotHandled(f, open, s.req, n, id); }
        if Received(t[j], n, id) { BecomesReceived(f, open, s, n, id); }
      }
    }
  }

  /** The copy of an author's message is a received row, and before any edit on either side the
      two texts are the same. */
  lemma TheCopy(f: Net, open: Opener, a: Id, id: Id)
    requires Inv(f, open) && Unedited(f) && Authored(f, a, id) && f.world[a][id].recipient != a
    requires Holds(f.world, f.world[a][id].recipient, id)
    ensures
      var m := f.world[a][id];
      var r := f.world[m.recipient][id];
      && Received(f, m.recipient, id) && r.sender == a && VersionOf(m) in f.versions
      && (r.editedAt == m.editedAt == 0 ==> r.plaintext == m.plaintext)
      && exists v | v in f.versions ::
           v.id == m.id && v.plaintext == r.plaintext && (r.editedAt != 0 ==> v.editedAt == r.editedAt)
  {
    var m := f.world[a][id];
    var n := m.recipient;
    var r := f.world[n][id];
    if r.sender == n { OneAuthor(f, open, a, n, id); }
    assert RowGood(f, n, id) && RowGood(f, a, id);
    var v :| v in f.versions && v.id == r.id && v.sender == r.sender && v.recipient == r.recipient
             && v.plaintext == r.plaintext && (r.editedAt != 0 ==> v.editedAt == r.editedAt);
    assert VersionGood(f, open, v);
  }

  /** For every message of every run: its two nodes agree on it exactly if it has arrived and the
      last edit that found it there is the one the author's row holds, or the row holds none. */
  lemma EditsAgreeIff(t: seq<Net>, steps: seq<Step>, open: Opener, j: nat, a: Id, id: Id)
    requires Trace(t, steps, open) && j < |t| && Authored(t[j], a, id) && t[j].world[a][id].recipient != a
    ensures
      var m := t[j].world[a][id];
      var last := LastEdit(t, steps, m.recipient, id, j);
      CopyAgrees(t[j].world, m, id) <==>
        && Holds(t[j].world, m.recipient, id)
        && (if last.None? then m.editedAt == 0
            else last.value.editedAt == m.editedAt
                 && open(last.value.ciphertext, last.value.sender, m.recipient) == Some(m.plaintext))
  {
    hide Apply, Enabled, Trace;
    var n := t[j].world[a][id].recipient;
    TraceStart(t, steps, open);
    TraceInv(t, steps, open, j);
    UneditedAlways(t, steps, open, j);
    if Holds(t[j].world, n, id) {
      LastEditIs(t, steps, open, j, n, id);
      TheCopy(t[j], open, a, id);
    }
  }

  /** The author's clock ticks between two edits of one message that differ. */
  ghost predicate TimesTell(vs: set<Version>) {
    forall v, v' | v in vs && v' in vs && v.id == v'.id && v.editedAt == v'.editedAt != 0 :: v.plaintext == v'.plaintext
  }

  /** Then it is enough to compare times: the comparison the receiver does not make. */
  lemma EditTimesAgreeIff(t: seq<Net>, steps: seq<Step>, open: Opener, j: nat, a: Id, id: Id)
    requires Trace(t, steps, open) && j < |t| && Authored(t[j], a, id) && t[j].world[a][id].recipient != a
    requires TimesTell(t[j].versions)
    ensures
      var m := t[j].world[a][id];
      var last := LastEdit(t, steps, m.recipient, id, j);
      CopyAgrees(t[j].world, m, id) <==>
        Holds(t[j].world, m.recipient, id) && (if last.None? then 0 else last.value.editedAt) == m.editedAt
  {
    hide Apply, Enabled, Trace;
    var n := t[j].world[a][id].recipient;
    TraceStart(t, steps, open);
    TraceInv(t, steps, open, j);
    UneditedAlways(t, steps, open, j);
    if Holds(t[j].world, n, id) {
      LastEditIs(t, steps, open, j, n, id);
      TheCopy(t[j], open, a, id);
      assert VersionOf(t[j].world[a][id]).id == t[j].world[a][id].id;
    }
  }

  // ---------------------------------------------------------------- the sender's own tombstone

  predicate Tombstoned(f: Net, a: Id, id: Id) {
    Authored(f, a, id) && f.world[a][id].accepted == DELETED
  }

  /** A sender's tombstone survives a stretch of a run exactly if nothing in it acknowledges or
      gives up on the message itself. */
  lemma {:induction false} TombstoneSurvivesIff(t: seq<Net>, steps: seq<Step>, open: Opener, i: nat, j: nat, a: Id,
                                                id: Id)
    requires Trace(t, steps, open) && i <= j < |t| && Tombstoned(t[i], a, id)
    ensures (forall k | i <= k <= j :: Tombstoned(t[k], a, id)) <==> (forall k | i <= k < j :: !Revives(steps[k], id))
  {
    hide Trace, Apply, Enabled, Inv, Authored, Revives;
    TraceStart(t, steps, open);
    if i < j {
      TombstoneSurvivesIff(t, steps, open, i, j - 1, a, id);
      TraceStep(t, steps, open, j - 1);
      if Tombstoned(t[j - 1], a, id) {
        TombstoneStep(t[j - 1], open, steps[j - 1], a, id);
      }
      assert (forall k | i <= k <= j :: Tombstoned(t[k], a, id)) <==>
             (forall k | i <= k <= j - 1 :: Tombstoned(t[k], a, id)) && Tombstoned(t[j], a, id);
      assert (forall k | i <= k < j :: !Revives(steps[k], id)) <==>
             (forall k | i <= k < j - 1 :: !Revives(steps[k], id)) && !Revives(steps[j - 1], id);
    }
  }

  lemma TombstoneStep(f: Net, open: Opener, s: Step, a: Id, id: Id)
    requires Inv(f, open) && Enabled(f, open, s) && Tombstoned(f, a, id)
    ensures Tombstoned(Apply(f, open, s), a, id) <==> !Revives(s, id)
  {
    hide Apply;
    RevivedIff(f, open, s, a, id);
    AuthoredStays(f, open, s, a, id);
  }
}
