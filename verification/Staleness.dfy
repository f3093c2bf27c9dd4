/** What holds, and what fails, over every interleaving. */
module Staleness {
  import opened Common
  import opened Messages
  import opened Replication
  import opened Interleaving

  ghost predicate Start(f: Net) {
    && (forall n | n in f.world :: f.world[n] == map[])
    && f.sent == {} && f.acked == {} && f.versions == {} && f.lists == map[] && f.deleting == multiset{}
  }

  /** The states of a run: t[i + 1] follows from t[i] by steps[i]. */
  ghost predicate Trace(t: seq<Net>, steps: seq<Step>, open: Opener) {
    && |t| == |steps| + 1 && Start(t[0])
    && forall i | 0 <= i < |steps| :: Enabled(t[i], open, steps[i]) && t[i + 1] == Apply(t[i], open, steps[i])
  }

  lemma {:induction false} TraceInv(t: seq<Net>, steps: seq<Step>, open: Opener, i: nat)
    requires Trace(t, steps, open) && i < |t|
    ensures Inv(t[i], open)
  {
    if i == 0 {
      assert forall n, op :: Listed(t[0], n, op) == {};
    } else {
      TraceInv(t, steps, open, i - 1);
      InvKept(t[i - 1], open, steps[i - 1]);
    }
  }

  lemma TraceStart(t: seq<Net>, steps: seq<Step>, open: Opener)
    requires Trace(t, steps, open)
    ensures |t| == |steps| + 1 && t[0].versions == {} && forall n, id :: !Holds(t[0].world, n, id)
  {
  }

  lemma TraceStep(t: seq<Net>, steps: seq<Step>, open: Opener, i: nat)
    requires Trace(t, steps, open) && i < |steps|
    ensures Inv(t[i], open) && Enabled(t[i], open, steps[i]) && t[i + 1] == Apply(t[i], open, steps[i])
  {
    TraceInv(t, steps, open, i);
  }

  /** An acknowledged message is at its recipient, and an acknowledged edit reached some edit
      there, whatever the interleaving. */
  lemma AcksAreSound(t: seq<Net>, steps: seq<Step>, open: Opener, i: nat, n: Id, id: Id)
    requires Trace(t, steps, open) && i < |t| && Holds(t[i].world, n, id) && t[i].world[n][id].sender == n
    ensures
      var w, m := t[i].world, t[i].world[n][id];
      && (m.accepted == DELIVERED ==> Holds(w, m.recipient, id) && w[m.recipient][id].id == id)
      && (m.editedAt != 0 && m.editAccepted == 1 ==>
            Holds(w, m.recipient, id) && w[m.recipient][id].editedAt != 0)
  {
    TraceInv(t, steps, open, i);
    assert RowGood(t[i], n, id) && RowGood(t[i], t[i].world[n][id].recipient, id);
  }

  /** A node never shows a text its correspondent did not write: what it received is a version
      the sender's row held, and an edited row carries one of the sender's edits whole. */
  lemma NoInventedText(t: seq<Net>, steps: seq<Step>, open: Opener, i: nat, n: Id, id: Id)
    requires Trace(t, steps, open) && i < |t| && Holds(t[i].world, n, id) && t[i].world[n][id].sender != n
    ensures
      var m := t[i].world[n][id];
      exists v | v in t[i].versions ::
        && v.id == id && v.sender == m.sender && v.recipient == n
        && v.plaintext == m.plaintext && (m.editedAt != 0 ==> v.editedAt == m.editedAt)
  {
    TraceInv(t, steps, open, i);
    assert RowGood(t[i], n, id);
    var m := t[i].world[n][id];
    var v :| v in t[i].versions && v.id == m.id && v.sender == m.sender && v.recipient == m.recipient
             && v.plaintext == m.plaintext && (m.editedAt != 0 ==> v.editedAt == m.editedAt);
  }

  // ---------------------------------------------------------------- what one step does to a received row

  /** The step is node n handling a request about the message. */
  predicate Hands(s: Step, n: Id, id: Id) {
    s.Deliver? && s.req.recipient == n && s.req.id == id
  }

  predicate HandsMessage(s: Step, n: Id, id: Id) {
    Hands(s, n, id) && s.req.MessageReq?
  }

  predicate HandsEdit(s: Step, n: Id, id: Id) {
    Hands(s, n, id) && s.req.EditReq?
  }

  predicate HandsDelete(s: Step, n: Id, id: Id) {
    Hands(s, n, id) && s.req.DeleteReq?
  }

  /** The message is in its author's table. */
  predicate Authored(f: Net, a: Id, id: Id) {
    Holds(f.world, a, id) && f.world[a][id].sender == a
  }

  predicate Received(f: Net, n: Id, id: Id) {
    Holds(f.world, n, id) && f.world[n][id].sender != n
  }

  /** A request names the author's row, the recipient's copy comes from that author, and the
      recipient can read it. */
  lemma Source(f: Net, open: Opener, req: Request)
    requires Inv(f, open) && Enabled(f, open, Deliver(req))
    ensures Authored(f, req.sender, req.id) && f.world[req.sender][req.id].recipient == req.recipient
    ensures Holds(f.world, req.recipient, req.id) ==> f.world[req.recipient][req.id].sender == req.sender
    ensures !req.DeleteReq? ==> open(req.ciphertext, req.sender, req.recipient).Some?
  {
    assert RequestGood(f, req);
    var v :| v in f.versions && Matches(req, v);
    assert VersionGood(f, open, v);
    if Holds(f.world, req.recipient, req.id) { SameSource(f, open, v); }
  }

  /** What a received row is after a step: its status changes exactly when a delete is handled, and
      its text exactly when an edit is, to the text and time of that edit. */
  ghost predicate Moves(open: Opener, s: Step, n: Id, id: Id, m: Message, m': Message) {
    && m'.sender == m.sender
    && m'.accepted == (if HandsDelete(s, n, id) then DELETED else m.accepted)
    && m'.editedAt == (if HandsEdit(s, n, id) then s.req.editedAt else m.editedAt)
    && Some(m'.plaintext)
      == (if HandsEdit(s, n, id) then open(s.req.ciphertext, s.req.sender, n) else Some(m.plaintext))
  }

  lemma HandledExactly(f: Net, open: Opener, req: Request, n: Id, id: Id)
    requires Inv(f, open) && Enabled(f, open, Deliver(req)) && Received(f, n, id)
    ensures
      var f' := Apply(f, open, Deliver(req));
      Received(f', n, id) && Moves(open, Deliver(req), n, id, f.world[n][id], f'.world[n][id])
  {
    Source(f, open, req);
  }

  /** Acknowledgements and give-ups are marked at authors only. */
  lemma FlagsElsewhere(f: Net, open: Opener, s: Step, n: Id, id: Id)
    requires Inv(f, open) && Enabled(f, open, s) && Received(f, n, id) && (s.GiveUp? || s.Acknowledge?)
    ensures Received(Apply(f, open, s), n, id) && Apply(f, open, s).world[n][id] == f.world[n][id]
  {
    hide HandleRow;
    if s.GiveUp? {
      assert ListGood(f, s.who, s.op, s.m) && VersionGood(f, open, VersionOf(s.m));
    } else {
      assert AckGood(f, s.req) && RequestGood(f, s.req);
      var v :| v in f.versions && Matches(s.req, v);
      assert VersionGood(f, open, v);
    }
  }

  lemma WritesElsewhere(f: Net, open: Opener, s: Step, n: Id, id: Id)
    requires Enabled(f, open, s) && Received(f, n, id) && !s.GiveUp? && !s.Acknowledge? && !s.Deliver?
    ensures Received(Apply(f, open, s), n, id) && Apply(f, open, s).world[n][id] == f.world[n][id]
  {
  }

  lemma ReceivedExactly(f: Net, open: Opener, s: Step, n: Id, id: Id)
    requires Inv(f, open) && Enabled(f, open, s) && Received(f, n, id)
    ensures
      var f' := Apply(f, open, s);
      Received(f', n, id) && Moves(open, s, n, id, f.world[n][id], f'.world[n][id])
  {
    hide Apply, Enabled, Inv;
    if s.Deliver? {
      HandledExactly(f, open, s.req, n, id);
    } else if s.GiveUp? || s.Acknowledge? {
      FlagsElsewhere(f, open, s, n, id);
    } else {
      WritesElsewhere(f, open, s, n, id);
    }
  }

  /** A received row keeps its sender and can only go from delivered to deleted. */
  lemma ReceivedStep(f: Net, open: Opener, s: Step, n: Id, id: Id)
    requires Inv(f, open) && Enabled(f, open, s) && Received(f, n, id)
    ensures
      var f' := Apply(f, open, s);
      && Received(f', n, id) && f'.world[n][id].sender == f.world[n][id].sender
      && (f'.world[n][id].accepted == f.world[n][id].accepted || f'.world[n][id].accepted == DELETED)
  {
    hide Apply, Enabled, Inv;
    ReceivedExactly(f, open, s, n, id);
  }

  /** A message the sender deleted never comes back to a node that has tombstoned it: not by a
      duplicate, not by a later edit, not by a stale retry. */
  lemma {:induction false} TombstonesAbsorb(t: seq<Net>, steps: seq<Step>, open: Opener, i: nat, j: nat, n: Id, id: Id)
    requires Trace(t, steps, open) && i <= j < |t|
    requires Holds(t[i].world, n, id) && t[i].world[n][id].sender != n && t[i].world[n][id].accepted == DELETED
    ensures Holds(t[j].world, n, id) && t[j].world[n][id].sender == t[i].world[n][id].sender
    ensures t[j].world[n][id].accepted == DELETED
  {
    hide Apply, Enabled, Inv, Trace;
    TraceStart(t, steps, open);
    if i < j {
      TombstonesAbsorb(t, steps, open, i, j - 1, n, id);
      TraceStep(t, steps, open, j - 1);
      ReceivedStep(t[j - 1], open, steps[j - 1], n, id);
    }
  }

  /** An author never handles a request about its own message. */
  lemma NotHandled(f: Net, open: Opener, req: Request, a: Id, id: Id)
    requires Inv(f, open) && Enabled(f, open, Deliver(req)) && Authored(f, a, id)
    ensures !Hands(Deliver(req), a, id) && Holds(Apply(f, open, Deliver(req)).world, a, id)
    ensures Apply(f, open, Deliver(req)).world[a][id] == f.world[a][id]
  {
    hide HandleRow;
    Source(f, open, req);
  }

  /** Acknowledgements and give-ups about a message are its author's. */
  lemma FlagsOwn(f: Net, open: Opener, s: Step, a: Id, id: Id)
    requires Inv(f, open) && Enabled(f, open, s) && Authored(f, a, id)
    ensures s.GiveUp? && s.m.id == id ==> s.who == a
    ensures s.Acknowledge? && s.req.id == id ==> s.req.sender == a && s.req.recipient == f.world[a][id].recipient
  {
    assert RowGood(f, a, id);
    var own := VersionOf(f.world[a][id]);
    if s.GiveUp? {
      assert ListGood(f, s.who, s.op, s.m) && VersionOf(s.m) in f.versions;
      assert s.m.id == id ==> VersionOf(s.m).sender == own.sender;
    } else if s.Acknowledge? {
      assert AckGood(f, s.req) && RequestGood(f, s.req);
      var v :| v in f.versions && Matches(s.req, v);
      assert s.req.id == id ==> v.sender == own.sender && v.recipient == own.recipient;
    }
  }

  /** The UPDATEs of a sender's row that do not look at its status. */
  predicate Revives(s: Step, id: Id) {
    || (s.Acknowledge? && s.req.MessageReq? && s.req.id == id)
    || (s.GiveUp? && s.op == Op.Messages && s.m.id == id)
  }

  /** The sender's own tombstone is not absorbing: it is overwritten exactly by an
      acknowledgement, or a give-up, of the message itself, posted or listed while it was pending. */
  lemma RevivedIff(f: Net, open: Opener, s: Step, n: Id, id: Id)
    requires Inv(f, open) && Enabled(f, open, s)
    requires Authored(f, n, id) && f.world[n][id].accepted == DELETED
    ensures Holds(Apply(f, open, s).world, n, id)
    ensures Apply(f, open, s).world[n][id].accepted != DELETED <==> Revives(s, id)
  {
    hide Inv, Apply, Enabled;
    if s.Deliver? {
      NotHandled(f, open, s.req, n, id);
    } else {
      FlagsOwn(f, open, s, n, id);
      RevivedByFlag(f, open, s, n, id);
    }
  }

  lemma RevivedByFlag(f: Net, open: Opener, s: Step, n: Id, id: Id)
    requires Enabled(f, open, s) && !s.Deliver? && Authored(f, n, id) && f.world[n][id].accepted == DELETED
    requires s.GiveUp? && s.m.id == id ==> s.who == n
    requires s.Acknowledge? && s.req.id == id ==> s.req.sender == n && s.req.recipient == f.world[n][id].recipient
    ensures Holds(Apply(f, open, s).world, n, id)
    ensures Apply(f, open, s).world[n][id].accepted != DELETED <==> Revives(s, id)
  {
    hide HandleRow, Expired, IsPending;
  }

  // ---------------------------------------------------------------- agreement needs freshness

  /** Edits are handled, and acknowledged, only while they are still the sender's latest, and
      every edit has a ciphertext of its own (its nonce is random). */
  ghost predicate FreshStep(f: Net, s: Step) {
    && (s.Deliver? && s.req.EditReq? ==> Latest(f, s.req))
    && (s.Acknowledge? && s.req.EditReq? ==> Latest(f, s.req))
    && (s.Edit? ==> forall req | req in f.sent && req.EditReq? && req.id == s.id :: req.ciphertext != s.cipher)
  }

  predicate Latest(f: Net, req: Request)
    requires req.EditReq?
  {
    Holds(f.world, req.sender, req.id) &&
    var m := f.world[req.sender][req.id];
    m.ciphertext == req.ciphertext && m.editedAt == req.editedAt
  }

  predicate CopyAgrees(w: World, m: Message, id: Id) {
    && Holds(w, m.recipient, id)
    && w[m.recipient][id].plaintext == m.plaintext && w[m.recipient][id].editedAt == m.editedAt
  }

  ghost predicate Agree(f: Net) {
    forall n, id | Holds(f.world, n, id) && f.world[n][id].sender == n && f.world[n][id].recipient != n ::
      AgreeAt(f, n, id)
  }

  ghost predicate AgreeAt(f: Net, n: Id, id: Id)
    requires Holds(f.world, n, id)
  {
    var m := f.world[n][id];
    && (m.editedAt != 0 && m.editAccepted == 1 ==> CopyAgrees(f.world, m, id))
    && (EditReq(id, n, m.recipient, m.ciphertext, m.editedAt) in f.acked ==> CopyAgrees(f.world, m, id))
  }

  lemma OneAuthor(f: Net, open: Opener, n: Id, x: Id, id: Id)
    requires Inv(f, open) && Holds(f.world, n, id) && Holds(f.world, x, id)
    requires f.world[n][id].sender == n && f.world[x][id].sender == x
    ensures x == n
  {
    assert RowGood(f, n, id) && RowGood(f, x, id);
    assert VersionOf(f.world[n][id]).id == VersionOf(f.world[x][id]).id;
  }

  /** The id a step can touch, and the author of that message. */
  function Touched(s: Step): Option<Id> {
    match s
    case Insert(_, m) => Some(m.id)
    case Edit(_, id, _, _, _) => Some(id)
    case Delete(_, id) => Some(id)
    case Pend(_, id, _) => Some(id)
    case GiveUp(_, _, m, _) => Some(m.id)
    case Deliver(req) => Some(req.id)
    case Acknowledge(req, _) => Some(req.id)
    case _ => None
  }

  lemma Untouched(f: Net, open: Opener, s: Step, n: Id, id: Id)
    requires Enabled(f, open, s) && Touched(s) != Some(id)
    ensures
      var f' := Apply(f, open, s);
      && (Holds(f'.world, n, id) <==> Holds(f.world, n, id))
      && (Holds(f.world, n, id) ==> f'.world[n][id] == f.world[n][id])
      && (forall req | req in f'.acked && req.id == id :: req in f.acked)
  {
    hide HandleRow, IsPending, Expired;
  }

  lemma DeliverAgrees(f: Net, open: Opener, req: Request, n: Id, id: Id)
    requires Inv(f, open) && Enabled(f, open, Deliver(req)) && FreshStep(f, Deliver(req))
    requires Holds(f.world, n, id) && f.world[n][id].sender == n && f.world[n][id].recipient != n
    requires req.id == id && AgreeAt(f, n, id)
    ensures Holds(Apply(f, open, Deliver(req)).world, n, id) && AgreeAt(Apply(f, open, Deliver(req)), n, id)
  {
    var m := f.world[n][id];
    assert RowGood(f, n, id) && RequestGood(f, req);
    var v :| v in f.versions && Matches(req, v);
    assert v.id == VersionOf(m).id && VersionOf(m) in f.versions;
    assert VersionGood(f, open, VersionOf(m));
    if Holds(f.world, m.recipient, id) { assert RowGood(f, m.recipient, id); SameSource(f, open, v); }
  }

  lemma AcknowledgeAgrees(f: Net, open: Opener, req: Request, to: Option<Id>, n: Id, id: Id)
    requires Inv(f, open) && Enabled(f, open, Acknowledge(req, to)) && FreshStep(f, Acknowledge(req, to))
    requires Holds(f.world, n, id) && f.world[n][id].sender == n && f.world[n][id].recipient != n
    requires req.id == id && AgreeAt(f, n, id)
    ensures Holds(Apply(f, open, Acknowledge(req, to)).world, n, id)
    ensures AgreeAt(Apply(f, open, Acknowledge(req, to)), n, id)
  {
    var m := f.world[n][id];
    assert RowGood(f, n, id) && AckGood(f, req) && RequestGood(f, req);
    var v :| v in f.versions && Matches(req, v);
    assert v.id == VersionOf(m).id && VersionOf(m) in f.versions;
  }

  lemma LocalAgrees(f: Net, open: Opener, s: Step, n: Id, id: Id)
    requires Inv(f, open) && Enabled(f, open, s) && FreshStep(f, s)
    requires Holds(f.world, n, id) && f.world[n][id].sender == n && f.world[n][id].recipient != n
    requires Touched(s) == Some(id) && AgreeAt(f, n, id)
    requires s.Edit? || s.Delete? || s.Pend? || s.GiveUp?
    ensures Holds(Apply(f, open, s).world, n, id) && AgreeAt(Apply(f, open, s), n, id)
  {
    var m := f.world[n][id];
    match s
    case Edit(who, _, _, _, _) =>
      OneAuthor(f, open, n, who, id);
      assert forall req | req in f.acked :: AckGood(f, req);
    case Delete(who, _) => OneAuthor(f, open, n, who, id);
    case Pend(who, _, _) => OneAuthor(f, open, n, who, id);
    case GiveUp(who, op, x, _) =>
      assert ListGood(f, who, op, x) && VersionGood(f, open, VersionOf(x));
      OneAuthor(f, open, n, who, id);
  }

  lemma InsertAgrees(f: Net, open: Opener, s: Step, n: Id, id: Id)
    requires Inv(f, open) && Enabled(f, open, s) && s.Insert? && s.m.id == id
    requires
      var w' := Apply(f, open, s).world;
      Holds(w', n, id) && w'[n][id].sender == n && w'[n][id].recipient != n
    ensures AgreeAt(Apply(f, open, s), n, id)
  {
    forall req | req in f.acked ensures req.id != id {
      assert AckGood(f, req) && RequestGood(f, req);
      var v :| v in f.versions && Matches(req, v);
      assert VersionGood(f, open, v);
    }
  }

  predicate SameEnds(f: Net, f': Net, n: Id, id: Id) {
    if Holds(f.world, n, id) then
      && Holds(f'.world, n, id)
      && f'.world[n][id].sender == f.world[n][id].sender && f'.world[n][id].recipient == f.world[n][id].recipient
    else Holds(f'.world, n, id) ==> f'.world[n][id].sender != n
  }

  lemma DeliverKeepsEnds(f: Net, open: Opener, req: Request, n: Id, id: Id)
    requires Enabled(f, open, Deliver(req))
    ensures SameEnds(f, Apply(f, open, Deliver(req)), n, id)
  {
  }

  lemma KeepsEnds(f: Net, open: Opener, s: Step, n: Id, id: Id)
    requires Enabled(f, open, s) && !s.Insert?
    ensures SameEnds(f, Apply(f, open, s), n, id)
  {
    hide HandleRow;
    if s.Deliver? { DeliverKeepsEnds(f, open, s.req, n, id); }
  }

  lemma AgreeKept(f: Net, open: Opener, s: Step, n: Id, id: Id)
    requires Inv(f, open) && Agree(f) && Enabled(f, open, s) && FreshStep(f, s)
    requires
      var w' := Apply(f, open, s).world;
      Holds(w', n, id) && w'[n][id].sender == n && w'[n][id].recipient != n
    ensures AgreeAt(Apply(f, open, s), n, id)
  {
    hide Apply;
    var f' := Apply(f, open, s);
    var b := f'.world[n][id].recipient;
    if Touched(s) != Some(id) {
      Untouched(f, open, s, n, id);
      Untouched(f, open, s, b, id);
      assert AgreeAt(f, n, id);
    } else if s.Insert? {
      InsertAgrees(f, open, s, n, id);
    } else {
      KeepsEnds(f, open, s, n, id);
      assert AgreeAt(f, n, id);
      match s
      case Deliver(req) => DeliverAgrees(f, open, req, n, id);
      case Acknowledge(req, to) => AcknowledgeAgrees(f, open, req, to, n, id);
      case _ => LocalAgrees(f, open, s, n, id);
    }
  }

  /** If every edit is handled and acknowledged while it is the latest, an acknowledged edit
      means the two nodes hold the same text. */
  lemma {:induction false} FreshRunsAgree(t: seq<Net>, steps: seq<Step>, open: Opener, i: nat)
    requires Trace(t, steps, open) && i < |t|
    requires forall j | 0 <= j < |steps| :: FreshStep(t[j], steps[j])
    ensures Agree(t[i])
  {
    if i > 0 {
      FreshRunsAgree(t, steps, open, i - 1);
      TraceInv(t, steps, open, i - 1);
      var f, f' := t[i - 1], t[i];
      forall n, id | Holds(f'.world, n, id) && f'.world[n][id].sender == n && f'.world[n][id].recipient != n
        ensures AgreeAt(f', n, id)
      {
        AgreeKept(f, open, steps[i - 1], n, id);
      }
    }
  }

  // ---------------------------------------------------------------- runs that go wrong

  /** A correspondence with three ciphertexts. */
  function Reader(): Opener {
    (c: string, s: Id, r: Id) => Some(if c == "x" then [0] else if c == "y" then [1] else [])
  }

  const A := "a"
  const B := "b"

  function Empty(): Net {
    Net(map[A := map[], B := map[]], {}, {}, map[], multiset{}, {})
  }

  const FIRST := NewMessage("m", A, B, "", [], "", PENDING, 1)

  ghost predicate Reachable(f: Net, open: Opener) {
    exists t, steps :: Trace(t, steps, open) && f == t[|steps|]
  }

  lemma Extend(f: Net, open: Opener, s: Step)
    requires Reachable(f, open) && Enabled(f, open, s)
    ensures Reachable(Apply(f, open, s), open)
  {
    hide Apply, Enabled;
    var t, steps :| Trace(t, steps, open) && f == t[|steps|];
    var t', steps' := t + [Apply(f, open, s)], steps + [s];
    assert Trace(t', steps', open) && Apply(f, open, s) == t'[|steps'|];
  }

  lemma EmptyReachable()
    ensures Reachable(Empty(), Reader())
  {
    var t: seq<Net>, steps: seq<Step> := [Empty()], [];
    assert Trace(t, steps, Reader()) && Empty() == t[|steps|];
  }

  /** A reachable state of the two nodes, and the two rows of the one message. */
  ghost predicate Scene(f: Net, a: Option<Message>, b: Option<Message>) {
    Reachable(f, Reader()) && f.world.Keys == {A, B} && Get(f.world[A], "m") == a && Get(f.world[B], "m") == b
  }

  /** The row is inserted and posted, then listed by the worker while still pending. */
  lemma SentAndListed() returns (f: Net)
    ensures Scene(f, Some(FIRST), None)
    ensures RequestOf(Op.Messages, FIRST) in f.sent && FIRST in Listed(f, A, Op.Messages)
  {
    EmptyReachable();
    var s1 := Insert(A, FIRST);
    Extend(Empty(), Reader(), s1);
    f := Apply(Empty(), Reader(), s1);
    assert f.world[A]["m"] == FIRST;
    var s2 := Take(A, Op.Messages);
    Extend(f, Reader(), s2);
    f := Apply(f, Reader(), s2);
  }

  /** The author edits: a local write and one more POST on its way. */
  lemma AuthorEdits(f: Net, m: Message, b: Option<Message>, text: Text, cipher: string, time: int) returns (f': Net)
    requires Scene(f, Some(m), b) && m.id == "m" && m.sender == A && m.recipient == B
    requires Enabled(f, Reader(), Edit(A, "m", text, cipher, time))
    ensures Scene(f', Some(EditRow(m, text, cipher, time)), b)
    ensures f'.sent == f.sent + {EditReq("m", A, B, cipher, time)} && f'.acked == f.acked && f'.lists == f.lists
  {
    Extend(f, Reader(), Edit(A, "m", text, cipher, time));
    f' := Apply(f, Reader(), Edit(A, "m", text, cipher, time));
  }

  /** The author deletes: two local writes and one more POST on its way. */
  lemma AuthorDeletes(f: Net, m: Message, b: Option<Message>, time: int) returns (f': Net)
    requires Scene(f, Some(m), b) && m.id == "m" && m.sender == A && m.recipient == B && time > 0
    ensures Scene(f', Some(DeleteRow(m, time)), b)
    ensures f'.sent == f.sent + {DeleteReq("m", A, B)} && f'.acked == f.acked && f'.lists == f.lists
  {
    Extend(f, Reader(), Delete(A, "m"));
    f' := Apply(f, Reader(), Delete(A, "m"));
    assert (A, "m") in f'.deleting;
    Extend(f', Reader(), Pend(A, "m", time));
    f' := Apply(f', Reader(), Pend(A, "m", time));
  }

  lemma Peer(f: Net, m: Message, b: Option<Message>, req: Request) returns (f': Net)
    requires Scene(f, Some(m), b) && req in f.sent && req.id == "m" && req.sender == A && req.recipient == B
    ensures Scene(f', Some(m), HandleRow(B, b, Reader(), req).row)
    ensures f'.sent == f.sent && f'.lists == f.lists
    ensures HandleRow(B, b, Reader(), req).code == 200 ==> req in f'.acked
  {
    Extend(f, Reader(), Deliver(req));
    f' := Apply(f, Reader(), Deliver(req));
  }

  lemma Answer(f: Net, m: Message, b: Option<Message>, req: Request) returns (f': Net)
    requires Scene(f, Some(m), b) && req in f.acked && req.id == "m" && req.sender == A
    ensures Scene(f', Some(Flagged(m, AckFlag(req))), b)
    ensures f'.sent == f.sent && f'.acked == f.acked && f'.lists == f.lists
  {
    Extend(f, Reader(), Acknowledge(req, None));
    f' := Apply(f, Reader(), Acknowledge(req, None));
  }

  /** A reachable state in which a message its author deleted is shown as delivered again: the
      worker listed it while pending and retried it after the delete. */
  lemma DeletedMessageRevives()
    ensures exists f, m, b ::
              && Scene(f, Some(m), b) && m.sender == A
              && m.accepted == DELIVERED && m.deletedAt != 0
  {
    var req := RequestOf(Op.Messages, FIRST);
    var f := SentAndListed();
    f := AuthorDeletes(f, FIRST, None, 2);
    var deleted := DeleteRow(FIRST, 2);
    var s := Resend(A, Op.Messages, FIRST);
    Extend(f, Reader(), s);
    f := Apply(f, Reader(), s);
    f := Peer(f, deleted, None, req);
    f := Answer(f, deleted, HandleRow(B, None, Reader(), req).row, req);
  }

  /** A reachable state in which the delete is acknowledged but the recipient shows the message:
      the delete overtook the delivery, and the peer answers 200 for an unknown id. */
  lemma DeleteOvertakesDelivery()
    ensures exists f, m, b ::
              && Scene(f, Some(m), Some(b)) && m.sender == A
              && m.accepted == DELETED && m.deleteAccepted == 1 && b.accepted == DELIVERED
  {
    var del, req := DeleteReq("m", A, B), RequestOf(Op.Messages, FIRST);
    var f := SentAndListed();
    f := AuthorDeletes(f, FIRST, None, 2);
    f := Peer(f, DeleteRow(FIRST, 2), None, del);
    f := Answer(f, DeleteRow(FIRST, 2), None, del);
    f := Peer(f, Flagged(DeleteRow(FIRST, 2), DeleteAccepted), None, req);
  }

  /** The message is delivered, then edited twice; both edits are on their way. */
  lemma EditedTwice() returns (f: Net, b: Message)
    ensures Some(b) == HandleRow(B, None, Reader(), RequestOf(Op.Messages, FIRST)).row
    ensures Scene(f, Some(EditRow(EditRow(FIRST, [0], "x", 2), [1], "y", 3)), Some(b))
    ensures EditReq("m", A, B, "x", 2) in f.sent && EditReq("m", A, B, "y", 3) in f.sent
  {
    f := SentAndListed();
    f := Peer(f, FIRST, None, RequestOf(Op.Messages, FIRST));
    b := HandleRow(B, None, Reader(), RequestOf(Op.Messages, FIRST)).row.value;
    f := AuthorEdits(f, FIRST, Some(b), [0], "x", 2);
    f := AuthorEdits(f, EditRow(FIRST, [0], "x", 2), Some(b), [1], "y", 3);
  }

  /** A reachable state in which the sender's last edit is acknowledged while the recipient
      shows an earlier one, handled later: the receiver never compares edit times. */
  lemma OlderEditWins()
    ensures exists f, m, b ::
              && Scene(f, Some(m), Some(b)) && m.sender == A
              && m.editAccepted == 1 && b.editedAt < m.editedAt && b.plaintext != m.plaintext
  {
    hide Scene;
    var older, newer := EditReq("m", A, B, "x", 2), EditReq("m", A, B, "y", 3);
    var f, b1 := EditedTwice();
    var m := EditRow(EditRow(FIRST, [0], "x", 2), [1], "y", 3);
    f := Peer(f, m, Some(b1), newer);
    var b2 := HandleRow(B, Some(b1), Reader(), newer).row;
    f := Answer(f, m, b2, newer);
    f := Peer(f, Flagged(m, EditAccepted), b2, older);
    var b3 := HandleRow(B, b2, Reader(), older).row;
    assert Scene(f, Some(Flagged(m, EditAccepted)), Some(b3.value));
    assert b3.value.plaintext[0] == 0 && m.plaintext[0] == 1;
  }
}
