/** What the device routes promise: who authenticates, what becomes of a request, and which
    connections are broadcast to. */
module Credentials {
  import opened Common
  import opened Access

  // ---------------------------------------------------------------- who authenticates

  /** In every state of every run: an id and a secret authenticate exactly if the id is that of a
      client that was created and not removed since, and the secret is not empty and hashes, with the
      salt drawn then, to what the secret drawn then hashes to. */
  lemma AuthenticatesIff(hash: Hash, run: seq<Step>, id: Id, secret: string)
    requires Possible(hash, FRESH, run)
    ensures
      var y := After(hash, FRESH, run);
      Authenticated(hash, y.st.clients, id, secret) <==>
        && id in y.st.clients && secret != ""
        && exists b | b in y.births :: b.id == id && hash(secret, b.salt) == hash(b.secret, b.salt)
  {
    RunInvariants(hash, run);
    var y := After(hash, FRESH, run);
    if id in y.st.clients {
      assert Born(y.births, id);
      var i :| 0 <= i < |y.births| && y.births[i].id == id;
      assert y.births[i] in y.births;
    }
  }

  /** So if the hash tells secrets apart, only the secret the client was created with does. */
  lemma OnlyTheSecret(hash: Hash, run: seq<Step>, b: Birth, secret: string)
    requires Possible(hash, FRESH, run) && b in After(hash, FRESH, run).births
    requires forall x, y, salt :: hash(x, salt) == hash(y, salt) ==> x == y
    ensures
      var clients := After(hash, FRESH, run).st.clients;
      Authenticated(hash, clients, b.id, secret) <==> b.id in clients && secret == b.secret
  {
    RunInvariants(hash, run);
  }

  // ---------------------------------------------------------------- the first client

  /** A node without clients lets the first one in and tells it its id and secret; with one, registration
      is refused. */
  lemma RegisterIff(hash: Hash, st: State, cred: Credential, now: int)
    ensures
      var r := Register(hash, st, cred, now);
      && (st.clients != map[] ==> r == Reply(st, Code(403)))
      && (st.clients == map[] ==>
            && r.answer == Granted(cred.id, cred.secret)
            && r.state == st.(clients := map[cred.id := Client("", cred.salt, hash(cred.secret, cred.salt), now)])
            && forall x :: Authenticated(hash, r.state.clients, cred.id, x) <==>
                 cred.id != "" && x != "" && hash(x, cred.salt) == hash(cred.secret, cred.salt))
  {
  }

  /** A request does the same, with the device's name; on a locked node it waits for ten minutes. */
  lemma RequestIff(hash: Hash, st: State, rid: Id, device: string, cred: Credential, now: int)
    ensures
      var r := RequestAccess(hash, st, rid, device, cred, now);
      && (st.clients == map[] ==>
            && r.answer == Granted(cred.id, cred.secret)
            && r.state == st.(clients := map[cred.id := Client(device, cred.salt, hash(cred.secret, cred.salt), now)]))
      && (st.clients != map[] && rid in st.requests ==> r == Reply(st, Code(500)))
      && (st.clients != map[] && rid !in st.requests ==>
            && r.answer == Requested(now + 600)
            && r.state == st.(requests := st.requests[rid := AuthRequest(device, now, now + 600, "", "")]))
  {
  }

  // ---------------------------------------------------------------- from request to hand-over

  /** Steps of others: requests of other devices, their approval, and everything else. */
  predicate LeavesAlone(s: Step, rid: Id) {
    !(s.DoApprove? && s.rid == rid) && !(s.DoPoll? && s.rid == rid)
  }

  lemma {:induction false} RequestWaits(hash: Hash, y: System, run: seq<Step>, rid: Id)
    requires Inv(hash, y) && Possible(hash, y, run) && rid in y.asked
    requires forall s | s in run :: LeavesAlone(s, rid)
    ensures Inv(hash, After(hash, y, run))
    ensures Get(After(hash, y, run).st.requests, rid) == Get(y.st.requests, rid)
    ensures rid in After(hash, y, run).asked && (y.st.clients != map[] ==> After(hash, y, run).st.clients != map[])
    decreases |run|
  {
    hide Inv, Drop;
    InvKept(hash, y, run);
    if run != [] {
      RequestWaits(hash, y, Front(run), rid);
      var y1 := After(hash, y, Front(run));
      assert Last(run) in run && LeavesAlone(Last(run), rid);
      StepWaits(hash, y1, Last(run), rid);
    }
  }

  lemma StepWaits(hash: Hash, y: System, s: Step, rid: Id)
    requires Inv(hash, y) && Enabled(y, s) && rid in y.asked && LeavesAlone(s, rid)
    ensures
      var y' := Apply(hash, y, s);
      && Get(y'.st.requests, rid) == Get(y.st.requests, rid)
      && rid in y'.asked && (y.st.clients != map[] ==> y'.st.clients != map[])
  {
    hide Drop, Lineage, Accounted, Recorded, Wired;
    LockedKept(hash, y, s);
  }

  /** On a locked node: a request is made, perhaps approved or refused later, and polled, with any
      steps of others in between. */
  datatype Story = Story(ask: Step, wait: seq<Step>, decide: Option<Step>, linger: seq<Step>, poll: int)

  function Asked(hash: Hash, y: System, s: Story): System {
    After(hash, Apply(hash, y, s.ask), s.wait)
  }

  function Decided(hash: Hash, y: System, s: Story): System {
    if s.decide.None? then Asked(hash, y, s) else Apply(hash, Asked(hash, y, s), s.decide.value)
  }

  function Polled(hash: Hash, y: System, s: Story): Reply
    requires s.ask.DoRequest?
  {
    Poll(After(hash, Decided(hash, y, s), s.linger).st, s.ask.rid, s.poll)
  }

  predicate Told(hash: Hash, y: System, s: Story) {
    && s.ask.DoRequest? && Enabled(y, s.ask)
    && Possible(hash, Apply(hash, y, s.ask), s.wait)
    && (s.decide.Some? ==> s.decide.value.DoApprove? && s.decide.value.rid == s.ask.rid
                           && Enabled(Asked(hash, y, s), s.decide.value))
    && Possible(hash, Decided(hash, y, s), s.linger)
    && (forall x | x in s.wait + s.linger :: LeavesAlone(x, s.ask.rid))
  }

  /** An answered approval form that counts: from a live client, while the request is alive. */
  predicate Ruled(hash: Hash, y: System, s: Story) {
    s.decide.Some? && s.decide.value.DoApprove?
    && Authenticated(hash, Asked(hash, y, s).st.clients, s.decide.value.caller, s.decide.value.secret)
  }

  /** The poll hands out the credential exactly if a live client allowed the request within ten minutes
      of it and the poll comes within them too. A refusal, and a decision that comes too late, close the
      request; without a decision it is pending until it expires. Only such an approval makes a client. */
  lemma HandOutIff(hash: Hash, y: System, s: Story)
    requires Inv(hash, y) && y.st.clients != map[] && Told(hash, y, s)
    ensures
      var ruled, ends := Ruled(hash, y, s), s.ask.now + 600;
      Polled(hash, y, s).answer ==
        if ruled && (!s.decide.value.allow || s.decide.value.now > ends) then Status("unknown")
        else if s.poll > ends then Status("expired")
        else if ruled then Granted(s.decide.value.cred.id, s.decide.value.cred.secret)
        else Status("pending")
    ensures
      var before, after := Asked(hash, y, s).st.clients, Decided(hash, y, s).st.clients;
      if Ruled(hash, y, s) && s.decide.value.allow && s.decide.value.now <= s.ask.now + 600 then
        var n := s.decide.value.cred;
        n.id !in before &&
        after == before[n.id := Client(s.ask.device, n.salt, hash(n.secret, n.salt), s.decide.value.now)]
      else after == before
    ensures Polled(hash, y, s).answer != Status("pending") ==>
              forall now :: Poll(Polled(hash, y, s).state, s.ask.rid, now).answer == Status("unknown")
  {
    hide Inv, After, Possible, RequestAccess, Approve;
    var y1, rid := Apply(hash, y, s.ask), s.ask.rid;
    StepInv(hash, y, s.ask);
    AskEffect(hash, y, s.ask);
    RequestWaits(hash, y1, s.wait, rid);
    var y2, y3 := Asked(hash, y, s), Decided(hash, y, s);
    if s.decide.Some? {
      StepInv(hash, y2, s.decide.value);
      DecideEffect(hash, y2, s.decide.value);
    }
    RequestWaits(hash, y3, s.linger, rid);
  }

  lemma AskEffect(hash: Hash, y: System, s: Step)
    requires Inv(hash, y) && Enabled(y, s) && s.DoRequest? && y.st.clients != map[]
    ensures
      var y' := Apply(hash, y, s);
      && y'.st.clients == y.st.clients && s.rid in y'.asked
      && Get(y'.st.requests, s.rid) == Some(AuthRequest(s.device, s.now, s.now + 600, "", ""))
  {
    hide Locked, Recorded, Wired;
    assert forall rid | rid in y.st.requests :: RequestOk(hash, y, rid);
  }

  /** The device gets the name its request gave, and the approval's credential. */
  lemma DecideEffect(hash: Hash, y: System, s: Step)
    requires Inv(hash, y) && Enabled(y, s) && s.DoApprove?
    requires s.rid in y.st.requests && y.st.requests[s.rid].client == ""
    ensures
      var y', row, n := Apply(hash, y, s), y.st.requests[s.rid], s.cred;
      var ruled, inTime := Authenticated(hash, y.st.clients, s.caller, s.secret), s.now <= row.expiresAt;
      && s.cred.id !in y.st.clients && y'.asked == y.asked
      && Get(y'.st.requests, s.rid) == (if !ruled then Some(row)
                                        else if inTime && s.allow then Some(row.(client := n.id, secret := n.secret))
                                        else None)
      && y'.st.clients == (if ruled && inTime && s.allow
                           then y.st.clients[n.id := Client(row.device, n.salt, hash(n.secret, n.salt), s.now)]
                           else y.st.clients)
  {
    hide Accounted, Recorded, Wired, Lineage;
    assert forall id | id in y.st.clients :: Born(y.births, id);
  }

  /** A live client removes any other, and nobody else removes anybody; nothing else changes in the tables. */
  lemma RevokeIff(hash: Hash, st: State, caller: Id, secret: string, target: Id)
    ensures
      var r, authed := Revoke(hash, st, caller, secret, target), Authenticated(hash, st.clients, caller, secret);
      && r.answer == Code(if !authed then 401 else if caller == target then 400 else 200)
      && r.state.requests == st.requests && r.state.open == st.open
      && (authed && caller != target ==>
            && target !in r.state.clients && caller in r.state.clients
            && (forall id | id != target :: Get(r.state.clients, id) == Get(st.clients, id)))
      && (!authed || caller == target ==> r.state == st)
  {
  }

  // ---------------------------------------------------------------- who is broadcast to

  /** The connection is broadcast to; or, with an id, it is listed as that client's. */
  predicate Heard(st: State, c: Conn, who: Option<Id>) {
    match who
    case None => c in st.live
    case Some(id) => id in st.seats && c in st.seats[id]
  }

  /** An auth frame with the right secret. */
  predicate Admits(hash: Hash, y: System, s: Step, c: Conn, who: Option<Id>) {
    && s.DoAuth? && s.conn == c && (who.Some? ==> who.value == s.id)
    && Authenticated(hash, y.st.clients, s.id, s.secret)
  }

  /** The connection is closed; or the client is removed, by another that is live. */
  predicate Silences(hash: Hash, y: System, s: Step, c: Conn, who: Option<Id>) {
    || (s.DoClose? && s.conn == c)
    || (&& s.DoRevoke? && s.caller != s.target && Authenticated(hash, y.st.clients, s.caller, s.secret)
        && if who.Some? then who.value == s.target else Heard(y.st, c, Some(s.target)))
  }

  lemma HeardStep(hash: Hash, y: System, s: Step, c: Conn, who: Option<Id>)
    ensures Heard(Apply(hash, y, s).st, c, who) <==>
            Admits(hash, y, s, c, who) || (Heard(y.st, c, who) && !Silences(hash, y, s, c, who))
  {
  }

  /** It was admitted by the i-th step of the run, and nothing silenced it since. */
  predicate AdmittedAt(hash: Hash, run: seq<Step>, i: nat, c: Conn, who: Option<Id>)
    requires i < |run|
  {
    && Admits(hash, After(hash, FRESH, run[..i]), run[i], c, who)
    && forall j | i < j < |run| :: !Silences(hash, After(hash, FRESH, run[..j]), run[j], c, who)
  }

  lemma AdmittedMore(hash: Hash, run: seq<Step>, i: nat, c: Conn, who: Option<Id>)
    requires i < |run|
    ensures AdmittedAt(hash, run, i, c, who) <==>
            if i < |run| - 1
            then AdmittedAt(hash, Front(run), i, c, who)
                 && !Silences(hash, After(hash, FRESH, Front(run)), Last(run), c, who)
            else Admits(hash, After(hash, FRESH, Front(run)), Last(run), c, who)
  {
    hide Admits, Silences, After;
    assert run[..|run| - 1] == Front(run);
    forall j: nat | j < |run| - 1 ensures Front(run)[..j] == run[..j] && Front(run)[j] == run[j] {}
  }

  lemma NobodyYet(c: Conn, who: Option<Id>)
    ensures !Heard(FRESH.st, c, who)
  {
  }

  /** A broadcast reaches exactly the connections that authenticated and have since neither closed nor
      lost, by its removal, a client they are listed under; and they are listed under exactly the
      clients they authenticated as, until they close or that client is removed. */
  lemma {:induction false} HeardIff(hash: Hash, run: seq<Step>, c: Conn, who: Option<Id>)
    ensures Heard(After(hash, FRESH, run).st, c, who) <==>
            exists i: nat | i < |run| :: AdmittedAt(hash, run, i, c, who)
    decreases |run|
  {
    hide AdmittedAt, Admits, Silences, Heard, Apply;
    NobodyYet(c, who);
    if run != [] {
      var y := After(hash, FRESH, Front(run));
      HeardIff(hash, Front(run), c, who);
      HeardStep(hash, y, Last(run), c, who);
      forall i: nat | i < |run| ensures AdmittedAt(hash, run, i, c, who) <==>
            if i < |run| - 1
            then AdmittedAt(hash, Front(run), i, c, who) && !Silences(hash, y, Last(run), c, who)
            else Admits(hash, y, Last(run), c, who)
      {
        AdmittedMore(hash, run, i, c, who);
      }
      assert AdmittedAt(hash, run, |run| - 1, c, who) <==> Admits(hash, y, Last(run), c, who);
    }
  }
}
