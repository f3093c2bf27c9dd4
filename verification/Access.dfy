/** Devices: how clients of a node come to exist, how their credentials are handed out, and
    which WebSocket connections receive broadcasts. */
module Access {
  import opened Common

  type Conn = nat
  type Hash = (string, string) -> string

  datatype Client = Client(device: string, salt: string, secretHash: string, createdAt: int)

  /** client is "" until the request is approved. */
  datatype AuthRequest = AuthRequest(device: string, createdAt: int, expiresAt: int, client: Id, secret: string)

  /** What random_b64url produced for one new client. */
  datatype Credential = Credential(id: Id, secret: string, salt: string)

  /** clients and requests are tables; live is ws_clients, seats is ws_client_ids, and open is
      the set of connections the server has not seen closed. */
  datatype State = State(clients: map<Id, Client>, requests: map<Id, AuthRequest>,
                         live: set<Conn>, seats: map<Id, seq<Conn>>, open: set<Conn>)

  datatype Answer = Code(code: int) | Granted(id: Id, secret: string) | Requested(expiresAt: int) | Status(text: string)

  datatype Reply = Reply(state: State, answer: Answer)

  const REQUEST_TTL := 600

  predicate Authenticated(hash: Hash, clients: map<Id, Client>, id: Id, secret: string) {
    id != "" && secret != "" && id in clients && hash(secret, clients[id].salt) == clients[id].secretHash
  }

  function Create(hash: Hash, st: State, device: string, cred: Credential, now: int): State {
    st.(clients := st.clients[cred.id := Client(device, cred.salt, hash(cred.secret, cred.salt), now)])
  }

  // ---------------------------------------------------------------- routes

  function Register(hash: Hash, st: State, cred: Credential, now: int): Reply {
    if st.clients != map[] then Reply(st, Code(403))
    else if cred.id in st.clients then Reply(st, Code(500))
    else Reply(Create(hash, st, "", cred, now), Granted(cred.id, cred.secret))
  }

  function RequestAccess(hash: Hash, st: State, rid: Id, device: string, cred: Credential, now: int): Reply {
    if st.clients == map[] then Reply(Create(hash, st, device, cred, now), Granted(cred.id, cred.secret))
    else if rid in st.requests then Reply(st, Code(500))
    else
      var row := AuthRequest(device, now, now + REQUEST_TTL, "", "");
      Reply(st.(requests := st.requests[rid := row]), Requested(now + REQUEST_TTL))
  }

  function Approve(hash: Hash, st: State, caller: Id, secret: string, rid: Id, allow: bool,
                   cred: Credential, now: int): Reply
  {
    if !Authenticated(hash, st.clients, caller, secret) then Reply(st, Code(401))
    else if rid !in st.requests then Reply(st, Code(404))
    else
      var row := st.requests[rid];
      if row.expiresAt < now then Reply(st.(requests := st.requests - {rid}), Code(410))
      else if row.client != "" then Reply(st, Code(409))
      else if !allow then Reply(st.(requests := st.requests - {rid}), Code(200))
      else if cred.id in st.clients then Reply(st, Code(500))
      else
        var st1 := Create(hash, st, row.device, cred, now);
        Reply(st1.(requests := st1.requests[rid := row.(client := cred.id, secret := cred.secret)]), Code(200))
  }

  function Poll(st: State, rid: Id, now: int): Reply {
    if rid !in st.requests then Reply(st, Status("unknown"))
    else
      var row := st.requests[rid];
      if row.expiresAt < now then Reply(st.(requests := st.requests - {rid}), Status("expired"))
      else if row.client == "" then Reply(st, Status("pending"))
      else Reply(st.(requests := st.requests - {rid}), Granted(row.client, row.secret))
  }

  /** DELETE succeeds whether or not the client exists. */
  function Revoke(hash: Hash, st: State, caller: Id, secret: string, target: Id): Reply {
    if !Authenticated(hash, st.clients, caller, secret) then Reply(st, Code(401))
    else if caller == target then Reply(st, Code(400))
    else
      var gone := if target in st.seats then set c | c in st.seats[target] else {};
      Reply(st.(clients := st.clients - {target}, live := st.live - gone, seats := st.seats - {target}), Code(200))
  }

  // ---------------------------------------------------------------- WebSocket events

  function Drop(list: seq<Conn>, c: Conn): (r: seq<Conn>)
    ensures forall x :: x in r <==> x in list && x != c
  {
    if list == [] then []
    else if list[0] == c then Drop(list[1..], c)
    else [list[0]] + Drop(list[1..], c)
  }

  function OnOpen(st: State, c: Conn): State {
    st.(open := st.open + {c})
  }

  function OnClose(st: State, c: Conn): State {
    st.(live := st.live - {c}, seats := map id | id in st.seats :: Drop(st.seats[id], c), open := st.open - {c})
  }

  /** An "auth" frame; a rejected connection is closed by the library, which reports OnClose. */
  function OnAuth(hash: Hash, st: State, c: Conn, id: Id, secret: string): State {
    if !Authenticated(hash, st.clients, id, secret) then st
    else
      var before := if id in st.seats then st.seats[id] else [];
      st.(live := st.live + {c}, seats := st.seats[id := before + [c]])
  }

  // ---------------------------------------------------------------- runs, with a record of what happened

  /** Why a client was created, and which clients were live at that moment; and with what. */
  datatype Origin = Unapproved | Approved(parent: Id, request: Id, present: set<Id>)
  datatype Birth = Birth(id: Id, origin: Origin, device: string, secret: string, salt: string, at: int)
  datatype HandOver = HandOver(request: Id, id: Id, secret: string, at: int, askedAt: int)

  datatype System = System(st: State, births: seq<Birth>, handed: seq<HandOver>, revoked: set<Id>, asked: set<Id>)

  datatype Step =
    | DoRegister(cred: Credential, now: int)
    | DoRequest(rid: Id, device: string, cred: Credential, now: int)
    | DoApprove(caller: Id, secret: string, rid: Id, allow: bool, cred: Credential, now: int)
    | DoPoll(rid: Id, now: int)
    | DoRevoke(caller: Id, secret: string, target: Id)
    | DoOpen(conn: Conn)
    | DoClose(conn: Conn)
    | DoAuth(conn: Conn, id: Id, secret: string)

  predicate Born(births: seq<Birth>, id: Id) {
    exists i | 0 <= i < |births| :: births[i].id == id
  }

  /** Random ids are new and not empty; frames arrive on open connections. */
  predicate Enabled(y: System, s: Step) {
    match s
    case DoRegister(n, _) => n.id != "" && n.secret != "" && !Born(y.births, n.id)
    case DoRequest(rid, _, n, _) => n.id != "" && n.secret != "" && !Born(y.births, n.id) && rid !in y.asked
    case DoApprove(_, _, _, _, n, _) => n.id != "" && n.secret != "" && !Born(y.births, n.id)
    case DoOpen(c) => c !in y.st.open
    case DoAuth(c, _, _) => c in y.st.open
    case _ => true
  }

  function BirthOf(n: Credential, origin: Origin, device: string, now: int): Birth {
    Birth(n.id, origin, device, n.secret, n.salt, now)
  }

  function Apply(hash: Hash, y: System, s: Step): System {
    match s
    case DoRegister(n, now) =>
      var r := Register(hash, y.st, n, now);
      y.(st := r.state, births := if r.answer.Granted? then y.births + [BirthOf(n, Unapproved, "", now)] else y.births)
    case DoRequest(rid, device, n, now) =>
      var r := RequestAccess(hash, y.st, rid, device, n, now);
      y.(st := r.state,
         births := if r.answer.Granted? then y.births + [BirthOf(n, Unapproved, device, now)] else y.births,
         asked := y.asked + {rid})
    case DoApprove(caller, secret, rid, allow, n, now) =>
      var r := Approve(hash, y.st, caller, secret, rid, allow, n, now);
      y.(st := r.state,
         births := if n.id in r.state.clients && n.id !in y.st.clients
                   then
                     var origin := Approved(caller, rid, y.st.clients.Keys);
                     y.births + [BirthOf(n, origin, y.st.requests[rid].device, now)]
                   else y.births)
    case DoPoll(rid, now) =>
      var r := Poll(y.st, rid, now);
      y.(st := r.state,
         handed := if r.answer.Granted?
                   then y.handed + [HandOver(rid, r.answer.id, r.answer.secret, now, y.st.requests[rid].createdAt)]
                   else y.handed)
    case DoRevoke(caller, secret, target) =>
      var r := Revoke(hash, y.st, caller, secret, target);
      var gone := if r.answer == Code(200) && target in y.st.clients then {target} else {};
      y.(st := r.state, revoked := y.revoked + gone)
    case DoOpen(c) => y.(st := OnOpen(y.st, c))
    case DoClose(c) => y.(st := OnClose(y.st, c))
    case DoAuth(c, id, secret) => y.(st := OnAuth(hash, y.st, c, id, secret))
  }

  // ---------------------------------------------------------------- a locked node stays locked

  /** Exactly the first client was let in without approval, and every other by a client born
      earlier and live at the time. */
  predicate Lineage(births: seq<Birth>) {
    forall i | 0 <= i < |births| ::
      match births[i].origin
      case Unapproved => i == 0
      case Approved(parent, _, present) => i > 0 && parent in present && Born(births[..i], parent)
  }

  predicate Locked(y: System) {
    && (y.births == [] <==> y.st.clients == map[])
    && (y.births == [] ==> y.st.requests == map[])
    && Lineage(y.births)
    && (forall id | id in y.st.clients :: Born(y.births, id))
  }

  lemma BornMore(births: seq<Birth>, b: Birth)
    ensures forall id :: Born(births + [b], id) <==> Born(births, id) || id == b.id
    ensures Born(births + [b], b.id)
  {
    var more := births + [b];
    forall id ensures Born(more, id) <==> Born(births, id) || id == b.id {
      if Born(births, id) {
        var i :| 0 <= i < |births| && births[i].id == id;
        assert more[i].id == id;
      }
      if id == b.id { assert more[|births|].id == id; }
    }
  }

  lemma LineageMore(births: seq<Birth>, b: Birth)
    requires Lineage(births)
    requires if births == [] then b.origin.Unapproved?
             else b.origin.Approved? && b.origin.parent in b.origin.present && Born(births, b.origin.parent)
    ensures Lineage(births + [b])
  {
    var more := births + [b];
    forall i | 0 <= i < |more|
      ensures match more[i].origin
              case Unapproved => i == 0
              case Approved(parent, _, present) => i > 0 && parent in present && Born(more[..i], parent)
    {
      if i < |births| { assert more[..i] == births[..i]; } else { assert more[..i] == births; }
    }
  }

  lemma BirthLocked(y: System, y': System, b: Birth)
    requires Locked(y) && y'.births == y.births + [b] && y'.st.clients.Keys == y.st.clients.Keys + {b.id}
    requires if y.births == [] then b.origin.Unapproved?
             else b.origin.Approved? && b.origin.parent in b.origin.present && Born(y.births, b.origin.parent)
    ensures Locked(y')
  {
    BornMore(y.births, b);
    LineageMore(y.births, b);
    assert b.id in y'.st.clients;
  }

  /** The step either creates one client, or removes none but a target its live caller outlives. */
  lemma LockedKept(hash: Hash, y: System, s: Step)
    requires Locked(y) && Enabled(y, s)
    ensures Locked(Apply(hash, y, s))
    ensures y.st.clients != map[] ==> Apply(hash, y, s).st.clients != map[]
  {
    hide Lineage, Drop;
    var y' := Apply(hash, y, s);
    if (s.DoRegister? || s.DoRequest?) && y.st.clients == map[] {
      BirthLocked(y, y', Last(y'.births));
    } else if s.DoApprove? && s.cred.id in y'.st.clients && s.cred.id !in y.st.clients {
      BirthLocked(y, y', Last(y'.births));
    } else if s.DoRevoke? && Authenticated(hash, y.st.clients, s.caller, s.secret) && s.caller != s.target {
      assert s.caller in y'.st.clients;
      assert y'.births == y.births && y'.st.clients.Keys <= y.st.clients.Keys;
    } else {
      assert y'.births == y.births && y'.st.clients == y.st.clients;
    }
  }

  // ---------------------------------------------------------------- credentials are handed over once

  /** The client was created for this request, with this secret. */
  predicate BornFor(births: seq<Birth>, id: Id, rid: Id, secret: string) {
    exists i | 0 <= i < |births| ::
      births[i].id == id && births[i].secret == secret && births[i].origin.Approved? && births[i].origin.request == rid
  }

  predicate Served(births: seq<Birth>, rid: Id) {
    exists i | 0 <= i < |births| :: births[i].origin.Approved? && births[i].origin.request == rid
  }

  /** The secret opens the client, as long as the client exists. */
  predicate Works(hash: Hash, clients: map<Id, Client>, id: Id, secret: string) {
    id in clients ==> Authenticated(hash, clients, id, secret)
  }

  predicate RequestOk(hash: Hash, y: System, rid: Id)
    requires rid in y.st.requests
  {
    var row := y.st.requests[rid];
    && rid in y.asked && row.expiresAt == row.createdAt + 600
    && if row.client == "" then !Served(y.births, rid)
       else BornFor(y.births, row.client, rid, row.secret) && Works(hash, y.st.clients, row.client, row.secret)
  }

  predicate HandOverOk(hash: Hash, y: System, h: HandOver) {
    && h.request in y.asked && h.request !in y.st.requests
    && h.at <= h.askedAt + 600
    && BornFor(y.births, h.id, h.request, h.secret) && Works(hash, y.st.clients, h.id, h.secret)
  }

  predicate OncePerRequest(births: seq<Birth>) {
    forall i, j | 0 <= i < j < |births| ::
      births[i].origin.Approved? && births[j].origin.Approved? ==>
        births[i].origin.request != births[j].origin.request
  }

  predicate HandedOnce(handed: seq<HandOver>) {
    forall i, j | 0 <= i < j < |handed| :: handed[i].request != handed[j].request
  }

  predicate Accounted(hash: Hash, y: System) {
    && OncePerRequest(y.births)
    && (forall i | 0 <= i < |y.births| :: y.births[i].origin.Approved? ==> y.births[i].origin.request in y.asked)
    && (forall i | 0 <= i < |y.births| :: y.births[i].id in y.st.clients || y.births[i].id in y.revoked)
    && (forall id | id in y.st.clients :: Born(y.births, id))
    && (forall rid | rid in y.st.requests :: RequestOk(hash, y, rid))
    && HandedOnce(y.handed)
    && (forall h | h in y.handed :: HandOverOk(hash, y, h))
  }

  /** Nothing recorded so far is invalidated when no request is opened or filled: clients are
      only added under unused ids or removed. */
  predicate Extends(hash: Hash, y: System, y': System) {
    && y.births <= y'.births && y.asked <= y'.asked
    && (forall id | id in y'.st.clients && id in y.st.clients :: y'.st.clients[id] == y.st.clients[id])
    && (forall id | id in y'.st.clients && id !in y.st.clients :: !Born(y.births, id))
  }

  lemma BornForKept(hash: Hash, y: System, y': System, id: Id, rid: Id, secret: string)
    requires Extends(hash, y, y') && BornFor(y.births, id, rid, secret) && Works(hash, y.st.clients, id, secret)
    ensures BornFor(y'.births, id, rid, secret) && Works(hash, y'.st.clients, id, secret)
  {
    var i :| 0 <= i < |y.births| && y.births[i].id == id && y.births[i].secret == secret
             && y.births[i].origin.Approved? && y.births[i].origin.request == rid;
    assert y'.births[i] == y.births[i];
    assert Born(y.births, id);
  }

  lemma ServedMore(births: seq<Birth>, news: seq<Birth>, rid: Id)
    ensures Served(births + news, rid) <==> Served(births, rid) || Served(news, rid)
  {
    var all := births + news;
    if Served(births, rid) {
      var i :| 0 <= i < |births| && births[i].origin.Approved? && births[i].origin.request == rid;
      assert all[i] == births[i];
    }
    if Served(news, rid) {
      var i :| 0 <= i < |news| && news[i].origin.Approved? && news[i].origin.request == rid;
      assert all[|births| + i] == news[i];
    }
  }

  /** Every hand-over on record stays good, and so does every request the step left alone and
      served nobody for. */
  lemma RecordKept(hash: Hash, y: System, y': System, news: seq<Birth>)
    requires Accounted(hash, y) && Extends(hash, y, y') && y'.births == y.births + news
    requires forall rid | rid in y'.st.requests :: rid in y.st.requests || rid !in y.asked
    ensures forall h | h in y.handed :: HandOverOk(hash, y', h)
    ensures forall rid | rid in y.st.requests && rid in y'.st.requests && y'.st.requests[rid] == y.st.requests[rid]
              && !Served(news, rid) :: RequestOk(hash, y', rid)
  {
    forall h | h in y.handed ensures HandOverOk(hash, y', h) {
      assert HandOverOk(hash, y, h);
      BornForKept(hash, y, y', h.id, h.request, h.secret);
    }
    forall rid | rid in y.st.requests && rid in y'.st.requests && y'.st.requests[rid] == y.st.requests[rid]
        && !Served(news, rid)
      ensures RequestOk(hash, y', rid)
    {
      assert RequestOk(hash, y, rid);
      ServedMore(y.births, news, rid);
      var row := y.st.requests[rid];
      if row.client != "" {
        BornForKept(hash, y, y', row.client, rid, row.secret);
      }
    }
  }

  /** The births list after one more client. */
  lemma BirthKept(hash: Hash, y: System, b: Birth, y': System)
    requires Accounted(hash, y) && y'.births == y.births + [b] && y.asked <= y'.asked && y'.revoked == y.revoked
    requires y'.st.clients.Keys == y.st.clients.Keys + {b.id}
    requires b.origin.Approved? ==> b.origin.request in y.asked && !Served(y.births, b.origin.request)
    ensures OncePerRequest(y'.births)
    ensures forall i | 0 <= i < |y'.births| :: y'.births[i].origin.Approved? ==> y'.births[i].origin.request in y'.asked
    ensures forall i | 0 <= i < |y'.births| :: y'.births[i].id in y'.st.clients || y'.births[i].id in y'.revoked
    ensures forall id | id in y'.st.clients :: Born(y'.births, id)
  {
    BornMore(y.births, b);
  }

  lemma BootstrapKept(hash: Hash, y: System, n: Credential, device: string, now: int, asked: set<Id>)
    requires Accounted(hash, y) && n.id != "" && n.secret != "" && !Born(y.births, n.id)
    ensures Accounted(hash, y.(st := Create(hash, y.st, device, n, now),
                               births := y.births + [BirthOf(n, Unapproved, device, now)], asked := y.asked + asked))
  {
    var b := BirthOf(n, Unapproved, device, now);
    var y' := y.(st := Create(hash, y.st, device, n, now), births := y.births + [b], asked := y.asked + asked);
    BirthKept(hash, y, b, y');
    RecordKept(hash, y, y', [b]);
    forall h | h in y'.handed ensures HandOverOk(hash, y', h) { assert HandOverOk(hash, y, h); }
  }

  /** The state after a request is filled for a new client. */
  lemma FillKept(hash: Hash, y: System, rid: Id, b: Birth, n: Credential, now: int)
    requires Accounted(hash, y) && rid in y.st.requests && y.st.requests[rid].client == ""
    requires n.id != "" && n.secret != "" && !Born(y.births, n.id)
    requires b.id == n.id && b.secret == n.secret && b.origin.Approved? && b.origin.request == rid
    ensures
      var row := y.st.requests[rid].(client := n.id, secret := n.secret);
      var st := Create(hash, y.st, row.device, n, now);
      Accounted(hash, y.(st := st.(requests := st.requests[rid := row]), births := y.births + [b]))
  {
    var row := y.st.requests[rid].(client := n.id, secret := n.secret);
    var st := Create(hash, y.st, row.device, n, now);
    var y' := y.(st := st.(requests := st.requests[rid := row]), births := y.births + [b]);
    assert RequestOk(hash, y, rid);
    BirthKept(hash, y, b, y');
    RecordKept(hash, y, y', [b]);
    forall r | r in y'.st.requests ensures RequestOk(hash, y', r) {
      if r == rid {
        assert y'.births[|y.births|] == b;
      } else {
        assert !Served([b], r);
      }
    }
  }

  lemma ApproveKept(hash: Hash, y: System, s: Step)
    requires Accounted(hash, y) && Enabled(y, s) && s.DoApprove?
    requires Apply(hash, y, s).st.clients != y.st.clients
    ensures Accounted(hash, Apply(hash, y, s))
  {
    FillKept(hash, y, s.rid, Last(Apply(hash, y, s).births), s.cred, s.now);
  }

  lemma PollKept(hash: Hash, y: System, s: Step)
    requires Accounted(hash, y) && s.DoPoll?
    ensures Accounted(hash, Apply(hash, y, s))
  {
    var y' := Apply(hash, y, s);
    assert y.births + [] == y.births;
    RecordKept(hash, y, y', []);
    if s.rid in y.st.requests {
      assert RequestOk(hash, y, s.rid);
      forall h | h in y.handed ensures h.request != s.rid { assert HandOverOk(hash, y, h); }
    }
  }

  /** Steps that create no client and hand nothing over. */
  lemma QuietKept(hash: Hash, y: System, y': System)
    requires Accounted(hash, y)
    requires y'.births == y.births && y'.handed == y.handed && y.asked <= y'.asked && y.revoked <= y'.revoked
    requires forall id | id in y'.st.clients :: id in y.st.clients && y'.st.clients[id] == y.st.clients[id]
    requires forall id | id in y.st.clients && id !in y'.st.clients :: id in y'.revoked
    requires forall rid | rid in y'.st.requests ::
               if rid in y.st.requests then y'.st.requests[rid] == y.st.requests[rid]
               else rid !in y.asked && rid in y'.asked && y'.st.requests[rid].client == ""
                    && y'.st.requests[rid].expiresAt == y'.st.requests[rid].createdAt + 600
    ensures Accounted(hash, y')
  {
    assert y'.births == y.births + [];
    RecordKept(hash, y, y', []);
  }

  lemma AccountedKept(hash: Hash, y: System, s: Step)
    requires Accounted(hash, y) && Enabled(y, s)
    ensures Accounted(hash, Apply(hash, y, s))
  {
    var y' := Apply(hash, y, s);
    if s.DoPoll? {
      PollKept(hash, y, s);
    } else if s.DoRegister? && y.st.clients == map[] {
      assert y.asked + {} == y.asked;
      BootstrapKept(hash, y, s.cred, "", s.now, {});
    } else if s.DoRequest? && y.st.clients == map[] {
      BootstrapKept(hash, y, s.cred, s.device, s.now, {s.rid});
    } else if s.DoApprove? && y'.st.clients != y.st.clients {
      ApproveKept(hash, y, s);
    } else {
      QuietKept(hash, y, y');
    }
  }

  // ---------------------------------------------------------------- clients are what they were created as

  predicate Recorded(hash: Hash, y: System) {
    && (forall i, j | 0 <= i < j < |y.births| :: y.births[i].id != y.births[j].id)
    && (forall b | b in y.births ::
          && b.id != "" && b.secret != ""
          && (b.id in y.st.clients ==>
                y.st.clients[b.id] == Client(b.device, b.salt, hash(b.secret, b.salt), b.at)))
  }

  lemma RecordedMore(hash: Hash, y: System, b: Birth, y': System)
    requires Recorded(hash, y) && !Born(y.births, b.id) && b.id != "" && b.secret != ""
    requires y'.births == y.births + [b]
    requires y'.st.clients == y.st.clients[b.id := Client(b.device, b.salt, hash(b.secret, b.salt), b.at)]
    ensures Recorded(hash, y')
  {
    forall i | 0 <= i < |y.births| ensures y.births[i].id != b.id {}
  }

  lemma RecordedKept(hash: Hash, y: System, s: Step)
    requires Recorded(hash, y) && Locked(y) && Enabled(y, s)
    ensures Recorded(hash, Apply(hash, y, s))
  {
    hide Recorded, Drop, Lineage;
    var y' := Apply(hash, y, s);
    if y'.births != y.births {
      RecordedMore(hash, y, Last(y'.births), y');
    } else {
      RecordedLess(hash, y, y');
    }
  }

  lemma RecordedLess(hash: Hash, y: System, y': System)
    requires Recorded(hash, y) && y'.births == y.births
    requires forall id | id in y'.st.clients :: id in y.st.clients && y'.st.clients[id] == y.st.clients[id]
    ensures Recorded(hash, y')
  {
  }

  // ---------------------------------------------------------------- broadcasts reach live clients only

  predicate Wired(st: State) {
    && (forall c | c in st.live :: c in st.open && exists id | id in st.seats :: c in st.seats[id])
    && (forall id | id in st.seats :: st.seats[id] != [] ==> id in st.clients)
    && (forall id, c | id in st.seats && c in st.seats[id] :: c in st.open)
  }

  lemma WiredKept(hash: Hash, y: System, s: Step)
    requires Wired(y.st) && Enabled(y, s)
    ensures Wired(Apply(hash, y, s).st)
    ensures Apply(hash, y, s).st.open == match s
                                         case DoOpen(c) => y.st.open + {c}
                                         case DoClose(c) => y.st.open - {c}
                                         case _ => y.st.open
  {
    var st, st' := y.st, Apply(hash, y, s).st;
    forall c | c in st'.live ensures exists id | id in st'.seats :: c in st'.seats[id] {
      if s.DoAuth? && c == s.conn && c !in st.live {
        assert c in st'.seats[s.id];
      } else {
        var id :| id in st.seats && c in st.seats[id];
        assert id in st'.seats && c in st'.seats[id];
      }
    }
  }

  /** After a revocation none of that client's connections is broadcast to, and it has none listed. */
  lemma RevokedIsSilent(hash: Hash, st: State, caller: Id, secret: string, target: Id)
    requires Revoke(hash, st, caller, secret, target).answer == Code(200)
    ensures
      var st' := Revoke(hash, st, caller, secret, target).state;
      && target !in st'.clients && target !in st'.seats
      && (target in st.seats ==> forall c | c in st.seats[target] :: c !in st'.live)
      && (forall c | c in st.live && (target !in st.seats || c !in st.seats[target]) :: c in st'.live)
  {
  }

  // ---------------------------------------------------------------- whole runs

  function After(hash: Hash, y: System, run: seq<Step>): System
    decreases |run|
  {
    if run == [] then y else Apply(hash, After(hash, y, Front(run)), Last(run))
  }

  predicate Possible(hash: Hash, y: System, run: seq<Step>)
    decreases |run|
  {
    run != [] ==> Possible(hash, y, Front(run)) && Enabled(After(hash, y, Front(run)), Last(run))
  }

  const FRESH := System(State(map[], map[], {}, map[], {}), [], [], {}, {})

  predicate Inv(hash: Hash, y: System) {
    Locked(y) && Accounted(hash, y) && Recorded(hash, y) && Wired(y.st)
  }

  lemma StepInv(hash: Hash, y: System, s: Step)
    requires Inv(hash, y) && Enabled(y, s)
    ensures Inv(hash, Apply(hash, y, s))
  {
    hide Locked, Accounted, Recorded, Wired, Apply, Enabled;
    LockedKept(hash, y, s);
    AccountedKept(hash, y, s);
    RecordedKept(hash, y, s);
    WiredKept(hash, y, s);
  }

  lemma {:induction false} InvKept(hash: Hash, y: System, run: seq<Step>)
    requires Inv(hash, y) && Possible(hash, y, run)
    ensures Inv(hash, After(hash, y, run))
    decreases |run|
  {
    hide Inv, Apply, Enabled;
    if run != [] {
      InvKept(hash, y, Front(run));
      StepInv(hash, After(hash, y, Front(run)), Last(run));
    }
  }

  lemma RunInvariants(hash: Hash, run: seq<Step>)
    requires Possible(hash, FRESH, run)
    ensures Inv(hash, After(hash, FRESH, run))
  {
    InvKept(hash, FRESH, run);
  }

  /** A locked node never unlocks: once it has a client it always has one. */
  lemma {:induction false} NeverUnlocks(hash: Hash, run: seq<Step>, more: seq<Step>)
    requires Possible(hash, FRESH, run + more) && After(hash, FRESH, run).st.clients != map[]
    ensures After(hash, FRESH, run + more).st.clients != map[]
    decreases |more|
  {
    if more == [] {
      assert run + more == run;
    } else {
      assert Front(run + more) == run + Front(more) && Last(run + more) == Last(more);
      NeverUnlocks(hash, run, Front(more));
      RunInvariants(hash, run + Front(more));
      LockedKept(hash, After(hash, FRESH, run + Front(more)), Last(more));
    }
  }

  /** Every client ever created goes back, approval by approval, to the one that was not approved. */
  predicate Descends(births: seq<Birth>, i: nat)
    requires i < |births|
  {
    i == 0 || (births[i].origin.Approved? &&
               exists j: nat :: j < i && births[j].id == births[i].origin.parent && Descends(births, j))
  }

  lemma {:induction false} AllDescend(births: seq<Birth>, i: nat)
    requires Lineage(births) && i < |births|
    ensures Descends(births, i) && (births[i].origin.Unapproved? <==> i == 0)
  {
    if i > 0 {
      var j :| 0 <= j < |births[..i]| && births[..i][j].id == births[i].origin.parent;
      AllDescend(births, j);
    }
  }

  /** In every state of every run: each client that exists traces back through approvals, each by
      a client that was live at the time, to the one client that was let in without approval. */
  lemma EveryClientDescends(hash: Hash, run: seq<Step>, id: Id)
    requires Possible(hash, FRESH, run) && id in After(hash, FRESH, run).st.clients
    ensures
      var births := After(hash, FRESH, run).births;
      && (exists i | 0 <= i < |births| :: births[i].id == id && Descends(births, i))
      && (forall i | 0 <= i < |births| :: births[i].origin.Unapproved? <==> i == 0)
      && (forall i | 0 <= i < |births| && births[i].origin.Approved? ::
            births[i].origin.parent in births[i].origin.present)
  {
    RunInvariants(hash, run);
    var births := After(hash, FRESH, run).births;
    assert Born(births, id);
    var i :| 0 <= i < |births| && births[i].id == id;
    AllDescend(births, i);
    forall j | 0 <= j < |births| ensures births[j].origin.Unapproved? <==> j == 0 {
      AllDescend(births, j);
    }
  }

  /** Over a whole run each request yields at most one client and is handed out at most once, not more
      than ten minutes after it was made; what is handed out is the id and the secret of the client
      made for it, and authenticates unless that client was revoked. */
  lemma HandOversAreGood(hash: Hash, run: seq<Step>, i: nat)
    requires Possible(hash, FRESH, run)
    ensures
      var y := After(hash, FRESH, run);
      && OncePerRequest(y.births) && HandedOnce(y.handed)
      && (i < |y.handed| ==>
            var h := y.handed[i];
            && h.at <= h.askedAt + 600 && BornFor(y.births, h.id, h.request, h.secret)
            && (h.id in y.revoked || Authenticated(hash, y.st.clients, h.id, h.secret)))
  {
    RunInvariants(hash, run);
    var y := After(hash, FRESH, run);
    if i < |y.handed| {
      assert HandOverOk(hash, y, y.handed[i]);
    }
  }

  lemma OutStaysOut(hash: Hash, y: System, s: Step, id: Id)
    requires Enabled(y, s) && Born(y.births, id) && id !in y.st.clients
    ensures Born(Apply(hash, y, s).births, id) && id !in Apply(hash, y, s).st.clients
  {
    hide Drop;
    var y' := Apply(hash, y, s);
    if y'.births != y.births { BornMore(y.births, Last(y'.births)); }
  }

  /** Once a client is out it stays out: in every later state of the run no secret authenticates
      it and it has no connection listed. */
  lemma {:induction false} RevokedStaysOut(hash: Hash, run: seq<Step>, more: seq<Step>, id: Id)
    requires Possible(hash, FRESH, run + more)
    requires Born(After(hash, FRESH, run).births, id) && id !in After(hash, FRESH, run).st.clients
    ensures
      var y := After(hash, FRESH, run + more);
      && Born(y.births, id) && id !in y.st.clients
      && (forall secret :: !Authenticated(hash, y.st.clients, id, secret))
      && (id in y.st.seats ==> y.st.seats[id] == [])
    decreases |more|
  {
    hide Apply, Enabled;
    RunInvariants(hash, run + more);
    if more == [] {
      assert run + more == run;
    } else {
      assert Front(run + more) == run + Front(more) && Last(run + more) == Last(more);
      RevokedStaysOut(hash, run, Front(more), id);
      OutStaysOut(hash, After(hash, FRESH, run + Front(more)), Last(more), id);
    }
  }
}
