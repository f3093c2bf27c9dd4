/** The auth routes and the WebSocket registry, acting on the database and the hub. */
module Devices {
  import opened Common
  import opened Access
  import opened Database

  /** The lists part-way through the loop of the close handler: those under todo still as they were. */
  function Closing(seats: map<Id, seq<Conn>>, todo: set<Id>, c: Conn): map<Id, seq<Conn>> {
    map id | id in seats :: if id in todo then seats[id] else Drop(seats[id], c)
  }

  lemma ClosingOn(seats: map<Id, seq<Conn>>, todo: set<Id>, c: Conn, id: Id)
    requires id in seats && id in todo
    ensures Closing(seats, todo, c)[id := Drop(seats[id], c)] == Closing(seats, todo - {id}, c)
    ensures Closing(seats, todo, c).Keys == seats.Keys && Closing(seats, todo, c)[id] == seats[id]
  {
  }

  lemma ClosingEnds(seats: map<Id, seq<Conn>>, c: Conn)
    ensures Closing(seats, seats.Keys, c) == seats
    ensures Closing(seats, {}, c) == map id | id in seats :: Drop(seats[id], c)
  {
  }

  /** ws_clients and ws_client_ids, and the connections not yet reported closed. */
  class Hub {
    var live: set<Conn>
    var seats: map<Id, seq<Conn>>
    var open: set<Conn>

    constructor ()
      ensures live == {} && seats == map[] && open == {}
    {
      live, seats, open := {}, map[], {};
    }

    /** std::remove over one client's list. */
    static method Removed(list: seq<Conn>, c: Conn) returns (rest: seq<Conn>)
      ensures rest == Drop(list, c)
    {
      rest := [];
      for i := 0 to |list|
        invariant rest + Drop(list[i..], c) == Drop(list, c)
      {
        assert list[i..] == [list[i]] + list[i + 1..];
        if list[i] != c {
          rest := rest + [list[i]];
        }
      }
    }

    method Open(c: Conn)
      modifies this`open
      ensures open == old(open) + {c}
    {
      open := open + {c};
    }

    /** The connection leaves ws_clients and every client's list; emptied lists stay. */
    method Close(c: Conn)
      modifies this
      ensures live == old(live) - {c} && open == old(open) - {c}
      ensures seats == map id | id in old(seats) :: Drop(old(seats)[id], c)
    {
      hide Closing, Drop;
      live := live - {c};
      open := open - {c};
      var todo := seats.Keys;
      ghost var before := seats;
      ClosingEnds(before, c);
      while todo != {}
        invariant todo <= before.Keys && live == old(live) - {c} && open == old(open) - {c}
        invariant seats == Closing(before, todo, c)
        decreases |todo|
      {
        var id :| id in todo;
        ClosingOn(before, todo, c, id);
        var rest := Removed(seats[id], c);
        seats := seats[id := rest];
        todo := todo - {id};
      }
    }

    method Admit(c: Conn, id: Id)
      modifies this`live, this`seats
      ensures live == old(live) + {c}
      ensures seats == old(seats)[id := (if id in old(seats) then old(seats)[id] else []) + [c]]
    {
      live := live + {c};
      var list := if id in seats then seats[id] else [];
      seats := seats[id := list + [c]];
    }

    /** What a revocation does: the client's connections stop being broadcast to, and its list goes. */
    method Evict(id: Id) returns (toClose: seq<Conn>)
      modifies this`live, this`seats
      ensures toClose == if id in old(seats) then old(seats)[id] else []
      ensures live == old(live) - (set c | c in toClose) && seats == old(seats) - {id}
    {
      toClose := [];
      if id in seats {
        var list := seats[id];
        for i := 0 to |list|
          invariant toClose == list[..i] && live == old(live) - (set c | c in toClose) && seats == old(seats)
        {
          live := live - {list[i]};
          toClose := toClose + [list[i]];
        }
        seats := seats - {id};
      }
    }
  }

  ghost function StateOf(db: DbManager, hub: Hub): State
    reads db`clients, db`requests, hub
  {
    State(db.clients, db.requests, hub.live, hub.seats, hub.open)
  }

  method Authenticate(db: DbManager, hash: Hash, id: Id, secret: string) returns (ok: bool)
    ensures ok <==> Authenticated(hash, db.clients, id, secret)
    ensures ok <==> && id in db.clients && id != "" && secret != ""
                    && hash(secret, db.clients[id].salt) == db.clients[id].secretHash
  {
    if id == "" || secret == "" { return false; }
    var info := db.GetClient(id);
    if info.None? { return false; }
    ok := hash(secret, info.value.salt) == info.value.secretHash;
  }

  // ---------------------------------------------------------------- routes

  method RegisterRoute(db: DbManager, hub: Hub, hash: Hash, cred: Credential, now: int) returns (answer: Answer)
    modifies db`clients
    ensures Reply(StateOf(db, hub), answer) == Register(hash, old(StateOf(db, hub)), cred, now)
  {
    var locked := db.HasClients();
    if locked { return Code(403); }
    var ok := db.CreateClient(cred.id, Client("", cred.salt, hash(cred.secret, cred.salt), now));
    if !ok { return Code(500); }
    answer := Granted(cred.id, cred.secret);
  }

  method RequestRoute(db: DbManager, hub: Hub, hash: Hash, rid: Id, device: string, cred: Credential, now: int)
    returns (answer: Answer)
    modifies db`clients, db`requests
    ensures Reply(StateOf(db, hub), answer) == RequestAccess(hash, old(StateOf(db, hub)), rid, device, cred, now)
  {
    var locked := db.HasClients();
    if !locked {
      var ok := db.CreateClient(cred.id, Client(device, cred.salt, hash(cred.secret, cred.salt), now));
      if !ok { return Code(500); }
      return Granted(cred.id, cred.secret);
    }
    var expires := now + REQUEST_TTL;
    var added := db.AddAuthRequest(rid, device, now, expires);
    if !added { return Code(500); }
    answer := Requested(expires);
  }

  method ApproveRoute(db: DbManager, hub: Hub, hash: Hash, caller: Id, secret: string, rid: Id, allow: bool,
                      cred: Credential, now: int) returns (answer: Answer)
    modifies db`clients, db`requests
    ensures Reply(StateOf(db, hub), answer)
      == Approve(hash, old(StateOf(db, hub)), caller, secret, rid, allow, cred, now)
  {
    var authed := Authenticate(db, hash, caller, secret);
    if !authed { return Code(401); }
    var found := db.GetAuthRequest(rid);
    if found.None? { return Code(404); }
    var row := found.value;
    if row.expiresAt < now {
      db.DeleteAuthRequest(rid);
      return Code(410);
    }
    if row.client != "" { return Code(409); }
    if !allow {
      db.DeleteAuthRequest(rid);
      return Code(200);
    }
    var created := db.CreateClient(cred.id, Client(row.device, cred.salt, hash(cred.secret, cred.salt), now));
    if !created { return Code(500); }
    db.ApproveAuthRequest(rid, cred.id, cred.secret);
    answer := Code(200);
  }

  method PollRoute(db: DbManager, hub: Hub, rid: Id, now: int) returns (answer: Answer)
    modifies db`requests
    ensures Reply(StateOf(db, hub), answer) == Poll(old(StateOf(db, hub)), rid, now)
  {
    var found := db.GetAuthRequest(rid);
    if found.None? { return Status("unknown"); }
    var row := found.value;
    if row.expiresAt < now {
      db.DeleteAuthRequest(rid);
      return Status("expired");
    }
    if row.client == "" { return Status("pending"); }
    db.DeleteAuthRequest(rid);
    answer := Granted(row.client, row.secret);
  }

  method RevokeRoute(db: DbManager, hub: Hub, hash: Hash, caller: Id, secret: string, target: Id)
    returns (answer: Answer, toClose: seq<Conn>)
    modifies db`clients, hub`live, hub`seats
    ensures Reply(StateOf(db, hub), answer) == Revoke(hash, old(StateOf(db, hub)), caller, secret, target)
    ensures forall c | c in toClose :: c !in hub.live
    ensures answer == Code(200) ==> toClose == if target in old(hub.seats) then old(hub.seats)[target] else []
  {
    var authed := Authenticate(db, hash, caller, secret);
    if !authed { return Code(401), []; }
    if caller == target { return Code(400), []; }
    db.DeleteClient(target);
    toClose := hub.Evict(target);
    answer := Code(200);
  }

  // ---------------------------------------------------------------- WebSocket events

  method OpenEvent(db: DbManager, hub: Hub, c: Conn)
    modifies hub
    ensures StateOf(db, hub) == OnOpen(old(StateOf(db, hub)), c)
  {
    hub.Open(c);
  }

  method CloseEvent(db: DbManager, hub: Hub, c: Conn)
    modifies hub
    ensures StateOf(db, hub) == OnClose(old(StateOf(db, hub)), c)
  {
    hub.Close(c);
  }

  /** An "auth" frame; false means the connection is to be closed. */
  method AuthEvent(db: DbManager, hub: Hub, hash: Hash, c: Conn, id: Id, secret: string) returns (ok: bool)
    modifies hub
    ensures StateOf(db, hub) == OnAuth(hash, old(StateOf(db, hub)), c, id, secret)
    ensures ok <==> && id in db.clients && id != "" && secret != ""
                    && hash(secret, db.clients[id].salt) == db.clients[id].secretHash
    ensures if ok then c in hub.live && id in hub.seats && c in hub.seats[id]
            else hub.live == old(hub.live) && hub.seats == old(hub.seats)
  {
    ok := Authenticate(db, hash, id, secret);
    if ok {
      hub.Admit(c, id);
    }
  }
}
