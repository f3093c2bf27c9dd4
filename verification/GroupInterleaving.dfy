/** Group membership with routes, the worker and the handlers interleaved. A route stores its list
    and then works through it member by member; a POST may be handled any time later or never, and
    an acknowledgement applied any time later or never; the worker retries the updates it listed,
    whatever has been queued since. */
module GroupInterleaving {
  import opened Common
  import opened Groups
  import opened Snapshots
  import SingleWriter

  datatype Post = Post(from: Id, to: Id, group: Id, snapshot: Snapshot)

  /** A membership route between two members of its list. */
  datatype Route = Route(who: Id, group: Id, snapshot: Snapshot, rest: seq<Member>)

  /** sent: every POST made so far; acked: those answered 200; lists: what each worker still
      works through. */
  datatype Net = Net(nodes: Nodes, routes: multiset<Route>, sent: set<Post>, acked: set<Post>,
                     lists: map<Id, set<Queued>>)

  datatype Step =
    | Create(who: Id, group: Id, name: string, address: string, now: int)
    | Store(who: Id, group: Id, list: seq<Member>, now: int)
    | Push(route: Route, now: int)
    | Drop(route: Route)
    | Take(who: Id)
    | Resend(who: Id, u: Queued)
    | Handle(post: Post, now: int, stamp: Stamp)
    | Acknowledge(post: Post)

  function Listed(f: Net, n: Id): set<Queued> {
    if n in f.lists then f.lists[n] else {}
  }

  predicate Enabled(f: Net, s: Step) {
    match s
    case Create(n, _, _, _, _) => n in f.nodes
    case Store(n, _, _, _) => n in f.nodes
    case Push(r, _) => r in f.routes && r.who in f.nodes && r.rest != []
    case Drop(r) => r in f.routes && r.who in f.nodes && r.rest == [] && r.snapshot.members == []
    case Take(n) => n in f.nodes
    case Resend(n, u) => n in f.nodes && u in Listed(f, n)
    case Handle(p, _, _) => p in f.sent && p.to in f.nodes && p.to != p.from
    case Acknowledge(p) => p in f.acked && p.from in f.nodes
  }

  function Apply(f: Net, s: Step): (f': Net)
    requires Enabled(f, s)
    ensures f'.nodes.Keys == f.nodes.Keys
  {
    match s
    case Create(n, g, name, address, now) => f.(nodes := SingleWriter.CreateGroup(f.nodes, n, g, name, address, now))
    case Store(n, g, list, now) =>
      var t := ReplaceMembers(f.nodes[n], g, list);
      f.(nodes := f.nodes[n := t],
         routes := if NoRepeats(list) then f.routes + multiset{Route(n, g, SnapshotOf(t, g, n, list, now), list)}
                   else f.routes)
    case Push(r, now) =>
      var m := r.rest[0];
      var f1 := f.(routes := f.routes - multiset{r} + multiset{r.(rest := r.rest[1..])});
      if m.id == r.who then f1
      else f1.(nodes := f.nodes[r.who := Queue(f.nodes[r.who], r.group, r.snapshot, m.id, now)],
               sent := if m.address == "" then f.sent else f.sent + {Post(r.who, m.id, r.group, r.snapshot)})
    case Drop(r) =>
      f.(nodes := f.nodes[r.who := SingleWriter.DeleteGroup(f.nodes[r.who], r.group)], routes := f.routes - multiset{r})
    case Take(n) =>
      var rows := f.nodes[n].updates;
      f.(lists := f.lists[n := set g, k | g in rows && k in rows[g] && rows[g][k].accepted == 0 ::
                                 Queued(g, k, rows[g][k])])
    case Resend(n, u) => f.(sent := f.sent + {Post(n, u.member, u.group, u.update.snapshot)})
    case Handle(p, now, stamp) =>
      var rep := AcceptSnapshot(f.nodes[p.to], p.group, p.snapshot, now, stamp);
      f.(nodes := f.nodes[p.to := rep.tables], acked := if rep.code == 200 then f.acked + {p} else f.acked)
    case Acknowledge(p) => f.(nodes := f.nodes[p.from := MarkUpdate(f.nodes[p.from], p.group, p.to)])
  }

  predicate Start(f: Net) {
    && (forall n | n in f.nodes :: f.nodes[n] == Tables(map[], map[], map[]))
    && f.routes == multiset{} && f.sent == {} && f.acked == {} && f.lists == map[]
  }

  ghost predicate Trace(t: seq<Net>, steps: seq<Step>) {
    && |t| == |steps| + 1 && Start(t[0])
    && forall i | 0 <= i < |steps| :: Enabled(t[i], steps[i]) && t[i + 1] == Apply(t[i], steps[i])
  }

  lemma TraceStart(t: seq<Net>, steps: seq<Step>)
    requires Trace(t, steps)
    ensures |t| == |steps| + 1 && Start(t[0])
  {
  }

  lemma TraceStep(t: seq<Net>, steps: seq<Step>, i: nat)
    requires Trace(t, steps) && i < |steps|
    ensures Enabled(t[i], steps[i]) && t[i + 1] == Apply(t[i], steps[i]) && t[i + 1].nodes.Keys == t[i].nodes.Keys
  {
  }

  lemma {:induction false} SameNodes(t: seq<Net>, steps: seq<Step>, j: nat)
    requires Trace(t, steps) && j < |t|
    ensures t[j].nodes.Keys == t[0].nodes.Keys
  {
    hide Trace, Enabled, Apply;
    TraceStart(t, steps);
    if j > 0 {
      SameNodes(t, steps, j - 1);
      TraceStep(t, steps, j - 1);
    }
  }

  // ---------------------------------------------------------------- who holds which list

  predicate Handles(s: Step, k: Id, g: Id) {
    s.Handle? && s.post.to == k && s.post.group == g
  }

  /** A route of k's own user changes the group. */
  predicate Writes(s: Step, k: Id, g: Id) {
    match s
    case Create(n, h, _, _, _) => n == k && h == g
    case Store(n, h, _, _) => n == k && h == g
    case Drop(r) => r.who == k && r.group == g
    case _ => false
  }

  lemma OtherMembersStep(f: Net, s: Step, k: Id, g: Id)
    requires Enabled(f, s) && k in f.nodes && !Writes(s, k, g) && !s.Handle?
    ensures MembersOf(Apply(f, s).nodes[k], g) == MembersOf(f.nodes[k], g)
  {
    hide Tabled, NoRepeats, UpdatesOf, Since;
  }

  lemma HandleMembersStep(f: Net, s: Step, k: Id, g: Id)
    requires Enabled(f, s) && k in f.nodes && s.Handle?
    ensures MembersOf(Apply(f, s).nodes[k], g)
         == if Handles(s, k, g) then Tabled(Arrived(s.post.snapshot.members, s.stamp)) else MembersOf(f.nodes[k], g)
  {
    hide Tabled, Arrived, NoRepeats;
  }

  /** What k holds about g after the step. */
  lemma MembersStep(f: Net, s: Step, k: Id, g: Id)
    requires Enabled(f, s) && k in f.nodes && !Writes(s, k, g)
    ensures
      var rows, rows' := MembersOf(f.nodes[k], g), MembersOf(Apply(f, s).nodes[k], g);
      Cards(rows') == if Handles(s, k, g) then Cards(Tabled(s.post.snapshot.members)) else Cards(rows)
  {
    hide Apply, Enabled, Writes, Cards, Tabled, MembersOf;
    if s.Handle? {
      HandleMembersStep(f, s, k, g);
      ArrivedCards(s.post.snapshot.members, s.stamp);
    } else {
      OtherMembersStep(f, s, k, g);
    }
  }

  /** The last snapshot of the group that k handled among the first j steps. */
  function LastHandled(steps: seq<Step>, k: Id, g: Id, j: nat): Option<Snapshot>
    requires j <= |steps|
  {
    if j == 0 then None
    else if Handles(steps[j - 1], k, g) then Some(steps[j - 1].post.snapshot)
    else LastHandled(steps, k, g, j - 1)
  }

  function CardsIn(s: Option<Snapshot>): map<Id, Card> {
    if s.None? then map[] else Cards(Tabled(s.value.members))
  }

  /** A node that does not change the group itself holds the last snapshot it handled. */
  lemma {:induction false} HoldsLast(t: seq<Net>, steps: seq<Step>, j: nat, k: Id, g: Id)
    requires Trace(t, steps) && j < |t| && k in t[j].nodes
    requires forall i | 0 <= i < j :: !Writes(steps[i], k, g)
    ensures Cards(MembersOf(t[j].nodes[k], g)) == CardsIn(LastHandled(steps, k, g, j))
  {
    hide Trace, Enabled, Apply, Cards, Writes;
    TraceStart(t, steps);
    if j > 0 {
      TraceStep(t, steps, j - 1);
      HoldsLast(t, steps, j - 1, k, g);
      MembersStep(t[j - 1], steps[j - 1], k, g);
    } else {
      NoCards();
    }
  }

  lemma NoCards()
    ensures Cards(map[]) == map[]
  {
  }

  /** Two nodes agree on a group, whoever changes it, exactly if what the one handled last is what
      the other holds. */
  lemma AgreeIff(t: seq<Net>, steps: seq<Step>, j: nat, a: Id, k: Id, g: Id)
    requires Trace(t, steps) && j < |t| && a in t[j].nodes && k in t[j].nodes
    requires forall i | 0 <= i < j :: !Writes(steps[i], k, g)
    ensures SingleWriter.Agrees(t[j].nodes, a, g, k) <==>
            CardsIn(LastHandled(steps, k, g, j)) == Cards(MembersOf(t[j].nodes[a], g))
  {
    HoldsLast(t, steps, j, k, g);
  }

  // ---------------------------------------------------------------- what an accepted update is worth

  lemma AckedStep(f: Net, s: Step, p: Post)
    requires Enabled(f, s) && p in Apply(f, s).acked && p !in f.acked
    ensures s.Handle? && s.post == p
  {
  }

  /** An acknowledged POST was handled. */
  lemma {:induction false} AckedWasHandled(t: seq<Net>, steps: seq<Step>, j: nat, p: Post)
    requires Trace(t, steps) && j < |t| && p in t[j].acked
    ensures LastHandled(steps, p.to, p.group, j).Some? && p.to != p.from
  {
    hide Trace, Apply;
    TraceStart(t, steps);
    TraceStep(t, steps, j - 1);
    if p in t[j - 1].acked {
      AckedWasHandled(t, steps, j - 1, p);
    } else {
      AckedStep(t[j - 1], steps[j - 1], p);
    }
  }

  predicate Earned(f: Net, a: Id, g: Id, k: Id) {
    exists p | p in f.acked :: p.from == a && p.to == k && p.group == g
  }

  predicate Accepts(f: Net, a: Id, g: Id, k: Id) {
    a in f.nodes && k in UpdatesOf(f.nodes[a], g) && UpdatesOf(f.nodes[a], g)[k].accepted == 1
  }

  lemma AcceptedStep(f: Net, s: Step, a: Id, g: Id, k: Id)
    requires Enabled(f, s) && Accepts(Apply(f, s), a, g, k) && (Accepts(f, a, g, k) ==> Earned(f, a, g, k))
    ensures Earned(Apply(f, s), a, g, k)
  {
    if !Accepts(f, a, g, k) {
      NewlyAccepted(f, s, a, g, k);
    } else {
      var p :| p in f.acked && p.from == a && p.to == k && p.group == g;
      assert p in Apply(f, s).acked;
    }
  }

  lemma NewlyAccepted(f: Net, s: Step, a: Id, g: Id, k: Id)
    requires Enabled(f, s) && Accepts(Apply(f, s), a, g, k) && !Accepts(f, a, g, k)
    ensures s.Acknowledge? && s.post.from == a && s.post.to == k && s.post.group == g
  {
    hide Tabled, NoRepeats, Arrived, SnapshotOf, Since;
  }

  lemma {:induction false} AcceptedIsEarned(t: seq<Net>, steps: seq<Step>, j: nat, a: Id, g: Id, k: Id)
    requires Trace(t, steps) && j < |t| && Accepts(t[j], a, g, k)
    ensures Earned(t[j], a, g, k)
  {
    hide Trace, Enabled, Apply, Earned;
    TraceStart(t, steps);
    if j > 0 {
      TraceStep(t, steps, j - 1);
      if Accepts(t[j - 1], a, g, k) { AcceptedIsEarned(t, steps, j - 1, a, g, k); }
      AcceptedStep(t[j - 1], steps[j - 1], a, g, k);
    }
  }

  /** An accepted update means that its member handled some snapshot of the group, and the member
      holds the one in the queue row exactly if that is what it handled last. */
  lemma HonouredIff(t: seq<Net>, steps: seq<Step>, j: nat, a: Id, k: Id, g: Id)
    requires Trace(t, steps) && j < |t| && Accepts(t[j], a, g, k) && k in t[j].nodes
    requires forall i | 0 <= i < j :: !Writes(steps[i], k, g)
    ensures
      var last, row := LastHandled(steps, k, g, j), UpdatesOf(t[j].nodes[a], g)[k];
      && last.Some? && k != a
      && (Cards(MembersOf(t[j].nodes[k], g)) == Cards(Tabled(row.snapshot.members)) <==>
            Cards(Tabled(last.value.members)) == Cards(Tabled(row.snapshot.members)))
  {
    HoldsLast(t, steps, j, k, g);
    AcceptedIsEarned(t, steps, j, a, g, k);
    var p :| p in t[j].acked && p.from == a && p.to == k && p.group == g;
    AckedWasHandled(t, steps, j, p);
  }

  /** The step that goes wrong, and the comparison that is not made: an answered retry marks the
      queue row accepted whatever it holds by then, and the member holds what the row does exactly
      if the retried snapshot lists the same members. */
  lemma StaleRetryIff(f: Net, p: Post, now: int, stamp: Stamp)
    requires Enabled(f, Handle(p, now, stamp)) && p.from in f.nodes && NoRepeats(p.snapshot.members)
    requires p.to in UpdatesOf(f.nodes[p.from], p.group)
    ensures Enabled(Apply(f, Handle(p, now, stamp)), Acknowledge(p))
    ensures
      var f' := Apply(Apply(f, Handle(p, now, stamp)), Acknowledge(p));
      var row := UpdatesOf(f.nodes[p.from], p.group)[p.to];
      && Accepts(f', p.from, p.group, p.to)
      && UpdatesOf(f'.nodes[p.from], p.group)[p.to].snapshot == row.snapshot
      && (Cards(MembersOf(f'.nodes[p.to], p.group)) == Cards(Tabled(row.snapshot.members)) <==>
            Cards(Tabled(p.snapshot.members)) == Cards(Tabled(row.snapshot.members)))
  {
    ArrivedCards(p.snapshot.members, stamp);
    MembersStep(f, Handle(p, now, stamp), p.to, p.group);
  }

  // ---------------------------------------------------------------- reachable states

  ghost predicate Reachable(f: Net) {
    exists t, steps :: Trace(t, steps) && f == t[|steps|]
  }

  lemma Extend(f: Net, s: Step)
    requires Reachable(f) && Enabled(f, s)
    ensures Reachable(Apply(f, s))
  {
    hide Apply, Enabled;
    var t, steps :| Trace(t, steps) && f == t[|steps|];
    var t', steps' := t + [Apply(f, s)], steps + [s];
    assert Trace(t', steps') && Apply(f, s) == t'[|steps'|];
  }

  lemma Started(f: Net)
    requires Start(f)
    ensures Reachable(f)
  {
    var t: seq<Net>, steps: seq<Step> := [f], [];
    assert Trace(t, steps) && f == t[|steps|];
  }

  // ---------------------------------------------------------------- a run that goes wrong

  /** One change of a two-member group: store the list, queue and post the snapshot. */
  lemma Change(f: Net, a: Id, g: Id, me: Member, m: Member, now: int) returns (f': Net, s: Snapshot)
    requires Reachable(f) && a in f.nodes && me.id == a != m.id && m.address != ""
    ensures Reachable(f') && f'.lists == f.lists && f'.nodes.Keys == f.nodes.Keys
    ensures s.members == [me, m] && f'.sent == f.sent + {Post(a, m.id, g, s)}
    ensures m.id in UpdatesOf(f'.nodes[a], g)
    ensures UpdatesOf(f'.nodes[a], g)[m.id].snapshot == s && UpdatesOf(f'.nodes[a], g)[m.id].accepted == 0
  {
    hide Reachable;
    var list := [me, m];
    RepeatsMean(list);
    Extend(f, Store(a, g, list, now));
    f' := Apply(f, Store(a, g, list, now));
    s := SnapshotOf(ReplaceMembers(f.nodes[a], g, list), g, a, list, now);
    var r0 := Route(a, g, s, list);
    assert r0 in f'.routes;
    Extend(f', Push(r0, now));
    f' := Apply(f', Push(r0, now));
    var r1 := r0.(rest := list[1..]);
    assert r1 in f'.routes && r1.rest[0] == m;
    Extend(f', Push(r1, now));
    f' := Apply(f', Push(r1, now));
  }

  /** The worker listed an update, a newer one was queued, and the older is on its way again. */
  lemma Overtaken() returns (f: Net, p: Post, me: Member, m1: Member, m2: Member)
    ensures Reachable(f) && f.nodes.Keys == {"a", "b"} && p in f.sent
    ensures p.from == "a" && p.to == "b" && p.group == "g" && p.snapshot.members == [me, m1]
    ensures "b" in UpdatesOf(f.nodes["a"], "g") && UpdatesOf(f.nodes["a"], "g")["b"].snapshot.members == [me, m2]
    ensures me.id == "a" && m1.id == m2.id == "b" && m1.address != m2.address
  {
    hide Reachable;
    var none := Tables(map[], map[], map[]);
    f := Net(map["a" := none, "b" := none], multiset{}, {}, {}, map[]);
    Started(f);
    me, m1, m2 := Member("a", "a", "admin", 1), Member("b", "old", "member", 2), Member("b", "new", "member", 2);
    var s1, s2;
    f, s1 := Change(f, "a", "g", me, m1, 2);
    var u := Queued("g", "b", UpdatesOf(f.nodes["a"], "g")["b"]);
    Extend(f, Take("a"));
    f := Apply(f, Take("a"));
    assert u in Listed(f, "a");
    f, s2 := Change(f, "a", "g", me, m2, 3);
    Extend(f, Resend("a", u));
    f := Apply(f, Resend("a", u));
    p := Post("a", "b", "g", s1);
  }

  /** A reachable state in which a member's update is accepted and the member holds another list:
      the older update's retry was answered. */
  lemma StaleRetryHappens()
    ensures exists f ::
              && Reachable(f) && f.nodes.Keys == {"a", "b"} && Accepts(f, "a", "g", "b")
              && Cards(MembersOf(f.nodes["b"], "g"))
                   != Cards(Tabled(UpdatesOf(f.nodes["a"], "g")["b"].snapshot.members))
  {
    hide Reachable, Apply, Cards, Tabled;
    var f, p, me, m1, m2 := Overtaken();
    var stamp: Stamp := k => 0;
    RepeatsMean(p.snapshot.members);
    StaleRetryIff(f, p, 4, stamp);
    Extend(f, Handle(p, 4, stamp));
    var f1 := Apply(f, Handle(p, 4, stamp));
    Extend(f1, Acknowledge(p));
    assert Reachable(Apply(f1, Acknowledge(p)));
    TwoCards(me, m1, m2);
  }

  lemma TwoCards(me: Member, m: Member, m': Member)
    requires me.id != m.id && m'.id == m.id && m'.address != m.address
    ensures Cards(Tabled([me, m])) != Cards(Tabled([me, m']))
  {
    hide Cards, Tabled, NoRepeats;
    assert [me, m] == [me] + [m] && [me, m'] == [me] + [m'];
    RepeatsMean([me]);
    Append([me], m);
    Append([me], m');
    PutCard(Tabled([me]), m);
    PutCard(Tabled([me]), m');
    assert Cards(Tabled([me, m]))[m.id] == Card(m.address, m.role);
    assert Cards(Tabled([me, m']))[m.id] == Card(m'.address, m'.role);
  }

  // ---------------------------------------------------------------- the atomic steps are interleavings

  lemma PostSimulated(f: Net, p: Post, now: int, stamp: Stamp, call: Call) returns (f': Net)
    requires Reachable(f) && p in f.sent && p.from in f.nodes
    ensures Reachable(f') && f'.routes == f.routes && f'.lists == f.lists
    ensures f'.nodes == PostAndMark(f.nodes, p.from, p.to, p.group, p.snapshot, now, stamp, call).nodes
  {
    hide Reachable, AcceptSnapshot;
    f' := f;
    if !call.Lost? && p.to in f.nodes && p.to != p.from {
      Extend(f, Handle(p, now, stamp));
      f' := Apply(f, Handle(p, now, stamp));
      if PostSnapshot(f.nodes, p.from, p.to, p.group, p.snapshot, now, stamp, call).ok {
        Extend(f', Acknowledge(p));
        f' := Apply(f', Acknowledge(p));
      }
    }
  }

  lemma PushSimulated(f: Net, r: Route, now: int, stamp: Stamp, calls: Id -> Call) returns (f': Net)
    requires Reachable(f) && r in f.routes && r.who in f.nodes && r.rest != []
    ensures Reachable(f') && r.(rest := r.rest[1..]) in f'.routes
    ensures
      var m := r.rest[0];
      f'.nodes == if m.id == r.who then f.nodes
                  else PushTo(f.nodes, r.who, m, r.group, r.snapshot, now, stamp, calls(m.id)).nodes
  {
    hide Reachable, PostAndMark;
    var m := r.rest[0];
    Extend(f, Push(r, now));
    f' := Apply(f, Push(r, now));
    if m.id != r.who && m.address != "" {
      f' := PostSimulated(f', Post(r.who, m.id, r.group, r.snapshot), now, stamp, calls(m.id));
    }
  }

  lemma {:induction false} FanOutSimulated(f: Net, r: Route, i: nat, now: int, stamp: Stamp, calls: Id -> Call)
    returns (f': Net)
    requires Reachable(f) && r in f.routes && r.who in f.nodes && i <= |r.rest|
    ensures Reachable(f') && r.(rest := r.rest[i..]) in f'.routes
    ensures f'.nodes == FanOut(f.nodes, r.who, r.rest[..i], r.group, r.snapshot, now, stamp, calls).nodes
  {
    hide Reachable, PushTo;
    if i == 0 {
      f' := f;
      assert r.(rest := r.rest[0..]) == r;
    } else {
      var f1 := FanOutSimulated(f, r, i - 1, now, stamp, calls);
      var r1 := r.(rest := r.rest[i - 1..]);
      f' := PushSimulated(f1, r1, now, stamp, calls);
      assert r1.rest[1..] == r.rest[i..] && r1.rest[0] == r.rest[i - 1];
      assert Front(r.rest[..i]) == r.rest[..i - 1];
    }
  }

  /** Storing a list and pushing it. */
  lemma StoreSimulated(f: Net, a: Id, g: Id, list: seq<Member>, now: int, stamp: Stamp, calls: Id -> Call)
    returns (f': Net, r: Route)
    requires Reachable(f) && a in f.nodes
    ensures Reachable(f') && f'.nodes == SingleWriter.StoreAndPush(f.nodes, a, g, list, now, stamp, calls).nodes
    ensures NoRepeats(list) ==>
              r in f'.routes && r.who == a && r.group == g && r.rest == [] && r.snapshot.members == list
  {
    hide Reachable, FanOut;
    Extend(f, Store(a, g, list, now));
    f' := Apply(f, Store(a, g, list, now));
    r := Route(a, g, SnapshotOf(f'.nodes[a], g, a, list, now), list);
    if NoRepeats(list) {
      assert r in f'.routes;
      f' := FanOutSimulated(f', r, |list|, now, stamp, calls);
      assert list[..|list|] == list && list[|list|..] == [];
      r := r.(rest := []);
    }
  }

  lemma RemoveSimulated(f: Net, s: SingleWriter.Step) returns (f': Net)
    requires Reachable(f) && s.RemoveMember? && SingleWriter.Enabled(f.nodes, s)
    ensures Reachable(f') && f'.nodes == SingleWriter.Apply(f.nodes, s)
  {
    hide Reachable, FanOut;
    var rest := Without(s.list, s.id);
    RemoveIsDifference(s.list, MembersOf(f.nodes[s.who], s.group), s.id);
    f' := f;
    if |rest| != |s.list| {
      var r;
      f', r := StoreSimulated(f, s.who, s.group, rest, s.now, s.stamp, s.calls);
      if SingleWriter.StoreAndPush(f.nodes, s.who, s.group, rest, s.now, s.stamp, s.calls).ok && rest == [] {
        Extend(f', Drop(r));
        f' := Apply(f', Drop(r));
      }
    }
  }

  lemma {:induction false} RetriesSimulated(f: Net, a: Id, list: seq<Queued>, now: int, stamp: Stamp,
                                            calls: (Id, Id) -> Call) returns (f': Net)
    requires Reachable(f) && a in f.nodes && forall u | u in list :: u in Listed(f, a)
    ensures Reachable(f') && f'.lists == f.lists
    ensures f'.nodes == RetryUpdates(f.nodes, a, list, now, stamp, calls)
    decreases |list|
  {
    hide Reachable, PostAndMark;
    f' := f;
    if list != [] {
      var u := Last(list);
      assert list == Front(list) + [u];
      f' := RetriesSimulated(f, a, Front(list), now, stamp, calls);
      assert u in list && u in Listed(f', a);
      Extend(f', Resend(a, u));
      f' := Apply(f', Resend(a, u));
      f' := PostSimulated(f', Post(a, u.member, u.group, u.update.snapshot), now, stamp, calls(u.group, u.member));
    }
  }

  lemma WorkerSimulated(f: Net, s: SingleWriter.Step) returns (f': Net)
    requires Reachable(f) && s.Worker? && SingleWriter.Enabled(f.nodes, s)
    ensures Reachable(f') && f'.nodes == SingleWriter.Apply(f.nodes, s)
  {
    hide Reachable, RetryUpdates;
    Extend(f, Take(s.who));
    f' := Apply(f, Take(s.who));
    forall u | u in s.pending ensures u in Listed(f', s.who) {
      assert u == Queued(u.group, u.member, u.update);
    }
    f' := RetriesSimulated(f', s.who, s.pending, s.now, s.stamp, s.retries);
  }

  /** One atomic step, a whole route or a whole round, is a sequence of the small steps. */
  lemma StepSimulated(f: Net, s: SingleWriter.Step) returns (f': Net)
    requires Reachable(f) && SingleWriter.Enabled(f.nodes, s)
    ensures Reachable(f') && f'.nodes == SingleWriter.Apply(f.nodes, s)
  {
    hide Reachable, FanOut, RetryUpdates;
    match s
    case Create(a, g, name, address, now) =>
      Extend(f, Create(a, g, name, address, now));
      f' := Apply(f, Create(a, g, name, address, now));
    case AddMember(a, g, id, address, selfAddress, list, now, stamp, calls) =>
      var r;
      f', r := StoreSimulated(f, a, g, Added(list, a, id, address, selfAddress, now), now, stamp, calls);
    case RemoveMember(_, _, _, _, _, _, _) => f' := RemoveSimulated(f, s);
    case Worker(_, _, _, _, _) => f' := WorkerSimulated(f, s);
  }

  /** Whatever tables a run of atomic group steps produces, some interleaving produces. */
  lemma {:induction false} RunsAreInterleavings(w: Nodes, run: seq<SingleWriter.Step>, a: Id, g: Id) returns (f: Net)
    requires forall n | n in w :: w[n] == Tables(map[], map[], map[])
    requires SingleWriter.Possible(w, run, a, g) && SingleWriter.After(w, run).Some?
    ensures Reachable(f) && f.nodes == SingleWriter.After(w, run).value
    decreases |run|
  {
    hide Reachable, SingleWriter.Enabled, SingleWriter.Apply;
    if run == [] {
      f := Net(w, multiset{}, {}, {}, map[]);
      Started(f);
    } else {
      f := RunsAreInterleavings(w, Front(run), a, g);
      f := StepSimulated(f, Last(run));
    }
  }
}
