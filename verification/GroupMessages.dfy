/** Sending to a group. The documentation promises one row per member under a shared message
    id; the table's primary key is the message id alone, so only one row can exist. */
module GroupMessages {
  import opened Common
  import opened Messages
  import opened Replication
  import opened Protocol

  /** One member as the send loop sees it: the ciphertext made for it, if encryption worked, and
      its address, "" if none is known. */
  datatype Addressee = Addressee(id: Id, cipher: Option<string>, address: string)

  /** The loop body for a member other than the sender. */
  function SendTo(w: World, a: Id, open: Opener, id: Id, group: Id, text: Text, time: int,
                  to: Addressee, call: Call): (s: Sent)
    requires a in w
    ensures s.world.Keys == w.Keys
  {
    if to.cipher.None? then Sent(w, false)
    else
      var m := NewMessage(id, a, to.id, group, text, to.cipher.value, PENDING, time);
      SendMessage(w, a, open, m, if to.address == "" then Lost else call)
  }

  /** The group send route's loop; ok is all_online. */
  function GroupSend(w: World, a: Id, open: Opener, id: Id, group: Id, text: Text, time: int,
                     members: seq<Addressee>, calls: Id -> Call): (s: Sent)
    requires a in w
    ensures s.world.Keys == w.Keys
    decreases |members|
  {
    if members == [] then Sent(w, true)
    else
      var before, to := GroupSend(w, a, open, id, group, text, time, Front(members), calls), Last(members);
      if to.id == a then before
      else
        var s := SendTo(before.world, a, open, id, group, text, time, to, calls(to.id));
        Sent(s.world, before.ok && s.ok)
  }

  /** The members other than the sender. */
  function Others(members: seq<Addressee>, a: Id): seq<Addressee>
    decreases |members|
  {
    if members == [] then []
    else Others(Front(members), a) + if Last(members).id == a then [] else [Last(members)]
  }

  /** The first other member for whom encryption worked. */
  function FirstServed(members: seq<Addressee>, a: Id): Option<Addressee>
    decreases |members|
  {
    if members == [] then None
    else
      var early, to := FirstServed(Front(members), a), Last(members);
      if early.None? && to.id != a && to.cipher.Some? then Some(to) else early
  }

  lemma SentIsStored(w: World, a: Id, open: Opener, id: Id, group: Id, text: Text, time: int, to: Addressee, call: Call)
    requires a in w && to.cipher.Some?
    ensures id in SendTo(w, a, open, id, group, text, time, to, call).world[a]
  {
  }

  /** The id is taken: nobody else can be served. */
  lemma NothingMore(w: World, a: Id, open: Opener, id: Id, group: Id, text: Text, time: int, to: Addressee, call: Call)
    requires a in w && (id in w[a] || to.cipher.None?)
    ensures SendTo(w, a, open, id, group, text, time, to, call) == Sent(w, false)
  {
  }

  /** The tables end up as if only the first member whose encryption worked had been addressed. */
  lemma {:induction false} GroupSendWorld(w: World, a: Id, open: Opener, id: Id, group: Id, text: Text, time: int,
                                          members: seq<Addressee>, calls: Id -> Call)
    requires a in w && id !in w[a]
    ensures
      var first := FirstServed(members, a);
      GroupSend(w, a, open, id, group, text, time, members, calls).world
        == if first.None? then w
           else SendTo(w, a, open, id, group, text, time, first.value, calls(first.value.id)).world
    decreases |members|
  {
    if members != [] {
      var front, to := Front(members), Last(members);
      GroupSendWorld(w, a, open, id, group, text, time, front, calls);
      var first, w1 := FirstServed(front, a), GroupSend(w, a, open, id, group, text, time, front, calls).world;
      if first.Some? {
        assert first.value.cipher.Some? by { FirstIsServed(front, a); }
        SentIsStored(w, a, open, id, group, text, time, first.value, calls(first.value.id));
        NothingMore(w1, a, open, id, group, text, time, to, calls(to.id));
      } else if to.cipher.None? {
        NothingMore(w1, a, open, id, group, text, time, to, calls(to.id));
      }
    }
  }

  /** So a group send is one send step of the protocol, or nothing. */
  lemma GroupSendIsSend(w: World, a: Id, open: Opener, id: Id, group: Id, text: Text, time: int,
                        members: seq<Addressee>, calls: Id -> Call)
    requires a in w && id !in w[a]
    ensures
      var first := FirstServed(members, a);
      GroupSend(w, a, open, id, group, text, time, members, calls).world
        == if first.None? then w
           else Apply(w, open, Send(a, id, first.value.id, group, text, first.value.cipher, time,
                                    if first.value.address == "" then Lost else calls(first.value.id)))
  {
    GroupSendWorld(w, a, open, id, group, text, time, members, calls);
    FirstIsServed(members, a);
  }

  lemma {:induction false} FirstIsServed(members: seq<Addressee>, a: Id)
    ensures FirstServed(members, a).Some? ==>
      FirstServed(members, a).value in Others(members, a) && FirstServed(members, a).value.cipher.Some?
    ensures FirstServed(members, a).None? ==> forall m | m in Others(members, a) :: m.cipher.None?
    decreases |members|
  {
    if members != [] {
      FirstIsServed(Front(members), a);
    }
  }

  /** "Delivered" is reported exactly when there was no other member at all, or a single one who
      was reached and answered. */
  lemma {:induction false} GroupSendFlag(w: World, a: Id, open: Opener, id: Id, group: Id, text: Text, time: int,
                                         members: seq<Addressee>, calls: Id -> Call)
    requires a in w && id !in w[a]
    ensures
      var others := Others(members, a);
      GroupSend(w, a, open, id, group, text, time, members, calls).ok <==>
        || |others| == 0
        || (|others| == 1 && SendTo(w, a, open, id, group, text, time, others[0], calls(others[0].id)).ok)
    decreases |members|
  {
    if members != [] {
      var front, to := Front(members), Last(members);
      GroupSendFlag(w, a, open, id, group, text, time, front, calls);
      GroupSendWorld(w, a, open, id, group, text, time, front, calls);
      FirstIsServed(front, a);
      var first, w1 := FirstServed(front, a), GroupSend(w, a, open, id, group, text, time, front, calls).world;
      if to.id != a && |Others(front, a)| > 0 {
        if first.Some? {
          SentIsStored(w, a, open, id, group, text, time, first.value, calls(first.value.id));
          NothingMore(w1, a, open, id, group, text, time, to, calls(to.id));
        } else {
          NothingMore(w, a, open, id, group, text, time, Others(front, a)[0], calls(Others(front, a)[0].id));
        }
      }
    }
  }

  /** So with two or more other members a group message is never reported delivered, and no two
      of them get a row, however good the network. */
  lemma LargerGroupsMiss(w: World, a: Id, open: Opener, id: Id, group: Id, text: Text, time: int,
                         members: seq<Addressee>, calls: Id -> Call)
    requires a in w && (forall n | n in w :: id !in w[n]) && |Others(members, a)| >= 2
    ensures
      var s := GroupSend(w, a, open, id, group, text, time, members, calls);
      && !s.ok
      && forall n, n' | n in w && n' in w && n != a && n' != a && n != n' :: id !in s.world[n] || id !in s.world[n']
  {
    GroupSendWorld(w, a, open, id, group, text, time, members, calls);
    GroupSendFlag(w, a, open, id, group, text, time, members, calls);
  }
}
