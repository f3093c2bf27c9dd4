# NoMiddle: replication, groups, devices and envelope

NoMiddle is a messenger in which every participant runs a node with its own database, and
nodes change each other's tables only through POSTs to `/accept_*`. This project models those
tables, the handlers, the routes, the delivery functions and the retry worker, and proves what
they keep over every run.

## How the model is laid out

The state of the network is one set of tables per node. A POST has three outcomes: the request
is lost, the peer handles it but the reply is lost, or the reply arrives (`Common.Call`).

* **Tables and handlers as functions.** `Messages` (rows, statements, the three handlers),
  `Replication` (one POST, one retry, the worker's loops), `Protocol` (the routes and the worker
  round as steps). Everything done to one message id depends only on the rows with that id, so
  each step is also given on the *slice* of that id; `Replication.RoundSlices` and
  `Protocol.ApplySlices` connect the two.
* **Coarse runs** (one handler run with its nested POST, or one worker round, is one step):
  `Agreement` (the replication invariant and the status machine), `Runs`, `Outcomes` (what every
  handler, route and retry leaves behind, row by row, for every outcome of its call), `Convergence`,
  `Histories`.
* **Fine runs** (every statement of a route or of the worker, every handler run and every
  acknowledgement is a step of its own; requests and acknowledgements arrive any time later or
  never; the worker acts on frozen lists): `Interleaving`, `Staleness`, and `Overtaking`, which
  says exactly when late requests do harm. `Simulation` shows that every coarse run is a fine run.
  The requests that the group edit and delete loops send to members a message was not addressed to
  are not steps, because they never change a table (`Overtaking.StrayRequest`).
* **Groups.** `Groups` (membership lists), `Snapshots` (fan-out and receiver), `SingleWriter`
  (convergence in coarse runs: a whole membership route or a whole worker round is one step),
  `Naming` (what a group is called, and whose it is, at the members a change reaches),
  `GroupInterleaving` (the same tables when routes, worker and handlers overlap, and the proof that
  coarse runs are among those), `GroupMessages` and `GroupEdits` (what group sends, edits and deletes
  amount to).
* **Devices.** `Access`: clients, approval requests, credentials, and the WebSocket registry.
  `Credentials`: who authenticates, what becomes of a request, and who is broadcast to, over whole runs.
* **Envelope.** `Base64` (section 4 of RFC 4648, canonical as section 3.5 asks) and `Envelope`.
* **The program's own form.** `Database.DbManager` is the class of tables with its statements
  and cursor loops; `Delivery`, `RetryWorker`, `GroupDelivery`, `GroupRoutes` and `Devices` are
  methods over these objects, one object per node. A POST runs the peer's handler on the peer's
  object. Each method is proved equal to the function above that specifies it, so the theorems
  about the functions are theorems about the methods.

## Assumptions

* Message ids, request ids and client ids are fresh when generated, and clocks are positive.
* All nodes run this code, a contact's address leads to that contact's node or nowhere, and a
  node does not reach itself: a POST to oneself counts as lost.
* `crypto_box` is an abstract function whose boxes are 16 bytes longer than the text and which
  the matching keys open (`Envelope.Ideal`; `Envelope.IdealIsPossible` shows that this can be
  met). Every recipient id is somebody's public key. The hash of client secrets is an arbitrary
  function.
* A SQL statement is atomic and fails only on a key conflict. A cursor returns each matching row
  once, in any order its ORDER BY allows.
* The `accepted` field that the group send leaves unset (src/server/main.cpp:695-702) is 0.
* The `added_at` values that the snapshot receiver leaves unset (src/server/main.cpp:873-880) are
  arbitrary, so members are compared by id, address and role.

## Where the code departs from its documentation or from what one would expect

* **A lost reply is never made up for.** The retry of a message the peer already holds is
  answered 500, so it is never acknowledged, and after a day it is marked failed although it was
  delivered (`Runs.LostReplyIsFinal`, `Runs.DeliveredYetFailed`). `Runs.AcknowledgedIff` says
  exactly when a round acknowledges a message.
* **A deleted row can come back at its sender.** `mark_accepted` and `mark_failed` do not look at
  the status, so an acknowledgement of the message, or a give-up on it, overwrites the deletion
  when the message was posted or listed while it was pending. `Staleness.RevivedIff` says exactly
  which steps do so, `Overtaking.TombstoneSurvivesIff` says it of whole stretches of a run, and
  `Staleness.DeletedMessageRevives` is a reachable example. The recipient's tombstones do stay
  (`Staleness.TombstonesAbsorb`).
* **A delete can overtake the delivery.** The peer answers 200 for an unknown id, keeps no trace of
  the delete, and shows the message when it arrives. Handling a delete takes effect exactly if the
  message is there (`Overtaking.DeleteTakesIff`), and the recipient shows the message after its
  last handled delete exactly if that came before the message and the message came after
  (`Overtaking.DeleteFinalIff`). `Staleness.DeleteOvertakesDelivery` is a reachable example.
* **An older edit can win.** The receiver never compares edit times. Two nodes agree on a message
  exactly if it has arrived and the last edit handled after that is the one the author's row holds,
  or the row holds none (`Overtaking.EditsAgreeIff`); if the author's clock tells different edits
  apart, exactly if the two edit times are equal (`Overtaking.EditTimesAgreeIff`).
  `Staleness.OlderEditWins` is a reachable example, and `Staleness.FreshRunsAgree` a discipline
  under which every acknowledged edit agrees.
* **A group message reaches one member.** The documentation promises one row per member under a
  shared id, but the id alone is the primary key (src/db/db_manager.cpp:30), so every insert
  after the first is refused and that member skipped (`GroupMessages.GroupSendWorld`,
  `GroupMessages.LargerGroupsMiss`).
* **A removed member is not told** (`SingleWriter.RemovedIsNotTold`), although the documentation
  says that the snapshot goes to every member.
* **Convergence can fail only where retries gave up.** `Convergence.ConvergesIff` names the
  condition on the rows; `Convergence.NoneFailed` is what either user can check.
  `Convergence.StuckHappens` is a run into such a state, and `Convergence.LostSendSticks` a whole
  family of them. A lost message that was given up on stays stuck exactly until its author deletes
  it (`Convergence.StuckUntilDeleted`).
* **A member who is not a contact is never sent what it missed.** The first push goes to the address
  in the member list, but retries go to the contacts' address (src/server/message_delivery.cpp:231)
  (`GroupDelivery.NotAContact`). After a round of the writer's worker such a member agrees exactly if
  it did before (`GroupDelivery.ContactIff`), and the whole group agrees exactly if every member did
  before or is a contact that handled the retry (`RetryWorker.ReconcileGroup`).
  `GroupDelivery.NonContactHappens` is a run in which every retry would be answered and the group
  still disagrees.
* **An accepted group update may not be the one the member holds.** The routes and the worker overlap,
  and `mark_group_update_accepted` looks at neither snapshot nor version
  (src/db/db_manager.cpp:1024-1037), so the answered retry of an older update marks a newer one
  accepted. Under every interleaving the member holds what the queue row says exactly if that is what
  it handled last (`GroupInterleaving.HonouredIff`); `GroupInterleaving.StaleRetryIff` is the step,
  `GroupInterleaving.StaleRetryHappens` a reachable example.
* **Revoking an unknown device answers 200.** A DELETE that matches nothing succeeds, so the
  route's 404 (documented as 409) is never given (`Devices.RevokeRoute`).
* The snapshot's `version` is stored and sent but never compared.

## Model

| member | source | states |
|---|---|---|
| Messages.ReplayIsIdempotent | src/server/main.cpp:346-451 | handling any request twice in a row leaves the tables as handling it once does; edits and deletes are answered alike; a message already stored is refused and left alone |
| Messages.HandlersOnlyGrow | src/server/main.cpp:346-451 | no incoming request removes a row, touches another row, or changes a status except to deleted by the row's own sender |
| Replication.RetryAllSlices | src/server/retry_worker.cpp:38-73 | a worker loop over a duplicate-free list does to each id what that id's entry alone says, so the order of the query result does not matter |
| Replication.RoundSlices | src/server/retry_worker.cpp:9-73 | the worker's three loops over their frozen lists act on every id as messages, then edits, then deletes, each decided by the row at the start of the round |
| Protocol.ApplySlices | src/server/main.cpp:250-344 | each route and each round moves the rows of different ids independently |
| Agreement.InvKept | src/server/main.cpp:279-451 | the replication invariant (sound acknowledgements, copy never ahead of the sender, one author per id) is kept by every send, edit, delete, lossy call and worker round |
| Agreement.ReceivedNotPending | src/db/db_manager.cpp:417-505 | a row a node received never appears in its pending queries: only authors retry |
| Agreement.StepEvolves | src/db/db_manager.cpp:165-206 | one step moves a sender's status only from 0 to 1, 2 or 3 or to 3; copies neither disappear nor come back from deletion |
| Runs.RunKeepsInv | src/server/main.cpp:279-451 | the replication invariant holds in every state of every run |
| Runs.RunEvolves | src/db/db_manager.cpp:165-206 | the status machine over whole runs, with deleted as a final state, and rows keeping sender, recipient, group and time |
| Runs.DeletedStaysGone | src/server/main.cpp:426-451 | after an acknowledged delete the recipient has no row or a tombstone for ever |
| Runs.LostReplyIsFinal | src/server/main.cpp:385-387 | once the recipient holds a message its sender has not seen acknowledged, no run ever acknowledges it |
| Runs.AcknowledgedIff | src/server/retry_worker.cpp:38-49 | a round marks a pending message delivered exactly if the peer did not have it and the answer came back, and failed exactly if not and it is more than 86400 s old |
| Runs.DeliveredYetFailed | src/server/retry_worker.cpp:43-46 | a send whose reply is lost, followed by a round a day later, leaves a delivered message marked failed |
| Runs.RoundExpires | src/server/retry_worker.cpp:37-73 | after a round nothing still pending is older than 86400 s, rows not listed are untouched, and in listed rows only flags changed |
| Outcomes.MessageHandled | src/server/main.cpp:346-390 | what accept_message stores and answers, field by field: 200 exactly for a readable message to this node under an unused id |
| Outcomes.EditHandled | src/server/main.cpp:392-424 | what accept_edit stores and answers, field by field: 200 exactly for a readable edit of a message it has |
| Outcomes.DeleteHandled | src/server/main.cpp:426-451 | what accept_delete stores and answers: a tombstone for the sender's own message, 200 also for one it never had |
| Outcomes.SentIff | src/server/message_delivery.cpp:40-69 | a fresh message is reported sent and marked delivered if and only if its recipient answered, and otherwise pending; the recipient holds it if and only if the POST was handled; nothing else changes |
| Outcomes.SendStep | src/server/main.cpp:250-277 | the same of the send step: both ends' rows, field by field, for every outcome of the call |
| Outcomes.EditStep | src/server/main.cpp:279-315 | after an edit the author holds the new text and time, acknowledged if and only if the recipient has the message and answered; a recipient that handles it holds them too |
| Outcomes.DeleteStep | src/server/main.cpp:317-344 | after a delete the author holds a tombstone dated with the delete, acknowledged if and only if the recipient answered; a recipient that handles it holds one too |
| Outcomes.RetryIff | src/server/retry_worker.cpp:37-73 | what a round does to each message, edit and delete of its node: accepted if and only if the retry came back with 200, given up if and only if not and more than 86400 s old, still pending otherwise, and untouched if it was not pending |
| Outcomes.LostTwiceIff | src/server/retry_worker.cpp:43-70 | from the route on: a send, edit or delete that is lost, and lost again in a round, is given up if and only if it began more than 86400 s before the round |
| Convergence.RoundSettles | src/server/retry_worker.cpp:38-73 | one connected round makes sender and recipient show a direct message alike exactly if its retries had not given up too early |
| Convergence.ConvergesIff | src/server/retry_worker.cpp:9-73 | after one connected round on each side the two direct histories are equal if and only if no message between them is stuck |
| Convergence.Converges | src/server/retry_worker.cpp:9-73 | if no retry between the two nodes has given up, one connected round on each makes their histories equal, edits and deletes included |
| Convergence.LostSendSticks | src/server/retry_worker.cpp:38-49 | every direct send that is lost and retried only a day later, in vain, leaves its message stuck |
| Convergence.StuckHappens | src/server/retry_worker.cpp:38-49 | a run from empty nodes into a stuck message |
| Convergence.StuckUntilDeleted | src/server/retry_worker.cpp:38-49 | a direct message given up on before it arrived is stuck after any further run if and only if its author has not deleted it |
| Histories.PreviewAgrees | src/db/db_manager.cpp:507-594 | the latest-message query is empty exactly when the history query is, and otherwise gives a member of that history as late as any; histories are in ascending order of time |
| Histories.ListMeans | src/db/db_manager.cpp:560-594 | a history shows exactly the messages that were not deleted and went between the two outside any group, or to the group |
| Histories.EntriesMean | src/db/db_manager.cpp:560-594 | the entries that SameEntries compares are exactly the listed messages' ids, texts, times and edit times |
| Histories.GroupSendShows | src/db/db_manager.cpp:915-945 | after a group send its author, and a recipient that handled it, find it in that group's history with sender, text and time, and in no direct history and no other group's |
| Histories.DirectSendShows | src/db/db_manager.cpp:560-594 | after a direct send the two ends find it in their history with each other, and in no group's |
| Histories.SameEntries | src/db/db_manager.cpp:560-594 | equal histories mean that the lists the two users see are equal as multisets of id, text, time and edit time |
| Histories.RoundsAgree | src/server/retry_worker.cpp:9-73 | after one connected round on each of two nodes between which no retry has given up, both users' history queries show the same messages |
| Histories.UsersAgree | src/server/retry_worker.cpp:9-73 | the same from every state any run reaches |
| Histories.TombstoneNeverShown | src/db/db_manager.cpp:507-594 | under every interleaving a message a recipient has tombstoned appears in no later history or preview of that node |
| Interleaving.DeliverAcks | src/server/main.cpp:362-424 | a 200 means that the recipient holds the message, or holds it marked as edited |
| Interleaving.InvKept | src/server/message_delivery.cpp:40-180 | the fine-grained invariant survives every step in every order, with stale worker lists and delayed requests and acknowledgements |
| Staleness.AcksAreSound | src/server/message_delivery.cpp:40-139 | under every interleaving a row marked delivered is at its recipient, and an acknowledged edit found an edited row there |
| Staleness.NoInventedText | src/server/main.cpp:362-424 | under every interleaving a received text is one the sender's row once held, and an edited row carries text and time of one edit the sender made |
| Staleness.ReceivedExactly | src/server/main.cpp:346-451 | a received row changes status exactly when a delete is handled, and text exactly when an edit is, to that edit's text and time |
| Staleness.ReceivedStep | src/server/main.cpp:346-451 | a received row keeps its sender and moves only from delivered to deleted |
| Staleness.TombstonesAbsorb | src/server/main.cpp:346-451 | a received message once deleted stays deleted, whatever duplicates, edits or retries arrive |
| Staleness.RevivedIff | src/db/db_manager.cpp:165-192 | a sender's own tombstone is overwritten exactly by an acknowledgement of the message or a give-up on it |
| Staleness.FreshRunsAgree | src/server/main.cpp:410-424 | if edits are handled and acknowledged only while they are the sender's latest, an acknowledged edit means that both nodes hold the same text and time (sufficient; Overtaking.EditsAgreeIff is exact) |
| Staleness.DeletedMessageRevives | src/db/db_manager.cpp:165-178 | a reachable state in which a deleted message is marked delivered again |
| Staleness.DeleteOvertakesDelivery | src/server/main.cpp:441-444 | a reachable state in which the delete is acknowledged and the recipient shows the message |
| Staleness.OlderEditWins | src/server/main.cpp:418 | a reachable state in which the sender's last edit is acknowledged and the recipient shows an earlier one |
| Overtaking.ArrivesIff | src/server/main.cpp:346-390 | a message its author holds arrives at another node exactly when that node handles it, and then as delivered |
| Overtaking.StrayRequest | src/server/main.cpp:777-842 | an edit or delete posted to a member the message was not addressed to changes no table, whenever it is handled or answered |
| Overtaking.DeleteTakesIff | src/server/main.cpp:441-450 | under every interleaving, handling a delete leaves a tombstone if and only if the message was there |
| Overtaking.DeleteFinalIff | src/server/main.cpp:441-450 | under every interleaving, after the last delete a node handled it shows the message if and only if that delete found nothing and the message was handled later |
| Overtaking.LastEditStays | src/server/main.cpp:418-421 | the copy carries text and time of the last edit handled since the message arrived, whichever was made last |
| Overtaking.UneditedAlways | src/db/db_manager.cpp:338-356 | until its first edit every version of a message ever posted has the text of its row |
| Overtaking.EditsAgreeIff | src/server/main.cpp:410-424 | under every interleaving, author and recipient agree on a message if and only if it has arrived and the last edit handled there is the one the author's row holds, or the row holds none |
| Overtaking.EditTimesAgreeIff | src/server/main.cpp:418 | when different edits of a message have different times, they agree if and only if the edit times are equal: the comparison the receiver leaves out |
| Overtaking.TombstoneSurvivesIff | src/db/db_manager.cpp:165-192 | a sender's tombstone survives a stretch of a run if and only if no step in it acknowledges the message or gives up on it |
| Simulation.StepSimulated | src/server/retry_worker.cpp:9-73 | every atomic step, a whole worker round included, is a sequence of small steps |
| Simulation.RunsAreInterleavings | src/server/retry_worker.cpp:8-78 | the tables of every coarse run are reached by some interleaving, so what holds of all interleavings holds of it |
| Groups.RepeatsMean | src/db/db_manager.cpp:868-889 | the inserts store exactly the ids of the list, and all succeed exactly if no id repeats |
| Groups.FirstIsStored | src/db/db_manager.cpp:868-889 | of rows with the same id the first is stored and the others are refused |
| Groups.ReplaceThenGet | src/db/db_manager.cpp:853-913 | storing a member list and querying the group gives back exactly that list, up to the order of added_at |
| Groups.SetAddressAt | src/server/main.cpp:564-571 | the search loop changes the address of the first row with the id and nothing else |
| Groups.AddIsUnion | src/server/main.cpp:561-583 | adding a member is set union: existing roles and joining times stay, the newcomer is a "member", and the list is stored without conflict |
| Groups.RemoveIsDifference | src/server/main.cpp:599-609 | removing is set difference, and 404 is answered exactly for a non-member |
| Snapshots.ArrivedCards | src/server/main.cpp:872-884 | what the receiver stores agrees with the snapshot on id, address and role |
| Snapshots.AcceptMeans | src/server/main.cpp:849-885 | an unknown group is created with the snapshot's name and sender; a known one keeps its creator and follows the name; its members become the snapshot's; 500 exactly on a repeated id; nothing else changes |
| Snapshots.FanOutExact | src/server/message_delivery.cpp:204-227 | after the fan-out every listed member's queued update is this snapshot, accepted exactly if the member answered; a member that handled the push has the snapshot's members and follows its name, and every other node has what it had |
| Snapshots.FlagIsExact | src/server/message_delivery.cpp:182-228 | the returned flag is true exactly when every other member's queued update is accepted; each queued update holds the sender's id, its name for the group, the version and the list, names its addressee, and keeps the created_at of one queued before; other groups and non-members are untouched |
| SingleWriter.SyncedKept | src/server/main.cpp:515-618 | with one writer, every step by anyone keeps each other member's queued update equal to the writer's list and name and authored by the writer, an accepted one honoured at that member, and every row others have for the group the writer's |
| SingleWriter.SyncedAlways | src/server/message_delivery.cpp:182-240 | the same in every state of every run of atomic routes and rounds, from before the group exists |
| SingleWriter.MembersAgree | src/server/retry_worker.cpp:19-32 | one round of the writer's worker in which every member answers makes all current members hold the same list, and know the group as the writer's and by the writer's name for it |
| SingleWriter.RoundIff | src/server/retry_worker.cpp:19-32 | after a round of the writer's worker a member's update is accepted if and only if it was before or its retry was answered, and the member agrees if and only if it did before or its retry was handled |
| SingleWriter.AllAgreeIff | src/server/retry_worker.cpp:19-32 | the whole group agrees after the round if and only if each member agreed before or handled its retry |
| SingleWriter.LostPushStays | src/server/main.cpp:551-589 | a member added by a push that is lost, and out of reach of the retries, still holds what it held before |
| SingleWriter.UncalledStays | src/server/retry_worker.cpp:23-32 | a member the worker's calls do not reach keeps its list and its queued update |
| SingleWriter.RemovedIsNotTold | src/server/main.cpp:600-611 | a removal leaves the removed node's own list as it was, whatever the calls do |
| SingleWriter.CreatorIsAdmin | src/server/main.cpp:522-545 | a new group has exactly one member, its creator, as admin; an existing id changes nothing |
| SingleWriter.LastOneOut | src/server/main.cpp:604-614 | removing a member deletes the group exactly when nobody is left, and then always |
| Naming.AddReaches | src/server/main.cpp:551-589 | after an addition every other member that handles the push knows the group by the adder's name for it, a newcomer to the group as the adder's, with the adder's members; a member that does not keeps what it had |
| Naming.RemoveReaches | src/server/main.cpp:591-618 | the same after a removal, of those who remain |
| Naming.RetryTells | src/server/message_delivery.cpp:230-240 | with one writer, a pending member that handles its retry knows the group as the writer's and by the writer's name for it, with the writer's members |
| GroupInterleaving.MembersStep | src/server/main.cpp:849-885 | in any interleaving a node that does not change a group itself changes its list of it only by handling a snapshot, to that snapshot's members |
| GroupInterleaving.HoldsLast | src/server/main.cpp:849-885 | such a node always holds the last snapshot it handled |
| GroupInterleaving.AgreeIff | src/server/main.cpp:849-885 | whoever changes the group, two nodes agree on it if and only if what the one handled last is what the other holds |
| GroupInterleaving.HonouredIff | src/db/db_manager.cpp:1024-1037 | under every interleaving an accepted update means that its member handled some snapshot of the group, and the member holds the queued one if and only if that is what it handled last |
| GroupInterleaving.StaleRetryIff | src/server/message_delivery.cpp:230-240 | an answered retry marks the queue row accepted whatever it holds by then, and the member holds what the row does if and only if the retried snapshot lists the same members |
| GroupInterleaving.StaleRetryHappens | src/server/retry_worker.cpp:19-32 | a reachable state in which a member's update is accepted and the member holds another list |
| GroupInterleaving.StepSimulated | src/server/main.cpp:515-618 | every atomic group step, a route with its fan-out or a worker round, is a sequence of small steps |
| GroupInterleaving.RunsAreInterleavings | src/server/retry_worker.cpp:8-78 | the tables of every run of atomic group steps are reached by some interleaving |
| GroupMessages.GroupSendWorld | src/server/main.cpp:678-723 | a group send leaves the tables as if only the first member whose encryption worked had been addressed |
| GroupMessages.GroupSendIsSend | src/server/main.cpp:662-723 | a group send is one send step of the direct protocol, or nothing |
| Outcomes.GroupSentIff | src/server/main.cpp:678-728 | "delivered" is reported if and only if there is no other member, or a single one for whom encryption worked, who has an address, and who answered |
| GroupMessages.LargerGroupsMiss | src/db/db_manager.cpp:29-42 | with two or more other members a send is never reported delivered and no two of them get a row |
| GroupEdits.GroupEditIsEdit | src/server/main.cpp:753-803 | the group edit loop is the direct edit step for the message's one recipient, or nothing if that recipient has left or cannot be encrypted to |
| GroupEdits.GroupDeleteIsDelete | src/server/main.cpp:805-847 | the group delete loop is the direct delete step, its call lost if the recipient has left |
| Access.LockedKept | src/server/main.cpp:926-1098 | no step empties a non-empty client table, and every new client is either the first or approved by a live one |
| Access.AccountedKept | src/server/main.cpp:926-1098 | each step keeps the account of requests, clients and hand-overs: one client per request, handed out once, in time, with the secret it was made with |
| Access.RecordedKept | src/server/main.cpp:926-1021 | each step keeps every client what it was created as: its device's name, salt, salted hash of its secret, and time |
| Access.WiredKept | src/server/main.cpp:187-226 | broadcast targets are open and listed under a client, and listed clients exist, after every event and route; connections open and close only by their own events |
| Access.RevokedIsSilent | src/server/main.cpp:1079-1093 | after a revocation none of the client's connections is broadcast to, and all others still are |
| Access.RevokedStaysOut | src/server/main.cpp:1071-1098 | once a client is out of the table, in every later state of the run it is still out, no secret authenticates it, and it has no connection listed |
| Access.RunInvariants | src/server/main.cpp:187-226 | the four invariants hold in every state of every run from an empty node |
| Access.NeverUnlocks | src/server/main.cpp:926-966 | once a client exists, every later state has one |
| Access.EveryClientDescends | src/server/main.cpp:926-1021 | exactly one client is created without approval, and every other traces back to it through approvals by clients live at the time |
| Access.HandOversAreGood | src/server/main.cpp:981-1050 | each request yields at most one client and is handed out at most once, no later than 600 s after it was made, with the id and the secret of the client made for it, which authenticates unless revoked |
| Credentials.AuthenticatesIff | src/server/auth.cpp:31-36 | in every state of every run an id and a secret authenticate if and only if the id is a client that was created and still exists, and the secret is not empty and hashes, with the salt drawn then, to what the secret drawn then hashes to |
| Credentials.OnlyTheSecret | src/server/auth.cpp:31-36 | so with a hash that tells secrets apart, only the secret the client was created with authenticates as it |
| Credentials.RegisterIff | src/server/main.cpp:926-943 | 403 exactly with a client in the table; otherwise one client, whose secret is told and is what authenticates as it |
| Credentials.RequestIff | src/server/main.cpp:945-979 | let in exactly without a client in the table; otherwise the request is stored under the device's name and lives 600 s |
| Credentials.HandOutIff | src/server/main.cpp:945-1050 | a request, perhaps a decision, and a poll, with any steps of others between: the poll hands out the credential if and only if a live client allowed the request and decision and poll came within 600 s of it; a refusal or a late decision closes it; otherwise it is pending until it expires; only an approval makes a client |
| Credentials.RevokeIff | src/server/main.cpp:1071-1098 | 401 exactly without authentication, 400 exactly for the caller itself, and otherwise that client and no other is removed |
| Credentials.HeardIff | src/server/main.cpp:187-226 | over whole runs: a connection is broadcast to if and only if it authenticated and has since neither closed nor lost, by its removal, a client it is listed under; and it is listed under a client if and only if it authenticated as that client and has not closed, nor the client been removed, since |
| Base64.DecodeIff | src/server/crypto/key_manager.cpp:7-24 | the decoder accepts exactly the encoder's outputs and inverts them |
| Base64.EncodedLength | src/server/crypto/key_manager.cpp:7-13 | the encoded length is four for every three bytes begun, never shorter than the bytes |
| Base64.AlphabetIs | src/server/crypto/key_manager.cpp:7-13 | the 64 characters of section 4 of RFC 4648, in order |
| Base64.Layout | src/server/crypto/key_manager.cpp:7-13 | every three bytes are written as four characters of six bits, most significant first, and characters that would hold only filling are "=" |
| Envelope.RoundTrip | src/server/crypto/message_crypto.cpp:8-101 | for every text, the empty one included, and matching keys, decrypting the encryption gives the text back |
| Envelope.KeyIff | src/server/crypto/key_manager.cpp:15-24 | a key is the base64 form of exactly 32 bytes |
| Envelope.EncryptIff | src/server/crypto/message_crypto.cpp:8-44 | encryption succeeds if and only if both keys are well formed and the box can be sealed, and gives the base64 form of nonce and box |
| Envelope.DecryptIff | src/server/crypto/message_crypto.cpp:46-101 | a ciphertext is accepted if and only if both keys are well formed and it is the base64 form of a 24-byte nonce and a box of at least 16 bytes that opens with them |
| Envelope.WireLength | src/server/crypto/message_crypto.cpp:28-43 | the wire form has 4 * ((n + 42) / 3) characters for n bytes and decodes to n + 40 |
| Envelope.DecodeFits | src/server/crypto/message_crypto.cpp:65-71 | a buffer as long as the base64 text always holds what it decodes to |
| Envelope.SealedIsReadable | src/server/main.cpp:265-268 | whatever a node encrypts to another, the other's decrypt_message reads: what the protocol assumes of its ciphertexts |
| Envelope.CopyInto | src/server/crypto/message_crypto.cpp:41-42 | copies the bytes to their place in the buffer and leaves the rest |
| Envelope.Wipe | src/server/crypto/message_crypto.cpp:35 | every byte of the key buffer is zero |
| Envelope.Base642Bin | src/server/crypto/key_manager.cpp:17-22 | fails exactly on malformed text or a buffer that is too small, and otherwise fills it with the decoded bytes |
| Envelope.Base64ToBin | src/server/crypto/key_manager.cpp:15-24 | succeeds exactly if the text decodes to as many bytes as the buffer holds |
| Envelope.Bin2Base64 | src/server/crypto/key_manager.cpp:10 | writes the encoding and a terminating zero |
| Envelope.BinToBase64 | src/server/crypto/key_manager.cpp:7-13 | the computed buffer length fits the encoding exactly |
| Envelope.EncryptMessage | src/server/crypto/message_crypto.cpp:8-44 | the buffer-filling code computes Encrypt, on which RoundTrip and WireLength are proved |
| Envelope.DecryptMessage | src/server/crypto/message_crypto.cpp:46-101 | the buffer-filling code computes Decrypt for every input, with no length underflow |
| Database.DbManager.AddMessage | src/db/db_manager.cpp:134-163 | inserts unless the id exists, with the columns the statement does not name at their defaults |
| Database.DbManager.MarkAccepted | src/db/db_manager.cpp:165-178 | marks the row of that id and recipient delivered, whatever its status |
| Database.DbManager.MarkFailed | src/db/db_manager.cpp:180-192 | marks the row failed, whatever its status |
| Database.DbManager.MarkDeleted | src/db/db_manager.cpp:194-206 | sets one row's status to deleted and nothing else |
| Database.DbManager.MarkDeletePending | src/db/db_manager.cpp:208-220 | makes one row's delete pending at the given time |
| Database.DbManager.MarkDeleteAccepted | src/db/db_manager.cpp:222-249 | both overloads |
| Database.DbManager.MarkEditAccepted | src/db/db_manager.cpp:265-292 | both overloads |
| Database.DbManager.MarkDeleteFailed | src/db/db_manager.cpp:251-263 | gives up on the delete |
| Database.DbManager.MarkEditFailed | src/db/db_manager.cpp:294-306 | gives up on the edit |
| Database.DbManager.UpdateMessageEdit | src/db/db_manager.cpp:338-356 | overwrites text, ciphertext and edit time and makes the edit pending |
| Database.DbManager.UpdateMessageEditFor | src/db/db_manager.cpp:358-377 | the same for a row addressed to the given member only |
| Database.DbManager.GetPending | src/db/db_manager.cpp:417-505 | the cursor loop returns every row that is pending in the given sense, exactly once, and no other |
| Database.DbManager.GetMessages | src/db/db_manager.cpp:560-594 | every visible message of the direct or group chat exactly once, in order of time |
| Database.DbManager.GetLatest | src/db/db_manager.cpp:947-976 | nothing if the chat shows nothing, and otherwise a visible message no other is later than |
| Database.DbManager.GetContactsWithLatestMessage | src/db/db_manager.cpp:507-558 | every contact exactly once, each with its preview |
| Database.DbManager.ReplaceGroupMembers | src/db/db_manager.cpp:853-890 | the delete-and-insert loop stores the list under its keys, other groups untouched, and reports success exactly if no id repeats |
| Database.DbManager.GetGroupMembers | src/db/db_manager.cpp:892-913 | every member of the group exactly once, oldest first |
| Database.DbManager.UpsertGroupUpdate | src/db/db_manager.cpp:978-999 | queues the snapshot for the member as pending, replacing an earlier one but keeping its created_at |
| Database.DbManager.MarkGroupUpdateAccepted | src/db/db_manager.cpp:1024-1037 | marks one queued update accepted |
| Database.DbManager.GetPendingGroupUpdates | src/db/db_manager.cpp:1001-1022 | exactly the updates not yet accepted, each once, oldest first |
| Database.DbManager.DeleteGroup | src/db/db_manager.cpp:835-851 | removes the group and its members, keeps its queued updates |
| Database.DbManager.CreateClient | src/db/db_manager.cpp:610-627 | inserts unless the id exists |
| Database.DbManager.DeleteClient | src/db/db_manager.cpp:651-661 | removes the row if there is one, and cannot fail |
| Database.DbManager.AddAuthRequest | src/db/db_manager.cpp:685-702 | inserts an unapproved request unless the id exists |
| Database.DbManager.ApproveAuthRequest | src/db/db_manager.cpp:742-758 | fills in client and secret of an existing request |
| Delivery.AcceptMessage | src/server/main.cpp:346-390 | the handler's effect and answer are those of Handle |
| Delivery.AcceptEdit | src/server/main.cpp:392-424 | the handler's effect and answer are those of Handle |
| Delivery.AcceptDelete | src/server/main.cpp:426-451 | the handler's effect and answer are those of Handle |
| Delivery.SendRequest | src/server/http_client.cpp:4-18 | a POST runs the peer's handler unless it is lost, and "200" is seen exactly if it was answered and came back |
| Delivery.RoutedMeans | src/db/db_manager.cpp:379-396 | a call can be made exactly to a contact that has an address |
| Delivery.Deliver | src/server/message_delivery.cpp:71-180 | the edit, delete and retry functions: nothing without an address, else one POST, and the flag flipped exactly on 200 |
| Delivery.DeliverMessage | src/server/message_delivery.cpp:40-69 | inserts the pending row first, posts, marks it delivered on 200, and returns the id exactly then: for a fresh readable message, if and only if the recipient is a contact with an address that answered |
| Delivery.SentMeans | src/server/message_delivery.cpp:40-69 | a send reports success if and only if neither end had the id and the recipient could read the message and answered, and then it is with both nodes, marked delivered, readable as sent |
| Delivery.SendRoute | src/server/main.cpp:250-277 | the route is the send step, and for a fresh readable message answers 200 if and only if the recipient is a contact with an address that answered |
| Delivery.EditRoute | src/server/main.cpp:279-315 | the route is the edit step, with its 404, 403, 400 and 200 exactly placed |
| Delivery.Tombstone | src/server/main.cpp:337-338 | the two statements set the status to deleted, the delete to pending and its time to now, and leave the rest of the row |
| Delivery.DeleteRoute | src/server/main.cpp:317-344 | the route is the delete step, with its 404, 403 and 200 exactly placed |
| RetryWorker.GiveUp | src/server/retry_worker.cpp:43-46 | marks the row failed in its own flag exactly if its message, edit or delete is more than 86400 s old |
| RetryWorker.RetryOne | src/server/retry_worker.cpp:38-49 | one loop body is one retry |
| RetryWorker.RetryList | src/server/retry_worker.cpp:38-73 | a loop over a list taken earlier is RetryAll, whatever happens to the table meanwhile |
| RetryWorker.TakeLists | src/server/retry_worker.cpp:11-36 | the four lists are the results of their queries, and the group updates are retried between them |
| RetryWorker.RunRound | src/server/retry_worker.cpp:10-73 | one pass of the worker is an enabled round of the protocol on messages and RetryUpdates on groups |
| RetryWorker.Reconcile | src/server/retry_worker.cpp:10-73 | running both nodes' workers once with every call answered, and then both history queries, gives both users the same messages |
| RetryWorker.ReconcileGroup | src/server/retry_worker.cpp:19-32 | after one pass of the writer's worker, over any network, all current members hold the writer's list if and only if each did before or is among the contacts and handled the retry |
| GroupDelivery.ReadMembers | src/server/main.cpp:872-880 | the loop keeps id, address and role of each entry in order |
| GroupDelivery.AcceptGroupUpdate | src/server/main.cpp:849-885 | creates or renames the group, replaces its members, and answers 500 exactly on a repeated id |
| GroupDelivery.DeliverTo | src/server/message_delivery.cpp:205-226 | queues the snapshot as pending, then posts it if there is an address, and marks it on 200 |
| GroupDelivery.DeliverGroupUpdate | src/server/message_delivery.cpp:182-228 | the fan-out loop and its flag are FanOut of the snapshot with the sender's id, its name for the group, the version and the list, on which FlagIsExact is proved |
| GroupDelivery.NotAContact | src/server/message_delivery.cpp:230-240 | a group member without an address in the contacts is never retried, whatever the network does |
| GroupDelivery.ContactIff | src/server/message_delivery.cpp:230-240 | after a round a member's update is accepted, and the member agrees, if and only if so before or the member is a contact that answered, respectively handled, the retry |
| GroupDelivery.NonContactHappens | src/server/message_delivery.cpp:230-232 | a run from empty nodes: a member who is not a contact misses the push, and a round whose every call would be answered leaves the group in disagreement |
| GroupDelivery.RetryGroupUpdate | src/server/message_delivery.cpp:230-240 | retries one queued snapshot at the contact's address |
| GroupDelivery.RetryGroupUpdates | src/server/retry_worker.cpp:23-32 | the worker's loop over queued snapshots is RetryUpdates |
| GroupRoutes.CreateGroupRoute | src/server/main.cpp:515-549 | the route is the create step: one member, the creator as admin |
| GroupRoutes.SetMemberAddress | src/server/main.cpp:564-571 | the search loop with break computes SetAddress and whether the id was found |
| GroupRoutes.AddMemberRoute | src/server/main.cpp:551-589 | the route is an enabled add step of the group protocol and reports the fan-out's flag |
| GroupRoutes.KeepOthers | src/server/main.cpp:600-603 | the filter loop computes Without |
| GroupRoutes.RemoveMemberRoute | src/server/main.cpp:591-618 | the route is an enabled remove step, reports the fan-out's flag, and answers 404 exactly for a non-member |
| GroupRoutes.SendToMember | src/server/main.cpp:680-722 | one loop body: nothing if encryption or the insert fails, else a stored row, a POST, and a mark on 200; for a fresh readable message, success if and only if there is an address and the member answered |
| GroupRoutes.AddresseesMean | src/server/main.cpp:683-688 | each member is called at the address in the list, or at the contact's if that is empty |
| GroupRoutes.SendGroupRoute | src/server/main.cpp:662-729 | the route is GroupSend over the members, 404 exactly for an empty group, and with a fresh id one send step of the protocol or nothing |
| GroupRoutes.EditGroupRoute | src/server/main.cpp:753-803 | the route is GroupEdit, with its 404 and 403 exactly placed, and in any state the protocol reaches one edit step for the message's recipient, or nothing if that one has left |
| GroupRoutes.DeleteGroupMessageRoute | src/server/main.cpp:805-847 | the route is GroupDelete, with its 404 and 403 exactly placed, and in any state the protocol reaches one delete step |
| Devices.Authenticate | src/server/auth.cpp:31-36 | true exactly for a stored client for which the hash of the secret with its salt is the stored one, and never for an empty id or secret |
| Devices.Hub.Close | src/server/main.cpp:192-201 | the closed connection leaves ws_clients and every client's list, everything else in place |
| Devices.Hub.Admit | src/server/main.cpp:219-223 | the connection joins ws_clients and its client's list |
| Devices.Hub.Evict | src/server/main.cpp:1082-1093 | the client's connections leave ws_clients, its list goes, and exactly they are returned for closing |
| Devices.RegisterRoute | src/server/main.cpp:926-943 | the route is Register |
| Devices.RequestRoute | src/server/main.cpp:945-979 | the route is RequestAccess |
| Devices.ApproveRoute | src/server/main.cpp:981-1021 | the route is Approve, with its answers exactly placed |
| Devices.PollRoute | src/server/main.cpp:1023-1050 | the route is Poll |
| Devices.RevokeRoute | src/server/main.cpp:1071-1098 | the route is Revoke, and what it closes is no longer broadcast to |
| Devices.AuthEvent | src/server/main.cpp:202-226 | a frame is admitted exactly if its secret hashes, with the client's salt, to the stored hash; then the connection is broadcast to and listed under the client, and otherwise nothing changes |

## Left out

- Crow routing, JSON parsing and its error answers, TLS, static files, console logging and the web UI: plumbing; the routes are modelled after parsing and, except for the device routes, after authentication.
- HTTP transport and SQLite internals: replaced by the three-outcome call and by maps.
- `deliver_group_message`, `retry_group_message`, `update_group_name` as a route, `get_groups`, `clients_list`, `get_contact_name` and the remote key lookup: not called by the protocol, or reads that would only add easy members.
- `generate_uuid`, `random_b64url` and the clock: parameters of the routes that use them; one clock reading serves a whole route.
- `cut_server_address` and DNS: an address is either empty or leads to its owner or nowhere; one that is only a scheme counts as unreachable.
- The WebSocket notifications themselves: the model keeps who would receive them.
- The worker's sleeping and shutdown: a run may contain a round at any moment and any time value.
- Key files, file permissions and libsodium's primitives; wiping a key buffer is modelled, but nothing is claimed about what remains in memory.
- 64-bit widths of timestamps: they are unbounded integers here.
- Zero bytes inside texts: SQLite's text binding would cut the stored text at the first one at both ends; the model stores it whole.
- Concurrent access to one database object within a handler: the methods run one at a time; what interleaving does to the tables is modelled in `Interleaving` and `GroupInterleaving`, on values.
- Two membership routes of one node overlapping between reading and storing the list: in `GroupInterleaving` a route may store any list.
- The two statements of group creation, and delete-and-insert in `replace_group_members`, are one step in `GroupInterleaving`.
- Several nodes changing the same group at once: the receiver keeps whichever snapshot arrives last.
- SingleWriter.MembersAgree: the writer's row order and joining times are not part of the agreement, because the receiver does not read `added_at`.
- Staleness.FreshRunsAgree: a sufficient condition on whole runs, because it is a rule a node could follow; the exact condition for each message is Overtaking.EditsAgreeIff.
