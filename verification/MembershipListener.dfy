/** What somebody who only hears membership's notifications makes of them: which nodes are live, and which
    stacks each of them runs. */
module MembershipListener {
  import opened Ids
  import opened Membership
  import SM = StackMachine
  import SchedulerRuns

  // ---- From notifications to scheduler messages ----

  function ToSet<T>(s: seq<T>): set<T> {
    set x | x in s
  }

  /** The messages the executor posts to the scheduler for one notification; stacks are listed in any order. */
  ghost predicate PostsOne(hash: Hasher, n: Notification, msgs: seq<SM.Message>) {
    match n
    case NodeDiscovered(address) => msgs == [SM.NodeDiscovered(hash(address))]
    case NodeDied(node, _) => msgs == [SM.NodeDied(node)]
    case NodeStacksChanged(node, added, removed) =>
      exists a: seq<StackID>, r: seq<StackID> :: PostsChange(node, added, removed, a, r, msgs)
  }

  ghost predicate PostsChange(
    node: NodeHash, added: set<StackID>, removed: set<StackID>, a: seq<StackID>, r: seq<StackID>, msgs: seq<SM.Message>)
  {
    && ToSet(a) == added && ToSet(r) == removed
    && msgs == Additions(node, added, a) + Removals(node, removed, r)
  }

  function Additions(node: NodeHash, added: set<StackID>, a: seq<StackID>): seq<SM.Message> {
    if added != {} then [SM.NodeDeployedStacks(node, a)] else []
  }

  function Removals(node: NodeHash, removed: set<StackID>, r: seq<StackID>): seq<SM.Message> {
    if removed != {} then [SM.NodeUndeployedStacks(node, r)] else []
  }

  ghost predicate Posts(hash: Hasher, notes: seq<Notification>, msgs: seq<SM.Message>)
    decreases |notes|, 1
  {
    if notes == [] then msgs == []
    else exists k :: 0 <= k <= |msgs| && PostsLast(hash, notes, msgs, k)
  }

  ghost predicate PostsLast(hash: Hasher, notes: seq<Notification>, msgs: seq<SM.Message>, k: nat)
    requires notes != [] && k <= |msgs|
    decreases |notes|, 0
  {
    Posts(hash, notes[..|notes| - 1], msgs[..k]) && PostsOne(hash, notes[|notes| - 1], msgs[k..])
  }

  predicate FromMembership(msg: SM.Message) {
    msg.NodeDiscovered? || msg.NodeDied? || msg.NodeDeployedStacks? || msg.NodeUndeployedStacks?
  }

  /** What membership contributed to a scheduler's mailbox, in order, amid ticks, definitions and removals. */
  function MembershipPart(events: seq<SchedulerRuns.Event>): seq<SM.Message> {
    if events == [] then []
    else
      var last := events[|events| - 1].msg;
      MembershipPart(events[..|events| - 1]) + if FromMembership(last) then [last] else []
  }

  // ---- Known nodes ----

  function KnownAfter(known: set<NodeHash>, msgs: seq<SM.Message>): set<NodeHash> {
    if msgs == [] then known
    else
      var before, last := KnownAfter(known, msgs[..|msgs| - 1]), msgs[|msgs| - 1];
      match last
      case NodeDiscovered(node) => before + {node}
      case NodeDied(node) => before - {node}
      case _ => before
  }

  lemma {:induction false} KnownAfterConcat(known: set<NodeHash>, first: seq<SM.Message>, second: seq<SM.Message>)
    ensures KnownAfter(known, first + second) == KnownAfter(KnownAfter(known, first), second)
    decreases |second|
  {
    if second == [] {
      assert first + second == first;
    } else {
      assert (first + second)[..|first + second| - 1] == first + second[..|second| - 1];
      KnownAfterConcat(known, first, second[..|second| - 1]);
    }
  }

  lemma {:induction false} KnownIgnoresOthers(id: StackID, l: SM.Local, events: seq<SchedulerRuns.Event>)
    ensures SchedulerRuns.Run(id, l, events).known == KnownAfter(l.known, MembershipPart(events))
  {
    if events != [] {
      var init, last := events[..|events| - 1], events[|events| - 1].msg;
      KnownIgnoresOthers(id, l, init);
      KnownAfterConcat(l.known, MembershipPart(init), if FromMembership(last) then [last] else []);
      KnownAfterOne(KnownAfter(l.known, MembershipPart(init)), last);
      KnownAfterStep(id, SchedulerRuns.Run(id, l, init), last, events[|events| - 1].ok);
    }
  }

  lemma {:induction false} KnownAfterStep(id: StackID, l: SM.Local, msg: SM.Message, ok: bool)
    ensures SM.StepLocal(id, l, msg, ok).known == match msg
      case NodeDiscovered(node) => l.known + {node}
      case NodeDied(node) => l.known - {node}
      case _ => l.known
  {
  }

  lemma {:induction false} KnownAfterOne(known: set<NodeHash>, msg: SM.Message)
    ensures KnownAfter(known, []) == known
    ensures KnownAfter(known, [msg]) == match msg
      case NodeDiscovered(node) => known + {node}
      case NodeDied(node) => known - {node}
      case _ => known
  {
    assert [msg][..0] == [];
  }

  lemma {:induction false} KnownAfterNews(known: set<NodeHash>, msgs: seq<SM.Message>)
    requires forall m <- msgs :: m.NodeDeployedStacks? || m.NodeUndeployedStacks?
    ensures KnownAfter(known, msgs) == known
  {
    if msgs != [] {
      KnownAfterNews(known, msgs[..|msgs| - 1]);
      assert msgs[|msgs| - 1] in msgs;
    }
  }

  lemma {:induction false} PostedKnown(
    hash: Hasher, known: set<NodeHash>, notes: seq<Notification>, msgs: seq<SM.Message>)
    requires Posts(hash, notes, msgs)
    ensures KnownAfter(known, msgs) == ReplayLive(hash, known, notes)
  {
    if notes != [] {
      var init, n := notes[..|notes| - 1], notes[|notes| - 1];
      var k :| 0 <= k <= |msgs| && PostsLast(hash, notes, msgs, k);
      PostedKnown(hash, known, init, msgs[..k]);
      assert msgs == msgs[..k] + msgs[k..];
      KnownAfterConcat(known, msgs[..k], msgs[k..]);
      var before := ReplayLive(hash, known, init);
      PostedOneKnown(hash, before, n, msgs[k..]);
    }
  }

  lemma {:induction false} PostedOneKnown(hash: Hasher, known: set<NodeHash>, n: Notification, msgs: seq<SM.Message>)
    requires PostsOne(hash, n, msgs)
    ensures KnownAfter(known, msgs) == ApplyNote(hash, known, n)
  {
    if n.NodeStacksChanged? {
      KnownAfterNews(known, msgs);
    } else {
      KnownAfterOne(known, msgs[0]);
      assert msgs == [msgs[0]];
    }
  }

  /** Whatever else a scheduler receives and in whatever order it is mixed in, its known nodes are the replay of
      the notifications. */
  lemma {:induction false} SchedulerFollowsReplay(
    hash: Hasher, id: StackID, l: SM.Local, events: seq<SchedulerRuns.Event>, notes: seq<Notification>)
    requires Posts(hash, notes, MembershipPart(events))
    ensures SchedulerRuns.Run(id, l, events).known == ReplayLive(hash, l.known, notes)
  {
    KnownIgnoresOthers(id, l, events);
    PostedKnown(hash, l.known, notes, MembershipPart(events));
  }

  // ---- Believed stacks ----

  /** The stacks a listener believes a node to run: changes are applied, and a death clears everything. */
  function Believed(node: NodeHash, belief: set<StackID>, notes: seq<Notification>): set<StackID> {
    if notes == [] then belief else Believe(node, Believed(node, belief, notes[..|notes| - 1]), notes[|notes| - 1])
  }

  function Believe(node: NodeHash, before: set<StackID>, note: Notification): set<StackID> {
    match note
    case NodeDiscovered(_) => before
    case NodeDied(n, _) => if n == node then {} else before
    case NodeStacksChanged(n, added, removed) => if n == node then before + added - removed else before
  }

  lemma {:induction false} BelievedConcat(
    node: NodeHash, belief: set<StackID>, first: seq<Notification>, second: seq<Notification>)
    ensures Believed(node, belief, first + second) == Believed(node, Believed(node, belief, first), second)
    decreases |second|
  {
    if second == [] {
      assert first + second == first;
    } else {
      assert (first + second)[..|first + second| - 1] == first + second[..|second| - 1];
      BelievedConcat(node, belief, first, second[..|second| - 1]);
    }
  }

  lemma {:induction false} BelievedPart(node: NodeHash, belief: set<StackID>, part: seq<Notification>)
    requires |part| <= 1
    ensures Believed(node, belief, part) == BelievePart(node, belief, part)
  {
    if part != [] {
      assert part[..0] == [];
    }
  }

  function BelievePart(node: NodeHash, belief: set<StackID>, part: seq<Notification>): set<StackID> {
    if part == [] then belief else Believe(node, belief, part[0])
  }

  lemma {:induction false} BelievedThree(
    node: NodeHash, belief: set<StackID>, a: seq<Notification>, b: seq<Notification>, c: seq<Notification>)
    requires |a| <= 1 && |b| <= 1 && |c| <= 1
    ensures Believed(node, belief, a + b + c) ==
      BelievePart(node, BelievePart(node, BelievePart(node, belief, a), b), c)
  {
    BelievedConcat(node, belief, a + b, c);
    BelievedConcat(node, belief, a, b);
    BelievedPart(node, belief, a);
    BelievedPart(node, BelievePart(node, belief, a), b);
    BelievedPart(node, Believed(node, belief, a + b), c);
  }

  // ---- The scheduler's record of holders is the listener's belief ----

  function HeldAfterAll(holders: set<NodeHash>, id: StackID, msgs: seq<SM.Message>): set<NodeHash> {
    if msgs == [] then holders
    else SchedulerRuns.HeldAfter(HeldAfterAll(holders, id, msgs[..|msgs| - 1]), id, msgs[|msgs| - 1])
  }

  lemma {:induction false} HeldConcat(
    holders: set<NodeHash>, id: StackID, first: seq<SM.Message>, second: seq<SM.Message>)
    ensures HeldAfterAll(holders, id, first + second) == HeldAfterAll(HeldAfterAll(holders, id, first), id, second)
    decreases |second|
  {
    if second == [] {
      assert first + second == first;
    } else {
      assert (first + second)[..|first + second| - 1] == first + second[..|second| - 1];
      HeldConcat(holders, id, first, second[..|second| - 1]);
    }
  }

  lemma {:induction false} HeldShort(holders: set<NodeHash>, id: StackID, msgs: seq<SM.Message>)
    requires |msgs| <= 2
    ensures HeldAfterAll(holders, id, msgs) ==
      if msgs == [] then holders
      else if |msgs| == 1 then SchedulerRuns.HeldAfter(holders, id, msgs[0])
      else SchedulerRuns.HeldAfter(SchedulerRuns.HeldAfter(holders, id, msgs[0]), id, msgs[1])
  {
    if msgs != [] {
      HeldShort(holders, id, msgs[..|msgs| - 1]);
    }
  }

  lemma {:induction false} HeldIgnoresOthers(holders: set<NodeHash>, id: StackID, events: seq<SchedulerRuns.Event>)
    requires forall e <- events :: !SchedulerRuns.Removes(e.msg, id)
    ensures SchedulerRuns.HeldReplay(holders, id, events) == HeldAfterAll(holders, id, MembershipPart(events))
  {
    if events != [] {
      var init, last := events[..|events| - 1], events[|events| - 1].msg;
      HeldIgnoresOthers(holders, id, init);
      assert events[|events| - 1] in events;
      var part := if FromMembership(last) then [last] else [];
      HeldConcat(holders, id, MembershipPart(init), part);
      HeldShort(HeldAfterAll(holders, id, MembershipPart(init)), id, part);
    }
  }

  lemma {:induction false} PostedOneHeld(
    hash: Hasher, id: StackID, holders: set<NodeHash>, n: Notification, msgs: seq<SM.Message>, h: NodeHash,
    belief: set<StackID>)
    requires PostsOne(hash, n, msgs) && (h in holders <==> id in belief)
    ensures h in HeldAfterAll(holders, id, msgs) <==> id in Believe(h, belief, n)
  {
    if n.NodeStacksChanged? {
      var a: seq<StackID>, r: seq<StackID> :| PostsChange(n.node, n.added, n.removed, a, r, msgs);
      ChangeHeld(id, holders, n.node, n.added, n.removed, a, r, h);
    } else {
      HeldShort(holders, id, msgs);
    }
  }

  /** Additions are posted before removals, so a stack in both counts as removed. */
  lemma {:induction false} ChangeHeld(
    id: StackID, holders: set<NodeHash>, node: NodeHash, added: set<StackID>, removed: set<StackID>,
    a: seq<StackID>, r: seq<StackID>, h: NodeHash)
    requires ToSet(a) == added && ToSet(r) == removed
    ensures h in HeldAfterAll(holders, id, Additions(node, added, a) + Removals(node, removed, r)) <==>
      if h != node then h in holders else id !in removed && (id in added || h in holders)
  {
    var mid := HeldAfterAll(holders, id, Additions(node, added, a));
    HeldConcat(holders, id, Additions(node, added, a), Removals(node, removed, r));
    AdditionHeld(id, holders, node, added, a, h);
    RemovalHeld(id, mid, node, removed, r, h);
  }

  lemma {:induction false} AdditionHeld(
    id: StackID, holders: set<NodeHash>, node: NodeHash, added: set<StackID>, a: seq<StackID>, h: NodeHash)
    requires ToSet(a) == added
    ensures h in HeldAfterAll(holders, id, Additions(node, added, a)) <==> h in holders || (h == node && id in added)
  {
    assert id in a <==> id in added;
    HeldShort(holders, id, Additions(node, added, a));
  }

  lemma {:induction false} RemovalHeld(
    id: StackID, holders: set<NodeHash>, node: NodeHash, removed: set<StackID>, r: seq<StackID>, h: NodeHash)
    requires ToSet(r) == removed
    ensures h in HeldAfterAll(holders, id, Removals(node, removed, r)) <==>
      h in holders && !(h == node && id in removed)
  {
    assert id in r <==> id in removed;
    HeldShort(holders, id, Removals(node, removed, r));
  }

  lemma {:induction false} PostedHeld(
    hash: Hasher, id: StackID, holders: set<NodeHash>, notes: seq<Notification>, msgs: seq<SM.Message>, h: NodeHash,
    belief: set<StackID>)
    requires Posts(hash, notes, msgs) && (h in holders <==> id in belief)
    ensures h in HeldAfterAll(holders, id, msgs) <==> id in Believed(h, belief, notes)
  {
    if notes != [] {
      var init, n := notes[..|notes| - 1], notes[|notes| - 1];
      var k :| 0 <= k <= |msgs| && PostsLast(hash, notes, msgs, k);
      PostedHeld(hash, id, holders, init, msgs[..k], h, belief);
      assert msgs == msgs[..k] + msgs[k..];
      HeldConcat(holders, id, msgs[..k], msgs[k..]);
      PostedOneHeld(hash, id, HeldAfterAll(holders, id, msgs[..k]), n, msgs[k..], h, Believed(h, belief, init));
    }
  }

  /** Until the stack itself is removed, the scheduler records a node as holder exactly when the notifications
      say that the node runs the stack, whatever else the scheduler receives or decides in between. */
  lemma {:induction false} SchedulerRecordsBelief(
    hash: Hasher, id: StackID, l: SM.Local, events: seq<SchedulerRuns.Event>, notes: seq<Notification>,
    h: NodeHash, belief: set<StackID>)
    requires Posts(hash, notes, MembershipPart(events))
    requires forall e <- events :: !SchedulerRuns.Removes(e.msg, id)
    requires h in SchedulerRuns.Recorded(l.view) <==> id in belief
    ensures h in SchedulerRuns.Recorded(SchedulerRuns.Run(id, l, events).view) <==> id in Believed(h, belief, notes)
  {
    var held := SchedulerRuns.Recorded(l.view);
    SchedulerRuns.EveryRunRecordsNews(id, l, events);
    HeldIgnoresOthers(held, id, events);
    PostedHeld(hash, id, held, notes, MembershipPart(events), h, belief);
  }

  // ---- Belief over all updates of an endpoint ----

  /** What one update finds for an endpoint: the visible table entry, if any, and the time. */
  datatype Sighting = Sighting(status: Option<NodeStatus>, now: int)

  /** What is known about the endpoint after these updates, and everything that was sent about it. `start` is
      what start-up found. */
  function Watched(hash: Hasher, start: Option<RemoteNodeInfo>, assumeDeadAfter: int, run: seq<Sighting>)
    : (Option<RemoteNodeInfo>, seq<Notification>)
  {
    if run == [] then (start, [])
    else
      var before, last := Watched(hash, start, assumeDeadAfter, run[..|run| - 1]), run[|run| - 1];
      var r := UpdateEndpoint(hash, before.0, last.status, assumeDeadAfter, last.now);
      (r.0, before.1 + r.1)
  }

  /** The stacks of a node known at start-up are handed to the listener, unless the node is dead. */
  function BelievedAtStart(hash: Hasher, start: Option<RemoteNodeInfo>, node: NodeHash): set<StackID> {
    if start.Some? && start.value.deadReason.None? && hash(start.value.address) == node
    then start.value.deployedStacks else {}
  }

  function StacksOf(info: Option<RemoteNodeInfo>): set<StackID> {
    if info.Some? then info.value.deployedStacks else {}
  }

  /** The endpoint's node is there for the first time, or it has just died: whatever it runs at this moment, the
      listener does not know, or no longer. */
  predicate Silent(before: Option<RemoteNodeInfo>, after: RemoteNodeInfo) {
    || before.None? || before.value.address != after.address
    || (before.value.deadReason.None? && after.deadReason.Some?)
  }

  /** The stacks the node has been running, by its entries, ever since that moment. */
  function Unheard(
    hash: Hasher, start: Option<RemoteNodeInfo>, assumeDeadAfter: int, run: seq<Sighting>): set<StackID>
  {
    if run == [] then if start.Some? && start.value.deadReason.Some? then start.value.deployedStacks else {}
    else
      var init := run[..|run| - 1];
      var before, after := Watched(hash, start, assumeDeadAfter, init).0, Watched(hash, start, assumeDeadAfter, run).0;
      UnheardAfter(before, after, Unheard(hash, start, assumeDeadAfter, init))
  }

  function UnheardAfter(
    before: Option<RemoteNodeInfo>, after: Option<RemoteNodeInfo>, unheard: set<StackID>): set<StackID>
  {
    if after.None? then {}
    else if Silent(before, after.value) then after.value.deployedStacks
    else unheard * after.value.deployedStacks
  }

  /** Entries of an endpoint, and what was known at start-up, never get older: `MembershipStore` proves it of the
      shared table. */
  ghost predicate NeverOlder(start: Option<RemoteNodeInfo>, run: seq<Sighting>) {
    && (forall i, j :: 0 <= i < j < |run| && run[i].status.Some? && run[j].status.Some? ==>
          run[i].status.value.address.generation <= run[j].status.value.address.generation)
    && (start.Some? ==> forall s <- run :: s.status.Some? ==>
          start.value.address.generation <= s.status.value.address.generation)
  }

  /** All about one endpoint, with addresses that do not collide. */
  ghost predicate Concerns(e: Endpoint, inUse: set<NodeAddress>, start: Option<RemoteNodeInfo>, run: seq<Sighting>) {
    && (start.Some? ==> start.value.address in inUse && start.value.address.endpoint == e)
    && (forall s <- run :: s.status.Some? ==> s.status.value.address in inUse && s.status.value.address.endpoint == e)
  }

  /** What stays believed of an address after its node is no longer known: nothing if the node was live when a newer
      incarnation replaced it, or if its entry vanished, since both are announced as its death; but the replacement
      of a node that is already dead is not announced. */
  function Lingering(
    hash: Hasher, start: Option<RemoteNodeInfo>, assumeDeadAfter: int, run: seq<Sighting>, a: NodeAddress): set<StackID>
  {
    if run == [] then {}
    else
      var init, last := run[..|run| - 1], run[|run| - 1];
      var before, after := Watched(hash, start, assumeDeadAfter, init).0, Watched(hash, start, assumeDeadAfter, run).0;
      LingeringAfter(before, after, last, Unheard(hash, start, assumeDeadAfter, init),
        Lingering(hash, start, assumeDeadAfter, init, a), a)
  }

  function LingeringAfter(
    before: Option<RemoteNodeInfo>, after: Option<RemoteNodeInfo>, last: Sighting, unheard: set<StackID>,
    lingering: set<StackID>, a: NodeAddress): set<StackID>
  {
    if Is(after, a) then {}
    else if Is(before, a) then
      if last.status.Some? && before.value.deadReason.Some? then before.value.deployedStacks - unheard else {}
    else lingering
  }

  predicate Is(info: Option<RemoteNodeInfo>, a: NodeAddress) {
    info.Some? && info.value.address == a
  }

  /** What is believed of an address: known or not. */
  function Due(
    info: Option<RemoteNodeInfo>, unheard: set<StackID>, lingering: set<StackID>, a: NodeAddress): set<StackID>
  {
    if Is(info, a) then info.value.deployedStacks - unheard else lingering
  }

  /** The address may still turn up: nothing newer was seen. */
  ghost predicate Upcoming(start: Option<RemoteNodeInfo>, run: seq<Sighting>, a: NodeAddress) {
    && (start.Some? ==> start.value.address.generation <= a.generation)
    && (forall s <- run :: s.status.Some? ==> s.status.value.address.generation <= a.generation)
  }

  /** An update of a known incarnation. */
  lemma {:induction false} SameGenerationBelief(
    hash: Hasher, prev: RemoteNodeInfo, status: NodeStatus, dead: Option<DeadReason>, belief: set<StackID>)
    requires prev.address == status.address
    ensures
      var notes := Compare(hash, Some(prev), status, dead).1;
      Believed(hash(prev.address), belief, notes) ==
        if dead.Some? && prev.deadReason.None? then {}
        else belief + (status.deployedStacks - prev.deployedStacks) - (prev.deployedStacks - status.deployedStacks)
  {
    var h := hash(prev.address);
    var a, b, c := BackToLife(prev, status, dead), StacksChanged(hash, prev, status), Died(hash, prev, dead);
    BelievedThree(h, belief, a, b, c);
    var added, removed := status.deployedStacks - prev.deployedStacks, prev.deployedStacks - status.deployedStacks;
    assert BelievePart(h, belief, a) == belief;
    assert BelievePart(h, belief, b) == belief + added - removed;
  }

  /** A notification about somebody else changes no belief. */
  lemma {:induction false} OthersKeepBelief(h: NodeHash, belief: set<StackID>, notes: seq<Notification>)
    requires forall n <- notes :: (n.NodeDied? || n.NodeStacksChanged?) ==> n.node != h
    ensures Believed(h, belief, notes) == belief
  {
    if notes != [] {
      assert notes[|notes| - 1] in notes;
      OthersKeepBelief(h, belief, notes[..|notes| - 1]);
    }
  }

  /** Notifications of an update name only the node known before it. */
  lemma {:induction false} NotesNameKnown(
    hash: Hasher, existing: Option<RemoteNodeInfo>, status: Option<NodeStatus>, assumeDeadAfter: int, now: int)
    requires existing.Some? && status.Some? ==> existing.value.address.endpoint == status.value.address.endpoint
    ensures
      forall n <- UpdateEndpoint(hash, existing, status, assumeDeadAfter, now).1 ::
        (n.NodeDied? || n.NodeStacksChanged?) ==>
        existing.Some? && n.node == hash(existing.value.address)
  {
  }

  /** What is known about the endpoint is of the newest generation seen. */
  lemma {:induction false} WatchedIsNewest(
    hash: Hasher, e: Endpoint, inUse: set<NodeAddress>, start: Option<RemoteNodeInfo>, assumeDeadAfter: int,
    run: seq<Sighting>)
    requires Concerns(e, inUse, start, run) && NeverOlder(start, run)
    ensures
      var info := Watched(hash, start, assumeDeadAfter, run).0;
      info.Some? ==>
        && info.value.address in inUse && info.value.address.endpoint == e
        && Upcoming(start, run, info.value.address)
  {
    WatchedWasSeen(hash, start, assumeDeadAfter, run);
    if run != [] && run[|run| - 1].status.Some? {
      var before := Watched(hash, start, assumeDeadAfter, run[..|run| - 1]).0;
      WatchedNotNewer(hash, e, inUse, start, assumeDeadAfter, run);
      WatchedInUse(hash, e, inUse, start, assumeDeadAfter, run);
      NewestIsUpcoming(start, run);
      KeepsOrTakes(hash, before, run[|run| - 1], assumeDeadAfter);
    }
  }

  lemma {:induction false} WatchedInUse(
    hash: Hasher, e: Endpoint, inUse: set<NodeAddress>, start: Option<RemoteNodeInfo>, assumeDeadAfter: int,
    run: seq<Sighting>)
    requires Concerns(e, inUse, start, run) && run != []
    ensures
      var before := Watched(hash, start, assumeDeadAfter, run[..|run| - 1]).0;
      before.Some? ==> before.value.address in inUse && before.value.address.endpoint == e
    ensures run[|run| - 1].status.Some? ==> run[|run| - 1].status.value.address.endpoint == e
  {
    assert run[|run| - 1] in run && forall s <- run[..|run| - 1] :: s in run;
    WatchedWasSeen(hash, start, assumeDeadAfter, run[..|run| - 1]);
  }

  lemma {:induction false} KeepsOrTakes(
    hash: Hasher, before: Option<RemoteNodeInfo>, last: Sighting, assumeDeadAfter: int)
    requires last.status.Some?
    requires before.Some? ==> before.value.address.endpoint == last.status.value.address.endpoint
    requires before.Some? ==> before.value.address.generation <= last.status.value.address.generation
    ensures
      var info := UpdateEndpoint(hash, before, last.status, assumeDeadAfter, last.now).0;
      info.Some? ==> info.value.address == last.status.value.address
  {
  }

  lemma {:induction false} NewestIsUpcoming(start: Option<RemoteNodeInfo>, run: seq<Sighting>)
    requires NeverOlder(start, run) && run != [] && run[|run| - 1].status.Some?
    ensures Upcoming(start, run, run[|run| - 1].status.value.address)
  {
    assert run[|run| - 1] in run;
    forall s | s in run && s.status.Some?
      ensures s.status.value.address.generation <= run[|run| - 1].status.value.address.generation
    {
      var i :| 0 <= i < |run| && run[i] == s;
    }
  }

  lemma {:induction false} PrefixConcerns(
    e: Endpoint, inUse: set<NodeAddress>, start: Option<RemoteNodeInfo>, run: seq<Sighting>, a: NodeAddress)
    requires Concerns(e, inUse, start, run) && NeverOlder(start, run) && run != []
    ensures Concerns(e, inUse, start, run[..|run| - 1]) && NeverOlder(start, run[..|run| - 1])
    ensures Upcoming(start, run, a) ==> Upcoming(start, run[..|run| - 1], a)
    ensures Upcoming(start, run, a) && run[|run| - 1].status.Some? ==>
      run[|run| - 1].status.value.address.generation <= a.generation
    ensures run[|run| - 1].status.Some? ==>
      run[|run| - 1].status.value.address in inUse && run[|run| - 1].status.value.address.endpoint == e
  {
    assert forall s <- run[..|run| - 1] :: s in run;
    assert run[|run| - 1] in run;
  }

  /** Nothing lingers of an incarnation that may still come. */
  lemma {:induction false} LingeringIsOld(
    hash: Hasher, e: Endpoint, inUse: set<NodeAddress>, start: Option<RemoteNodeInfo>, assumeDeadAfter: int,
    run: seq<Sighting>, a: NodeAddress)
    requires Concerns(e, inUse, start, run) && NeverOlder(start, run)
    requires a.endpoint == e && Upcoming(start, run, a)
    ensures Lingering(hash, start, assumeDeadAfter, run, a) == {}
  {
    if run != [] {
      PrefixConcerns(e, inUse, start, run, a);
      LingeringIsOld(hash, e, inUse, start, assumeDeadAfter, run[..|run| - 1], a);
      if run[|run| - 1].status.Some? {
        WatchedNotNewer(hash, e, inUse, start, assumeDeadAfter, run);
      }
    }
  }

  /** After every sequence of updates of an endpoint and for every incarnation of it: of the known one, live or dead,
      the listener believes that it runs what its entry says except the stacks it never heard of; of any other, it
      believes what lingers. */
  lemma {:induction false} BeliefAfterUpdates(
    hash: Hasher, e: Endpoint, inUse: set<NodeAddress>, start: Option<RemoteNodeInfo>, assumeDeadAfter: int,
    run: seq<Sighting>, a: NodeAddress)
    requires Concerns(e, inUse, start, run) && NeverOlder(start, run) && CollisionFree(hash, inUse)
    requires a in inUse && a.endpoint == e
    ensures
      var w, unheard := Watched(hash, start, assumeDeadAfter, run), Unheard(hash, start, assumeDeadAfter, run);
      Believed(hash(a), BelievedAtStart(hash, start, hash(a)), w.1) ==
        Due(w.0, unheard, Lingering(hash, start, assumeDeadAfter, run, a), a)
  {
    if run == [] {
      assert start.Some? && hash(start.value.address) == hash(a) ==> start.value.address == a;
    } else {
      var init, last := run[..|run| - 1], run[|run| - 1];
      PrefixConcerns(e, inUse, start, run, a);
      BeliefAfterUpdates(hash, e, inUse, start, assumeDeadAfter, init, a);
      var before, unheard := Watched(hash, start, assumeDeadAfter, init), Unheard(hash, start, assumeDeadAfter, init);
      var r := UpdateEndpoint(hash, before.0, last.status, assumeDeadAfter, last.now);
      BelievedConcat(hash(a), BelievedAtStart(hash, start, hash(a)), before.1, r.1);
      BeforeUpdate(hash, e, inUse, start, assumeDeadAfter, run, a);
      OneUpdate(hash, e, inUse, before.0, unheard, Lingering(hash, start, assumeDeadAfter, init, a), last,
        assumeDeadAfter, a);
    }
  }

  /** What holds before the last update. */
  lemma {:induction false} BeforeUpdate(
    hash: Hasher, e: Endpoint, inUse: set<NodeAddress>, start: Option<RemoteNodeInfo>, assumeDeadAfter: int,
    run: seq<Sighting>, a: NodeAddress)
    requires Concerns(e, inUse, start, run) && NeverOlder(start, run) && run != [] && a.endpoint == e
    ensures
      var init, last := run[..|run| - 1], run[|run| - 1];
      var before := Watched(hash, start, assumeDeadAfter, init).0;
      && (before.Some? ==> before.value.address in inUse && before.value.address.endpoint == e)
      && (last.status.Some? ==> last.status.value.address.endpoint == e)
      && (before.Some? && last.status.Some? ==>
            before.value.address.generation <= last.status.value.address.generation)
      && Unheard(hash, start, assumeDeadAfter, init) <= StacksOf(before)
      && (last.status.Some? && last.status.value.address == a ==>
            Lingering(hash, start, assumeDeadAfter, init, a) == {})
  {
    var init, last := run[..|run| - 1], run[|run| - 1];
    PrefixConcerns(e, inUse, start, run, a);
    WatchedIsNewest(hash, e, inUse, start, assumeDeadAfter, init);
    UnheardAreRunning(hash, start, assumeDeadAfter, init);
    if last.status.Some? {
      WatchedNotNewer(hash, e, inUse, start, assumeDeadAfter, run);
      NewestIsUpcoming(start, run);
      if last.status.value.address == a {
        LingeringIsOld(hash, e, inUse, start, assumeDeadAfter, init, a);
      }
    }
  }

  /** One update, given a right belief before it. */
  lemma {:induction false} OneUpdate(
    hash: Hasher, e: Endpoint, inUse: set<NodeAddress>, before: Option<RemoteNodeInfo>, unheard: set<StackID>,
    lingering: set<StackID>, last: Sighting, assumeDeadAfter: int, a: NodeAddress)
    requires CollisionFree(hash, inUse) && a in inUse && a.endpoint == e && unheard <= StacksOf(before)
    requires before.Some? ==> before.value.address in inUse && before.value.address.endpoint == e
    requires last.status.Some? ==> last.status.value.address.endpoint == e
    requires before.Some? && last.status.Some? ==>
      before.value.address.generation <= last.status.value.address.generation
    requires last.status.Some? && last.status.value.address == a ==> lingering == {}
    ensures
      var r := UpdateEndpoint(hash, before, last.status, assumeDeadAfter, last.now);
      Believed(hash(a), Due(before, unheard, lingering, a), r.1) ==
        Due(r.0, UnheardAfter(before, r.0, unheard), LingeringAfter(before, r.0, last, unheard, lingering, a), a)
  {
    if Is(before, a) {
      KnownUpdated(hash, before.value, unheard, last, assumeDeadAfter);
    } else {
      OtherUpdated(hash, inUse, before, last, assumeDeadAfter, a, lingering);
      if last.status.Some? {
        KeepsOrTakes(hash, before, last, assumeDeadAfter);
      }
    }
  }

  lemma {:induction false} WatchedNotNewer(
    hash: Hasher, e: Endpoint, inUse: set<NodeAddress>, start: Option<RemoteNodeInfo>, assumeDeadAfter: int,
    run: seq<Sighting>)
    requires Concerns(e, inUse, start, run) && NeverOlder(start, run) && run != [] && run[|run| - 1].status.Some?
    ensures
      var before := Watched(hash, start, assumeDeadAfter, run[..|run| - 1]).0;
      before.Some? ==> before.value.address.generation <= run[|run| - 1].status.value.address.generation
  {
    var a := run[|run| - 1].status.value.address;
    NewestIsUpcoming(start, run);
    WatchedWasSeen(hash, start, assumeDeadAfter, run[..|run| - 1]);
  }

  /** What is known of an endpoint was found at start-up or by one of the updates. */
  lemma {:induction false} WatchedWasSeen(
    hash: Hasher, start: Option<RemoteNodeInfo>, assumeDeadAfter: int, run: seq<Sighting>)
    ensures
      var info := Watched(hash, start, assumeDeadAfter, run).0;
      info.Some? ==>
        || (start.Some? && start.value.address == info.value.address)
        || exists s <- run :: s.status.Some? && s.status.value.address == info.value.address
  {
    if run != [] {
      WatchedWasSeen(hash, start, assumeDeadAfter, run[..|run| - 1]);
      assert run[|run| - 1] in run;
    }
  }

  lemma {:induction false} UnheardAreRunning(
    hash: Hasher, start: Option<RemoteNodeInfo>, assumeDeadAfter: int, run: seq<Sighting>)
    ensures Unheard(hash, start, assumeDeadAfter, run) <= StacksOf(Watched(hash, start, assumeDeadAfter, run).0)
  {
  }

  /** One update of a known incarnation, given a right belief before it. */
  lemma {:induction false} KnownUpdated(
    hash: Hasher, before: RemoteNodeInfo, unheard: set<StackID>, last: Sighting, assumeDeadAfter: int)
    requires unheard <= before.deployedStacks
    requires last.status.Some? ==> last.status.value.address.endpoint == before.address.endpoint
    requires last.status.Some? ==> before.address.generation <= last.status.value.address.generation
    ensures
      var r := UpdateEndpoint(hash, Some(before), last.status, assumeDeadAfter, last.now);
      var belief := before.deployedStacks - unheard;
      Believed(hash(before.address), belief, r.1) ==
        if r.0.Some? && r.0.value.address == before.address
        then r.0.value.deployedStacks - UnheardAfter(Some(before), r.0, unheard)
        else if last.status.Some? && before.deadReason.Some? then belief else {}
  {
    var h, belief := hash(before.address), before.deployedStacks - unheard;
    if last.status.None? {
      BelievedPart(h, belief, UpdateEndpoint(hash, Some(before), last.status, assumeDeadAfter, last.now).1);
    } else {
      var status := last.status.value;
      var dead := GetDeadReason(assumeDeadAfter, last.now, status);
      if status.address == before.address {
        SameGenerationBelief(hash, before, status, dead, belief);
      } else {
        ReplacementBelief(hash, before, status, dead, belief);
      }
    }
  }

  /** A replacement clears the belief about a live node and leaves that about a dead one. */
  lemma {:induction false} ReplacementBelief(
    hash: Hasher, prev: RemoteNodeInfo, status: NodeStatus, dead: Option<DeadReason>, belief: set<StackID>)
    requires prev.address.generation < status.address.generation
    ensures Believed(hash(prev.address), belief, Compare(hash, Some(prev), status, dead).1) ==
      if prev.deadReason.Some? then belief else {}
  {
    var h := hash(prev.address);
    var a := if prev.deadReason.None? then [NodeDied(h, ReplacedByNewGeneration)] else [];
    var b := if dead.None? then [NodeDiscovered(status.address)] else [];
    assert Compare(hash, Some(prev), status, dead).1 == a + b + [];
    BelievedThree(h, belief, a, b, []);
  }

  /** An update while another incarnation, or none, is known. */
  lemma {:induction false} OtherUpdated(
    hash: Hasher, inUse: set<NodeAddress>, before: Option<RemoteNodeInfo>, last: Sighting, assumeDeadAfter: int,
    a: NodeAddress, belief: set<StackID>)
    requires CollisionFree(hash, inUse) && a in inUse && (before.Some? ==> before.value.address in inUse)
    requires before.Some? ==> before.value.address != a
    requires before.Some? && last.status.Some? ==>
      before.value.address.endpoint == last.status.value.address.endpoint
    ensures Believed(hash(a), belief, UpdateEndpoint(hash, before, last.status, assumeDeadAfter, last.now).1) == belief
  {
    NotesNameKnown(hash, before, last.status, assumeDeadAfter, last.now);
    OthersKeepBelief(hash(a), belief, UpdateEndpoint(hash, before, last.status, assumeDeadAfter, last.now).1);
  }

  /** So the belief about the node known at the endpoint is right exactly when nothing it runs is unheard of. */
  lemma {:induction false} BeliefExact(
    hash: Hasher, e: Endpoint, inUse: set<NodeAddress>, start: Option<RemoteNodeInfo>, assumeDeadAfter: int,
    run: seq<Sighting>)
    requires Concerns(e, inUse, start, run) && NeverOlder(start, run) && CollisionFree(hash, inUse)
    requires Watched(hash, start, assumeDeadAfter, run).0.Some?
    ensures
      var w, unheard := Watched(hash, start, assumeDeadAfter, run), Unheard(hash, start, assumeDeadAfter, run);
      var h, runs := hash(w.0.value.address), w.0.value.deployedStacks;
      var believed := Believed(h, BelievedAtStart(hash, start, h), w.1);
      believed == runs - unheard && (believed == runs <==> unheard == {})
  {
    var a := Watched(hash, start, assumeDeadAfter, run).0.value.address;
    WatchedIsNewest(hash, e, inUse, start, assumeDeadAfter, run);
    BeliefAfterUpdates(hash, e, inUse, start, assumeDeadAfter, run, a);
    UnheardAreRunning(hash, start, assumeDeadAfter, run);
  }

  // ---- Replaced incarnations ----

  /** One of the first `n` updates showed something newer than the address. */
  ghost predicate Superseded(run: seq<Sighting>, n: nat, a: NodeAddress)
    requires n <= |run|
  {
    exists i :: 0 <= i < n && run[i].status.Some? && run[i].status.value.address.generation > a.generation
  }

  /** A superseded incarnation is never known again. */
  lemma {:induction false} SupersededIsUnknown(
    hash: Hasher, e: Endpoint, inUse: set<NodeAddress>, start: Option<RemoteNodeInfo>, assumeDeadAfter: int,
    run: seq<Sighting>, n: nat, a: NodeAddress)
    requires Concerns(e, inUse, start, run) && NeverOlder(start, run) && n <= |run| && Superseded(run, n, a)
    ensures !Is(Watched(hash, start, assumeDeadAfter, run[..n]).0, a)
  {
    ConcernsPrefix(e, inUse, start, run, n);
    WatchedIsNewest(hash, e, inUse, start, assumeDeadAfter, run[..n]);
    var i :| 0 <= i < n && run[i].status.Some? && run[i].status.value.address.generation > a.generation;
    assert run[..n][i] in run[..n];
  }

  lemma {:induction false} LingeringOneMore(
    hash: Hasher, start: Option<RemoteNodeInfo>, assumeDeadAfter: int, run: seq<Sighting>, k: nat, a: NodeAddress)
    requires 0 < k <= |run|
    requires !Is(Watched(hash, start, assumeDeadAfter, run[..k - 1]).0, a)
    requires !Is(Watched(hash, start, assumeDeadAfter, run[..k]).0, a)
    ensures Lingering(hash, start, assumeDeadAfter, run[..k], a) ==
      Lingering(hash, start, assumeDeadAfter, run[..k - 1], a)
  {
    assert run[..k][..k - 1] == run[..k - 1];
  }

  /** And what lingers of it never changes. */
  lemma {:induction false} LingeringStays(
    hash: Hasher, e: Endpoint, inUse: set<NodeAddress>, start: Option<RemoteNodeInfo>, assumeDeadAfter: int,
    run: seq<Sighting>, n: nat, k: nat, a: NodeAddress)
    requires Concerns(e, inUse, start, run) && NeverOlder(start, run) && n <= k <= |run| && Superseded(run, n, a)
    ensures Lingering(hash, start, assumeDeadAfter, run[..k], a) == Lingering(hash, start, assumeDeadAfter, run[..n], a)
    decreases k
  {
    if n < k {
      LingeringStays(hash, e, inUse, start, assumeDeadAfter, run, n, k - 1, a);
      SupersededIsUnknown(hash, e, inUse, start, assumeDeadAfter, run, k - 1, a);
      SupersededIsUnknown(hash, e, inUse, start, assumeDeadAfter, run, k, a);
      LingeringOneMore(hash, start, assumeDeadAfter, run, k, a);
    }
  }

  /** What lingers of the incarnation that the `n`th update replaces. */
  lemma {:induction false} LingeringAtReplacement(
    hash: Hasher, e: Endpoint, inUse: set<NodeAddress>, start: Option<RemoteNodeInfo>, assumeDeadAfter: int,
    run: seq<Sighting>, n: nat)
    requires Concerns(e, inUse, start, run) && NeverOlder(start, run)
    requires 0 < n <= |run| && Replaces(hash, start, assumeDeadAfter, run[..n - 1], run[n - 1])
    ensures
      var prev := Watched(hash, start, assumeDeadAfter, run[..n - 1]).0.value;
      && Superseded(run, n, prev.address)
      && Lingering(hash, start, assumeDeadAfter, run[..n], prev.address) ==
        if prev.deadReason.Some? then prev.deployedStacks - Unheard(hash, start, assumeDeadAfter, run[..n - 1]) else {}
  {
    var a := Watched(hash, start, assumeDeadAfter, run[..n - 1]).0.value.address;
    assert run[..n][..n - 1] == run[..n - 1] && run[..n][n - 1] == run[n - 1];
    SupersededIsUnknown(hash, e, inUse, start, assumeDeadAfter, run, n, a);
  }

  /** The sighting shows a newer incarnation of a node known after these updates. */
  ghost predicate Replaces(
    hash: Hasher, start: Option<RemoteNodeInfo>, assumeDeadAfter: int, run: seq<Sighting>, newer: Sighting)
  {
    var known := Watched(hash, start, assumeDeadAfter, run).0;
    known.Some? && newer.status.Some? && known.value.address.generation < newer.status.value.address.generation
  }

  /** What is believed of an incarnation once the `n`th update shows a newer one in its place, and for ever after:
      nothing if it was live, and otherwise what it ran then except what was unheard of. So it is believed to run
      nothing exactly when it was live or nothing of what it ran had been heard. */
  lemma {:induction false} ReplacedForever(
    hash: Hasher, e: Endpoint, inUse: set<NodeAddress>, start: Option<RemoteNodeInfo>, assumeDeadAfter: int,
    run: seq<Sighting>, n: nat)
    requires Concerns(e, inUse, start, run) && NeverOlder(start, run) && CollisionFree(hash, inUse)
    requires 0 < n <= |run| && Replaces(hash, start, assumeDeadAfter, run[..n - 1], run[n - 1])
    ensures
      var prev := Watched(hash, start, assumeDeadAfter, run[..n - 1]).0.value;
      var unheard, h := Unheard(hash, start, assumeDeadAfter, run[..n - 1]), hash(prev.address);
      var believed := Believed(h, BelievedAtStart(hash, start, h), Watched(hash, start, assumeDeadAfter, run).1);
      && believed == (if prev.deadReason.Some? then prev.deployedStacks - unheard else {})
      && (believed == {} <==> prev.deadReason.None? || unheard == prev.deployedStacks)
  {
    var prev := Watched(hash, start, assumeDeadAfter, run[..n - 1]).0.value;
    var unheard := Unheard(hash, start, assumeDeadAfter, run[..n - 1]);
    UnheardAreRunning(hash, start, assumeDeadAfter, run[..n - 1]);
    NothingLeft(prev.deployedStacks, unheard);
    KnownInUse(hash, e, inUse, start, assumeDeadAfter, run, n - 1);
    LingeringAtReplacement(hash, e, inUse, start, assumeDeadAfter, run, n);
    SupersededBelief(hash, e, inUse, start, assumeDeadAfter, run, n, prev.address);
  }

  lemma {:induction false} NothingLeft(runs: set<StackID>, unheard: set<StackID>)
    requires unheard <= runs
    ensures runs - unheard == {} <==> unheard == runs
  {
    if runs - unheard == {} {
      forall s | s in runs
        ensures s in unheard
      {
        assert s !in runs - unheard;
      }
    }
  }

  /** What is believed of a superseded incarnation is what lingered when it was superseded. */
  lemma {:induction false} SupersededBelief(
    hash: Hasher, e: Endpoint, inUse: set<NodeAddress>, start: Option<RemoteNodeInfo>, assumeDeadAfter: int,
    run: seq<Sighting>, n: nat, a: NodeAddress)
    requires Concerns(e, inUse, start, run) && NeverOlder(start, run) && CollisionFree(hash, inUse)
    requires a in inUse && a.endpoint == e && n <= |run| && Superseded(run, n, a)
    ensures Believed(hash(a), BelievedAtStart(hash, start, hash(a)), Watched(hash, start, assumeDeadAfter, run).1) ==
      Lingering(hash, start, assumeDeadAfter, run[..n], a)
  {
    assert run[..|run|] == run;
    LingeringStays(hash, e, inUse, start, assumeDeadAfter, run, n, |run|, a);
    SupersededIsUnknown(hash, e, inUse, start, assumeDeadAfter, run, |run|, a);
    BeliefAfterUpdates(hash, e, inUse, start, assumeDeadAfter, run, a);
  }

  lemma {:induction false} KnownInUse(
    hash: Hasher, e: Endpoint, inUse: set<NodeAddress>, start: Option<RemoteNodeInfo>, assumeDeadAfter: int,
    run: seq<Sighting>, n: nat)
    requires Concerns(e, inUse, start, run) && NeverOlder(start, run) && n <= |run|
    ensures
      var known := Watched(hash, start, assumeDeadAfter, run[..n]).0;
      known.Some? ==> known.value.address in inUse && known.value.address.endpoint == e
  {
    ConcernsPrefix(e, inUse, start, run, n);
    WatchedIsNewest(hash, e, inUse, start, assumeDeadAfter, run[..n]);
  }

  lemma {:induction false} ConcernsPrefix(
    e: Endpoint, inUse: set<NodeAddress>, start: Option<RemoteNodeInfo>, run: seq<Sighting>, n: nat)
    requires n <= |run| && Concerns(e, inUse, start, run) && NeverOlder(start, run)
    ensures Concerns(e, inUse, start, run[..n]) && NeverOlder(start, run[..n])
  {
    assert forall s <- run[..n] :: s in run;
  }

  // ---- What is unheard of ----

  /** Something silent happened after the first `k` updates, and the stack has been running ever since. */
  ghost predicate RunningSinceSilence(
    hash: Hasher, start: Option<RemoteNodeInfo>, assumeDeadAfter: int, run: seq<Sighting>, s: StackID, k: nat)
    requires k <= |run|
  {
    var now := Watched(hash, start, assumeDeadAfter, run[..k]).0;
    && now.Some?
    && (if k == 0 then now.value.deadReason.Some?
      else Silent(Watched(hash, start, assumeDeadAfter, run[..k - 1]).0, now.value))
    && forall j :: k <= j <= |run| ==> s in StacksOf(Watched(hash, start, assumeDeadAfter, run[..j]).0)
  }

  /** The unheard stacks are those running, in every entry, since some discovery or death of the node. */
  lemma {:induction false} UnheardMeaning(
    hash: Hasher, start: Option<RemoteNodeInfo>, assumeDeadAfter: int, run: seq<Sighting>, s: StackID)
    ensures s in Unheard(hash, start, assumeDeadAfter, run) <==>
      exists k :: 0 <= k <= |run| && RunningSinceSilence(hash, start, assumeDeadAfter, run, s, k)
  {
    assert run[..|run|] == run;
    if run == [] {
      assert s in Unheard(hash, start, assumeDeadAfter, run) ==>
        RunningSinceSilence(hash, start, assumeDeadAfter, run, s, 0);
    } else {
      var n := |run|;
      var init := run[..n - 1];
      UnheardMeaning(hash, start, assumeDeadAfter, init, s);
      forall k | 0 <= k < n
        ensures RunningSinceSilence(hash, start, assumeDeadAfter, run, s, k) <==>
          RunningSinceSilence(hash, start, assumeDeadAfter, init, s, k)
            && s in StacksOf(Watched(hash, start, assumeDeadAfter, run).0)
      {
        SilencePrefix(hash, start, assumeDeadAfter, run, s, k);
      }
      assert s in Unheard(hash, start, assumeDeadAfter, init) <==>
        exists k :: 0 <= k < n && RunningSinceSilence(hash, start, assumeDeadAfter, init, s, k);
      var before, after := Watched(hash, start, assumeDeadAfter, init).0, Watched(hash, start, assumeDeadAfter, run).0;
      assert RunningSinceSilence(hash, start, assumeDeadAfter, run, s, n) <==>
        after.Some? && Silent(before, after.value) && s in after.value.deployedStacks;
    }
  }

  lemma {:induction false} SilencePrefix(
    hash: Hasher, start: Option<RemoteNodeInfo>, assumeDeadAfter: int, run: seq<Sighting>, s: StackID, k: nat)
    requires k < |run|
    ensures RunningSinceSilence(hash, start, assumeDeadAfter, run, s, k) <==>
      RunningSinceSilence(hash, start, assumeDeadAfter, run[..|run| - 1], s, k)
      && s in StacksOf(Watched(hash, start, assumeDeadAfter, run).0)
  {
    var init := run[..|run| - 1];
    assert forall j :: 0 <= j <= |init| ==> init[..j] == run[..j];
    assert run[..|run|] == run;
  }

  // ---- Wrong beliefs ----

  lemma {:induction false} WatchedOne(
    hash: Hasher, start: Option<RemoteNodeInfo>, assumeDeadAfter: int, run: seq<Sighting>, last: Sighting)
    ensures
      var before := Watched(hash, start, assumeDeadAfter, run);
      var r := UpdateEndpoint(hash, before.0, last.status, assumeDeadAfter, last.now);
      Watched(hash, start, assumeDeadAfter, run + [last]) == (r.0, before.1 + r.1)
  {
    assert (run + [last])[..|run|] == run;
  }

  /** A node that is found running stacks, and found so again, is live and believed to run nothing. */
  lemma {:induction false} DiscoveredStacksNeverAnnounced(
    hash: Hasher, status: NodeStatus, assumeDeadAfter: int, first: int, second: int)
    requires GetDeadReason(assumeDeadAfter, first, status).None? && GetDeadReason(assumeDeadAfter, second, status).None?
    ensures
      var w := Watched(hash, None, assumeDeadAfter, [Sighting(Some(status), first)] + [Sighting(Some(status), second)]);
      w.0 == Some(Discovered(status)) && Believed(hash(status.address), {}, w.1) == {}
  {
    var a, b := Sighting(Some(status), first), Sighting(Some(status), second);
    WatchedOne(hash, None, assumeDeadAfter, [], a);
    assert [] + [a] == [a];
    WatchedOne(hash, None, assumeDeadAfter, [a], b);
    var w := Watched(hash, None, assumeDeadAfter, [a] + [b]);
    assert status.deployedStacks - status.deployedStacks == {};
    assert w.1 == [NodeDiscovered(status.address)];
    BelievedPart(hash(status.address), {}, w.1);
  }

  /** The sightings of a node that is found alive, then too old, and whose entry then gains a stack. */
  function DeadThatGains(entry: NodeStatus, s: StackID): seq<Sighting> {
    [Sighting(Some(entry), 0)] + [Sighting(Some(entry), 20)] + [Sighting(Some(entry.(deployedStacks := {s})), 20)]
  }

  /** The wrong beliefs happen: such a node is dead and believed to run the stack. */
  lemma {:induction false} DeadNodeBelieved(hash: Hasher, entry: NodeStatus, s: StackID)
    requires entry.state == Alive && entry.lastUpdate == 0 && entry.deployedStacks == {}
    ensures
      var w := Watched(hash, None, 10, DeadThatGains(entry, s));
      && w.0 == Some(RemoteNodeInfo(entry.version, entry.address, Some(MissedUpdate), {s}))
      && Believed(hash(entry.address), {}, w.1) == {s}
  {
    var a, b := Sighting(Some(entry), 0), Sighting(Some(entry), 20);
    var c, h := Sighting(Some(entry.(deployedStacks := {s})), 20), hash(entry.address);
    var dead := RemoteNodeInfo(entry.version, entry.address, Some(MissedUpdate), {});
    FoundAndDied(hash, entry);
    NextSighting(hash, [a] + [b], c, h, {});
    SameGenerationBelief(hash, dead, c.status.value, Some(MissedUpdate), {});
    assert {} + ({s} - {}) - ({} - {s}) == {s};
  }

  /** When it comes back, still running the stack, the belief is right. */
  lemma {:induction false} BeliefRightOnReturn(hash: Hasher, entry: NodeStatus, s: StackID)
    requires entry.state == Alive && entry.lastUpdate == 0 && entry.deployedStacks == {}
    ensures
      var back := Sighting(Some(entry.(deployedStacks := {s}, lastUpdate := 20)), 20);
      var w := Watched(hash, None, 10, DeadThatGains(entry, s) + [back]);
      && w.0 == Some(RemoteNodeInfo(entry.version, entry.address, None, {s}))
      && Believed(hash(entry.address), {}, w.1) == {s}
  {
    var back := Sighting(Some(entry.(deployedStacks := {s}, lastUpdate := 20)), 20);
    DeadNodeBelieved(hash, entry, s);
    NextSighting(hash, DeadThatGains(entry, s), back, hash(entry.address), {s});
    var dead := RemoteNodeInfo(entry.version, entry.address, Some(MissedUpdate), {s});
    SameGenerationBelief(hash, dead, back.status.value, None, {s});
    assert {s} + ({s} - {s}) - ({s} - {s}) == {s};
  }

  /** When a newer incarnation replaces it instead, the belief is left behind. */
  lemma {:induction false} BeliefLeftBehind(hash: Hasher, entry: NodeStatus, s: StackID, newer: NodeStatus)
    requires entry.state == Alive && entry.lastUpdate == 0 && entry.deployedStacks == {}
    requires newer.address.generation > entry.address.generation && newer.state == Alive && newer.lastUpdate == 20
    ensures
      var w := Watched(hash, None, 10, DeadThatGains(entry, s) + [Sighting(Some(newer), 20)]);
      w.0 == Some(Discovered(newer)) && Believed(hash(entry.address), {}, w.1) == {s}
  {
    DeadNodeBelieved(hash, entry, s);
    NextSighting(hash, DeadThatGains(entry, s), Sighting(Some(newer), 20), hash(entry.address), {s});
    var dead := RemoteNodeInfo(entry.version, entry.address, Some(MissedUpdate), {s});
    ReplacementBelief(hash, dead, newer, None, {s});
  }

  /** A node is found alive and running nothing, and then too old. */
  lemma {:induction false} FoundAndDied(hash: Hasher, entry: NodeStatus)
    requires entry.state == Alive && entry.lastUpdate == 0 && entry.deployedStacks == {}
    ensures
      var w := Watched(hash, None, 10, [Sighting(Some(entry), 0)] + [Sighting(Some(entry), 20)]);
      && w.0 == Some(RemoteNodeInfo(entry.version, entry.address, Some(MissedUpdate), {}))
      && Believed(hash(entry.address), {}, w.1) == {}
  {
    var a, b, h := Sighting(Some(entry), 0), Sighting(Some(entry), 20), hash(entry.address);
    WatchedOne(hash, None, 10, [], a);
    assert [] + [a] == [a];
    var afterA := Watched(hash, None, 10, [a]);
    assert afterA.0 == Some(Discovered(entry)) && afterA.1 == [NodeDiscovered(entry.address)];
    BelievedPart(h, {}, afterA.1);
    NextSighting(hash, [a], b, h, {});
    SameGenerationBelief(hash, Discovered(entry), entry, Some(MissedUpdate), {});
  }

  /** One more sighting, in a run from nothing. */
  lemma {:induction false} NextSighting(
    hash: Hasher, run: seq<Sighting>, last: Sighting, h: NodeHash, belief: set<StackID>)
    requires Believed(h, {}, Watched(hash, None, 10, run).1) == belief
    ensures
      var before, after := Watched(hash, None, 10, run), Watched(hash, None, 10, run + [last]);
      var r := UpdateEndpoint(hash, before.0, last.status, 10, last.now);
      after.0 == r.0 && Believed(h, {}, after.1) == Believed(h, belief, r.1)
  {
    var before := Watched(hash, None, 10, run);
    WatchedOne(hash, None, 10, run, last);
    BelievedConcat(h, {}, before.1, UpdateEndpoint(hash, before.0, last.status, 10, last.now).1);
  }
}
