/** What holds of one stack after every sequence of scheduler messages. */
module SchedulerRuns {
  import opened Ids
  import opened XorMetric
  import opened StackMachine

  datatype Event = Event(msg: Message, ok: bool)

  ghost function Run(id: StackID, l: Local, events: seq<Event>): Local {
    if events == [] then l
    else
      var last := events[|events| - 1];
      StepLocal(id, Run(id, l, events[..|events| - 1]), last.msg, last.ok)
  }

  lemma {:induction false} RunConcat(id: StackID, l: Local, first: seq<Event>, second: seq<Event>)
    ensures Run(id, l, first + second) == Run(id, Run(id, l, first), second)
    decreases |second|
  {
    if second == [] {
      assert first + second == first;
    } else {
      assert (first + second)[..|first + second| - 1] == first + second[..|second| - 1];
      RunConcat(id, l, first, second[..|second| - 1]);
    }
  }

  lemma {:induction false} RunShort(id: StackID, l: Local, events: seq<Event>)
    requires |events| <= 2
    ensures |events| == 0 ==> Run(id, l, events) == l
    ensures |events| == 1 ==> Run(id, l, events) == StepLocal(id, l, events[0].msg, events[0].ok)
    ensures |events| == 2 ==>
      Run(id, l, events) == StepLocal(id, StepLocal(id, l, events[0].msg, events[0].ok), events[1].msg, events[1].ok)
  {
    if events != [] {
      RunShort(id, l, events[..|events| - 1]);
    }
  }

  predicate RunsHere(v: StackView) {
    v.deployment.Some? && RunsIn(v.deployment.value)
  }

  /** The other nodes the scheduler believes to run the stack. */
  function Recorded(v: StackView): set<NodeHash> {
    match v.deployment
    case Some(Unknown(holders)) => holders
    case Some(DeployedToOthers(_, holders)) => holders
    case Some(DeployedToSelf(_, holders)) => holders
    case Some(DeployedToSelfWithPendingUpdate(_, holders)) => holders
    case _ => {}
  }

  function Definition(v: StackView): Option<StackWithMetadata> {
    if v.deployment.None? || v.deployment.value.Unknown? then None else Some(v.deployment.value.stack)
  }

  // ---- Shape of the deployment state ----

  ghost predicate WellPlaced(id: StackID, me: NodeHash, known: set<NodeHash>, v: StackView) {
    && (v.deployment.Some? && v.deployment.value.DeployedToOthers? ==> v.deployment.value.deployedTo != {})
    && (v.deployment.Some? && v.deployment.value.HasDeploymentCandidate? ==>
          && v.deployment.value.deploymentCandidate in known
          && Closer(id, v.deployment.value.deploymentCandidate, me))
    && (RunsHere(v) && !v.queued ==> !HasCloserRemote(id, me, Recorded(v)))
    && (Definition(v).Some? ==> Definition(v).value.Id() == id)
  }

  lemma {:induction false} DeployedAllKeeps(
    id: StackID, me: NodeHash, known: set<NodeHash>, node: NodeHash, ids: seq<StackID>, v: StackView)
    requires WellPlaced(id, me, known, v)
    ensures WellPlaced(id, me, known, DeployedAll(node, ids, id, v))
  {
    if ids != [] {
      DeployedAllKeeps(id, me, known, node, ids[..|ids| - 1], v);
    }
  }

  lemma {:induction false} UndeployedAllKeeps(
    id: StackID, me: NodeHash, known: set<NodeHash>, node: NodeHash, ids: seq<StackID>, v: StackView)
    requires WellPlaced(id, me, known, v)
    ensures WellPlaced(id, me, known, UndeployedAll(node, ids, id, v))
  {
    if ids != [] {
      UndeployedAllKeeps(id, me, known, node, ids[..|ids| - 1], v);
    }
  }

  lemma {:induction false} AvailableAllKeeps(
    id: StackID, me: NodeHash, known: set<NodeHash>, stacks: seq<StackWithMetadata>, v: StackView)
    requires WellPlaced(id, me, known, v)
    ensures WellPlaced(id, me, known, AvailableAll(stacks, id, v))
  {
    if stacks != [] {
      AvailableAllKeeps(id, me, known, stacks[..|stacks| - 1], v);
    }
  }

  lemma {:induction false} RemovedAllKeeps(
    id: StackID, me: NodeHash, known: set<NodeHash>, idModes: seq<(StackID, RemovalMode)>, ok: bool, v: StackView)
    requires WellPlaced(id, me, known, v)
    ensures WellPlaced(id, me, known, RemovedAll(idModes, id, ok, v))
  {
    if idModes != [] {
      RemovedAllKeeps(id, me, known, idModes[..|idModes| - 1], ok, v);
    }
  }

  lemma {:induction false} StepKeepsWellPlaced(id: StackID, l: Local, msg: Message, ok: bool)
    requires WellPlaced(id, l.me, l.known, l.view)
    ensures var s := StepLocal(id, l, msg, ok); s.me == l.me && WellPlaced(id, s.me, s.known, s.view)
  {
    match msg
    case NodeDeployedStacks(node, ids) => DeployedAllKeeps(id, l.me, l.known, node, ids, l.view);
    case NodeUndeployedStacks(node, ids) => UndeployedAllKeeps(id, l.me, l.known, node, ids, l.view);
    case StacksAvailable(stacks) => AvailableAllKeeps(id, l.me, l.known, stacks, l.view);
    case StacksRemoved(idModes) => RemovedAllKeeps(id, l.me, l.known, idModes, ok, l.view);
    case _ =>
  }

  lemma {:induction false} DefinitionAtStartHasId(available: seq<StackWithMetadata>, id: StackID)
    ensures DefinitionAtStart(available, id).Some? ==> DefinitionAtStart(available, id).value.Id() == id
    ensures DefinitionAtStart(available, id).Some? ==> DefinitionAtStart(available, id).value in available
  {
    if available != [] {
      DefinitionAtStartHasId(available[..|available| - 1], id);
    }
  }

  /** In every run: a stack deployed to others has a holder; a deployment candidate is a known node
      strictly closer than me; a stack running here and not queued for re-evaluation has no recorded
      holder closer than me; and the definition held under an id is that id's own. */
  lemma {:induction false} EveryRunWellPlaced(
    id: StackID, me: NodeHash, nodes: seq<(NodeHash, seq<StackID>)>, available: seq<StackWithMetadata>,
    events: seq<Event>)
    ensures
      var l := Run(id, LocalAtStart(me, nodes, available, id), events);
      l.me == me && WellPlaced(id, me, l.known, l.view)
  {
    if events == [] {
      DefinitionAtStartHasId(available, id);
    } else {
      var last := events[|events| - 1];
      EveryRunWellPlaced(id, me, nodes, available, events[..|events| - 1]);
      var before := Run(id, LocalAtStart(me, nodes, available, id), events[..|events| - 1]);
      StepKeepsWellPlaced(id, before, last.msg, last.ok);
    }
  }

  // ---- Announcements ----

  /** The last runtime call that decided whether the stack runs here; a failed deployment decides nothing. */
  function LastDecisive(attempts: seq<Attempt>): Option<Attempt> {
    if attempts == [] then None
    else
      var last := attempts[|attempts| - 1];
      if last.Deploy? && !last.ok then LastDecisive(attempts[..|attempts| - 1]) else Some(last)
  }

  /** Whether replaying `StackDeployed` and `StackUndeployed` for these calls leaves the stack in the
      published set: a deployment announces itself on success, and so does an undeployment. */
  predicate Announced(attempts: seq<Attempt>) {
    attempts != [] &&
    var last := attempts[|attempts| - 1];
    if last.ok then last.Deploy? else Announced(attempts[..|attempts| - 1])
  }

  ghost predicate AnnouncementExact(v: StackView) {
    && (RunsHere(v) <==> LastDecisive(v.attempts).Some? && LastDecisive(v.attempts).value.Deploy?)
    && (Announced(v.attempts) <==>
          || RunsHere(v)
          || (exists mode :: LastDecisive(v.attempts) == Some(Undeploy(mode, false))))
  }

  lemma {:induction false} AttemptAppended(attempts: seq<Attempt>, a: Attempt)
    ensures LastDecisive(attempts + [a]) == if a.Deploy? && !a.ok then LastDecisive(attempts) else Some(a)
    ensures Announced(attempts + [a]) == if a.ok then a.Deploy? else Announced(attempts)
  {
    assert (attempts + [a])[..|attempts + [a]| - 1] == attempts;
  }

  /** What a runtime call of a tick does: a deployment that fails changes nothing, an undeployment ends a run. */
  lemma {:induction false} TickDecides(id: StackID, me: NodeHash, known: set<NodeHash>, ok: bool, d: StackDeployment)
    ensures
      var tick := TickStack(id, me, known, ok, d);
      match tick.1
      case None => RunsIn(tick.0) == RunsIn(d)
      case Some(Deploy(_, success)) => success == ok && RunsIn(tick.0) == (ok || RunsIn(d))
      case Some(Undeploy(_, success)) => success == ok && RunsIn(d) && !RunsIn(tick.0)
  {
  }

  predicate RunsIn(d: StackDeployment) {
    d.DeployedToSelf? || d.DeployedToSelfWithPendingUpdate?
  }

  lemma {:induction false} TickKeepsAnnouncement(
    id: StackID, me: NodeHash, known: set<NodeHash>, ok: bool, v: StackView)
    requires AnnouncementExact(v)
    ensures AnnouncementExact(OnTick(id, me, known, ok, v))
  {
    if v.queued && v.deployment.Some? {
      var attempt := TickStack(id, me, known, ok, v.deployment.value).1;
      TickDecides(id, me, known, ok, v.deployment.value);
      if attempt.Some? {
        AttemptAppended(v.attempts, attempt.value);
      }
    }
  }

  lemma {:induction false} ListsKeepAnnouncement(
    id: StackID, node: NodeHash, ids: seq<StackID>, stacks: seq<StackWithMetadata>, v: StackView)
    requires AnnouncementExact(v)
    ensures AnnouncementExact(DeployedAll(node, ids, id, v))
    ensures AnnouncementExact(UndeployedAll(node, ids, id, v))
    ensures AnnouncementExact(AvailableAll(stacks, id, v))
    decreases |ids| + |stacks|
  {
    if ids != [] {
      ListsKeepAnnouncement(id, node, ids[..|ids| - 1], stacks, v);
    }
    if stacks != [] {
      ListsKeepAnnouncement(id, node, ids, stacks[..|stacks| - 1], v);
    }
  }

  lemma {:induction false} RemovedAllKeepsAnnouncement(
    id: StackID, idModes: seq<(StackID, RemovalMode)>, ok: bool, v: StackView)
    requires AnnouncementExact(v)
    ensures AnnouncementExact(RemovedAll(idModes, id, ok, v))
  {
    if idModes != [] {
      RemovedAllKeepsAnnouncement(id, idModes[..|idModes| - 1], ok, v);
      var w := RemovedAll(idModes[..|idModes| - 1], id, ok, v);
      AttemptAppended(w.attempts, Undeploy(idModes[|idModes| - 1].1, ok));
    }
  }

  /** In every run a stack that runs here is announced, and an announced stack fails to run here in
      exactly one case: the last decisive runtime call was an undeployment that failed. */
  lemma {:induction false} EveryRunAnnouncedExactly(
    id: StackID, me: NodeHash, nodes: seq<(NodeHash, seq<StackID>)>, available: seq<StackWithMetadata>,
    events: seq<Event>)
    ensures AnnouncementExact(Run(id, LocalAtStart(me, nodes, available, id), events).view)
  {
    if events != [] {
      var before := Run(id, LocalAtStart(me, nodes, available, id), events[..|events| - 1]);
      EveryRunAnnouncedExactly(id, me, nodes, available, events[..|events| - 1]);
      match events[|events| - 1].msg
      case NodeDeployedStacks(node, ids) => ListsKeepAnnouncement(id, node, ids, [], before.view);
      case NodeUndeployedStacks(node, ids) => ListsKeepAnnouncement(id, node, ids, [], before.view);
      case StacksAvailable(stacks) => ListsKeepAnnouncement(id, me, [], stacks, before.view);
      case StacksRemoved(idModes) => RemovedAllKeepsAnnouncement(id, idModes, events[|events| - 1].ok, before.view);
      case Tick => TickKeepsAnnouncement(id, before.me, before.known, events[|events| - 1].ok, before.view);
      case _ =>
    }
  }

  /** With no failed undeployment the announced stacks are exactly the ones that run here. */
  lemma {:induction false} AnnouncedIffRunsHere(
    id: StackID, me: NodeHash, nodes: seq<(NodeHash, seq<StackID>)>, available: seq<StackWithMetadata>,
    events: seq<Event>)
    requires
      var v := Run(id, LocalAtStart(me, nodes, available, id), events).view;
      forall a <- v.attempts :: a.Undeploy? ==> a.ok
    ensures
      var v := Run(id, LocalAtStart(me, nodes, available, id), events).view;
      Announced(v.attempts) <==> RunsHere(v)
  {
    EveryRunAnnouncedExactly(id, me, nodes, available, events);
    LastDecisiveIsAttempt(Run(id, LocalAtStart(me, nodes, available, id), events).view.attempts);
  }

  lemma {:induction false} LastDecisiveIsAttempt(attempts: seq<Attempt>)
    ensures LastDecisive(attempts).Some? ==> LastDecisive(attempts).value in attempts
  {
    if attempts != [] {
      LastDecisiveIsAttempt(attempts[..|attempts| - 1]);
    }
  }

  // ---- What the runtime runs ----

  /** The definition of the last successful deployment: what the runtime was given. */
  function LastDeployed(attempts: seq<Attempt>): Option<StackWithMetadata> {
    if attempts == [] then None
    else
      var last := attempts[|attempts| - 1];
      if last.Deploy? && last.ok then Some(last.definition) else LastDeployed(attempts[..|attempts| - 1])
  }

  lemma {:induction false} DeployedAppended(attempts: seq<Attempt>, a: Attempt)
    ensures LastDeployed(attempts + [a]) == if a.Deploy? && a.ok then Some(a.definition) else LastDeployed(attempts)
  {
    assert (attempts + [a])[..|attempts + [a]| - 1] == attempts;
  }

  /** The runtime runs the very definition a self-deployed stack holds, and an older one while an update is
      pending. */
  ghost predicate RunsAsHeld(v: StackView) {
    v.deployment.Some? ==>
      match v.deployment.value
      case DeployedToSelf(stack, _) => LastDeployed(v.attempts) == Some(stack)
      case DeployedToSelfWithPendingUpdate(stack, _) =>
        LastDeployed(v.attempts).Some? && LastDeployed(v.attempts).value.revision < stack.revision
      case _ => true
  }

  lemma {:induction false} TickRunsAsHeld(id: StackID, me: NodeHash, known: set<NodeHash>, ok: bool, v: StackView)
    requires RunsAsHeld(v)
    ensures RunsAsHeld(OnTick(id, me, known, ok, v))
  {
    if v.queued && v.deployment.Some? {
      var attempt := TickStack(id, me, known, ok, v.deployment.value).1;
      if attempt.Some? {
        DeployedAppended(v.attempts, attempt.value);
      }
    }
  }

  lemma {:induction false} ListsRunAsHeld(
    id: StackID, node: NodeHash, ids: seq<StackID>, stacks: seq<StackWithMetadata>, v: StackView)
    requires RunsAsHeld(v)
    ensures RunsAsHeld(DeployedAll(node, ids, id, v))
    ensures RunsAsHeld(UndeployedAll(node, ids, id, v))
    ensures RunsAsHeld(AvailableAll(stacks, id, v))
    decreases |ids| + |stacks|
  {
    if ids != [] {
      ListsRunAsHeld(id, node, ids[..|ids| - 1], stacks, v);
    }
    if stacks != [] {
      ListsRunAsHeld(id, node, ids, stacks[..|stacks| - 1], v);
    }
  }

  lemma {:induction false} RemovedAllRunsAsHeld(
    id: StackID, idModes: seq<(StackID, RemovalMode)>, ok: bool, v: StackView)
    requires RunsAsHeld(v)
    ensures RunsAsHeld(RemovedAll(idModes, id, ok, v))
  {
    if idModes != [] {
      RemovedAllRunsAsHeld(id, idModes[..|idModes| - 1], ok, v);
    }
  }

  /** In every run a stack held as self-deployed is the definition the runtime was given last, and a pending update
      is newer than that one. */
  lemma {:induction false} EveryRunRunsAsHeld(
    id: StackID, me: NodeHash, nodes: seq<(NodeHash, seq<StackID>)>, available: seq<StackWithMetadata>,
    events: seq<Event>)
    ensures RunsAsHeld(Run(id, LocalAtStart(me, nodes, available, id), events).view)
  {
    if events != [] {
      var before := Run(id, LocalAtStart(me, nodes, available, id), events[..|events| - 1]);
      EveryRunRunsAsHeld(id, me, nodes, available, events[..|events| - 1]);
      match events[|events| - 1].msg
      case NodeDeployedStacks(node, ids) => ListsRunAsHeld(id, node, ids, [], before.view);
      case NodeUndeployedStacks(node, ids) => ListsRunAsHeld(id, node, ids, [], before.view);
      case StacksAvailable(stacks) => ListsRunAsHeld(id, me, [], stacks, before.view);
      case StacksRemoved(idModes) => RemovedAllRunsAsHeld(id, idModes, events[|events| - 1].ok, before.view);
      case Tick => TickRunsAsHeld(id, before.me, before.known, events[|events| - 1].ok, before.view);
      case _ =>
    }
  }

  /** A pending update is carried out: when nobody closer holds the stack and the deployment succeeds, the tick hands
      the runtime the definition held. */
  lemma {:induction false} UpdateIsDeployed(id: StackID, l: Local)
    requires l.ready && l.view.queued && l.view.deployment.Some?
    requires l.view.deployment.value.DeployedToSelfWithPendingUpdate?
    requires !HasCloserRemote(id, l.me, Recorded(l.view))
    ensures
      var v, d := StepLocal(id, l, Tick, true).view, l.view.deployment.value;
      v.deployment == Some(DeployedToSelf(d.stack, d.deployedToOthers)) && LastDeployed(v.attempts) == Some(d.stack)
  {
    DeployedAppended(l.view.attempts, Deploy(l.view.deployment.value.stack, true));
  }

  // ---- What may never happen ----

  /** A removal of the stack with its data. */
  predicate RemovesForGood(msg: Message, id: StackID) {
    msg.StacksRemoved? && (id, Permanent) in msg.idModes
  }

  predicate Destroys(attempts: seq<Attempt>) {
    exists a <- attempts :: a.Undeploy? && a.mode.Permanent?
  }

  lemma {:induction false} RemovedAllDestroys(
    id: StackID, idModes: seq<(StackID, RemovalMode)>, ok: bool, v: StackView)
    requires !Destroys(v.attempts) && (id, Permanent) !in idModes
    ensures !Destroys(RemovedAll(idModes, id, ok, v).attempts)
  {
    if idModes != [] {
      RemovedAllDestroys(id, idModes[..|idModes| - 1], ok, v);
      assert idModes[|idModes| - 1] in idModes;
    }
  }

  lemma {:induction false} ListsKeepAttempts(
    id: StackID, node: NodeHash, ids: seq<StackID>, stacks: seq<StackWithMetadata>, v: StackView)
    ensures DeployedAll(node, ids, id, v).attempts == v.attempts
    ensures UndeployedAll(node, ids, id, v).attempts == v.attempts
    ensures AvailableAll(stacks, id, v).attempts == v.attempts
    decreases |ids| + |stacks|
  {
    if ids != [] {
      ListsKeepAttempts(id, node, ids[..|ids| - 1], stacks, v);
    }
    if stacks != [] {
      ListsKeepAttempts(id, node, ids, stacks[..|stacks| - 1], v);
    }
  }

  /** The runtime is asked to destroy a stack's data only if somebody asked for a permanent removal of that stack. */
  lemma {:induction false} DataOnlyDestroyedOnRequest(id: StackID, l: Local, events: seq<Event>)
    requires !Destroys(l.view.attempts) && forall e <- events :: !RemovesForGood(e.msg, id)
    ensures !Destroys(Run(id, l, events).view.attempts)
  {
    if events != [] {
      var init, last := events[..|events| - 1], events[|events| - 1];
      var before := Run(id, l, init);
      assert last in events;
      DataOnlyDestroyedOnRequest(id, l, init);
      match last.msg
      case NodeDeployedStacks(node, ids) => ListsKeepAttempts(id, node, ids, [], before.view);
      case NodeUndeployedStacks(node, ids) => ListsKeepAttempts(id, node, ids, [], before.view);
      case StacksAvailable(stacks) => ListsKeepAttempts(id, l.me, [], stacks, before.view);
      case StacksRemoved(idModes) => RemovedAllDestroys(id, idModes, last.ok, before.view);
      case _ =>
    }
  }

  /** And a permanent removal of a stack that runs here does reach the runtime. */
  lemma {:induction false} RemovalReachesRuntime(id: StackID, l: Local, mode: RemovalMode, ok: bool)
    requires RunsHere(l.view)
    ensures StepLocal(id, l, StacksRemoved([(id, mode)]), ok).view ==
      StackView(None, l.view.queued, l.view.attempts + [Undeploy(mode, ok)])
  {
    assert [(id, mode)][..0] == [];
    assert RemovedAll([], id, ok, l.view) == l.view;
  }

  /** Before the go-ahead nothing is deployed or undeployed, however often the scheduler ticks. */
  lemma {:induction false} NothingBeforeGoAhead(
    id: StackID, me: NodeHash, nodes: seq<(NodeHash, seq<StackID>)>, available: seq<StackWithMetadata>,
    events: seq<Event>)
    requires forall e <- events :: !e.msg.ReadyToScheduleStacks?
    ensures
      var l := Run(id, LocalAtStart(me, nodes, available, id), events);
      !l.ready && l.view.attempts == [] && !RunsHere(l.view)
  {
    if events != [] {
      var init, last := events[..|events| - 1], events[|events| - 1];
      var before := Run(id, LocalAtStart(me, nodes, available, id), init);
      assert last in events;
      NothingBeforeGoAhead(id, me, nodes, available, init);
      EveryRunAnnouncedExactly(id, me, nodes, available, events);
      match last.msg
      case NodeDeployedStacks(node, ids) => ListsKeepAttempts(id, node, ids, [], before.view);
      case NodeUndeployedStacks(node, ids) => ListsKeepAttempts(id, node, ids, [], before.view);
      case StacksAvailable(stacks) => ListsKeepAttempts(id, me, [], stacks, before.view);
      case StacksRemoved(idModes) => NotRunningIsNotUndeployed(id, idModes, last.ok, before.view);
      case _ =>
    }
  }

  lemma {:induction false} NotRunningIsNotUndeployed(
    id: StackID, idModes: seq<(StackID, RemovalMode)>, ok: bool, v: StackView)
    requires !RunsHere(v)
    ensures RemovedAll(idModes, id, ok, v).attempts == v.attempts && !RunsHere(RemovedAll(idModes, id, ok, v))
  {
    if idModes != [] {
      NotRunningIsNotUndeployed(id, idModes[..|idModes| - 1], ok, v);
    }
  }

  // ---- Runs of a single node ----

  function Single(msg: Message, ok: bool): seq<Event> {
    [Event(msg, ok)]
  }

  lemma {:induction false} RunOne(id: StackID, l: Local, events: seq<Event>, msg: Message, ok: bool)
    ensures Run(id, l, events + Single(msg, ok)) == StepLocal(id, Run(id, l, events), msg, ok)
  {
    assert (events + Single(msg, ok))[..|events|] == events;
  }

  lemma {:induction false} ListOfOne(id: StackID, node: NodeHash, stack: StackWithMetadata, v: StackView)
    requires stack.Id() == id
    ensures AvailableAll([stack], id, v) == OnStackAvailable(stack, v)
    ensures DeployedAll(node, [id], id, v) == OnNodeDeployed(node, v)
  {
    assert [stack][..0] == [] && [id][..0] == [];
    assert AvailableAll([], id, v) == v && DeployedAll(node, [], id, v) == v;
  }

  lemma {:induction false} LoneNodeTicks(id: StackID, n: NodeHash, stack: StackWithMetadata, ok: bool)
    requires stack.Id() == id
    ensures
      var events := Single(StacksAvailable([stack]), true) + Single(ReadyToScheduleStacks, true) + Single(Tick, ok);
      Run(id, LocalAtStart(n, [], [], id), events) ==
        Local(n, {}, true, StackView(
          Some(if ok then DeployedToSelf(stack, {}) else Undeployed(stack)), false, [Deploy(stack, ok)]))
  {
    var start := LocalAtStart(n, [], [], id);
    assert start == Local(n, {}, false, StackView(None, false, []));
    var e1, e2 := Single(StacksAvailable([stack]), true), Single(ReadyToScheduleStacks, true);
    RunShort(id, start, e1 + e2);
    ListOfOne(id, n, stack, start.view);
    assert Run(id, start, e1 + e2) == Local(n, {}, true, StackView(Some(Undeployed(stack)), true, []));
    RunOne(id, start, e1 + e2, Tick, ok);
    AloneAndQueued(id, n, stack, ok);
  }

  lemma {:induction false} AloneAndQueued(id: StackID, n: NodeHash, stack: StackWithMetadata, ok: bool)
    ensures StepLocal(id, Local(n, {}, true, StackView(Some(Undeployed(stack)), true, [])), Tick, ok) ==
      Local(n, {}, true, StackView(
        Some(if ok then DeployedToSelf(stack, {}) else Undeployed(stack)), false, [Deploy(stack, ok)]))
  {
    assert [] + [Deploy(stack, ok)] == [Deploy(stack, ok)];
  }

  /** The gap is real: a lone node runs the stack, hears that a closer node runs it too, and fails to undeploy. It
      does not run the stack any more, and the stack stays announced. */
  lemma {:induction false} FailedUndeploymentStaysAnnounced(
    id: StackID, n: NodeHash, d: NodeHash, stack: StackWithMetadata)
    requires stack.Id() == id && Closer(id, d, n)
    ensures
      var runs := Single(StacksAvailable([stack]), true) + Single(ReadyToScheduleStacks, true) + Single(Tick, true);
      var events := runs + Single(NodeDeployedStacks(d, [id]), true) + Single(Tick, false);
      var v := Run(id, LocalAtStart(n, [], [], id), events).view;
      !RunsHere(v) && Announced(v.attempts) && LastDecisive(v.attempts) == Some(Undeploy(Temporary, false))
  {
    var start := LocalAtStart(n, [], [], id);
    var runs := Single(StacksAvailable([stack]), true) + Single(ReadyToScheduleStacks, true) + Single(Tick, true);
    LoneNodeTicks(id, n, stack, true);
    var running := Run(id, start, runs);
    RunOne(id, start, runs, NodeDeployedStacks(d, [id]), true);
    ListOfOne(id, d, stack, running.view);
    var beside := StackView(Some(DeployedToSelf(stack, {d})), true, [Deploy(stack, true)]);
    assert {} + {d} == {d};
    assert Run(id, start, runs + Single(NodeDeployedStacks(d, [id]), true)).view == beside;
    RunOne(id, start, runs + Single(NodeDeployedStacks(d, [id]), true), Tick, false);
    HandOffFails(id, Run(id, start, runs + Single(NodeDeployedStacks(d, [id]), true)), d, stack);
  }

  lemma {:induction false} HandOffFails(id: StackID, l: Local, d: NodeHash, stack: StackWithMetadata)
    requires l.ready && Closer(id, d, l.me)
    requires l.view == StackView(Some(DeployedToSelf(stack, {d})), true, [Deploy(stack, true)])
    ensures
      var v := StepLocal(id, l, Tick, false).view;
      !RunsHere(v) && Announced(v.attempts) && LastDecisive(v.attempts) == Some(Undeploy(Temporary, false))
  {
    assert HasCloserRemote(id, l.me, {d});
    AttemptAppended([], Deploy(stack, true));
    assert [] + [Deploy(stack, true)] == [Deploy(stack, true)];
    AttemptAppended([Deploy(stack, true)], Undeploy(Temporary, false));
  }

  // ---- No stack is forgotten ----

  /** A stack that still needs a local decision is queued, or the latest runtime call made for it was a
      failed attempt to deploy the very definition it holds. */
  ghost predicate NotForgotten(v: StackView) {
    && v.deployment.Some? && !v.queued
    && (v.deployment.value.Undeployed? || v.deployment.value.DeployedToSelfWithPendingUpdate?) ==>
      v.attempts != [] && v.attempts[|v.attempts| - 1] == Deploy(v.deployment.value.stack, false)
  }

  lemma {:induction false} ListsKeepNotForgotten(
    id: StackID, node: NodeHash, ids: seq<StackID>, stacks: seq<StackWithMetadata>,
    idModes: seq<(StackID, RemovalMode)>, ok: bool, v: StackView)
    requires NotForgotten(v)
    ensures NotForgotten(DeployedAll(node, ids, id, v))
    ensures NotForgotten(UndeployedAll(node, ids, id, v))
    ensures NotForgotten(AvailableAll(stacks, id, v))
    ensures NotForgotten(RemovedAll(idModes, id, ok, v))
    decreases |ids| + |stacks| + |idModes|
  {
    if ids != [] {
      ListsKeepNotForgotten(id, node, ids[..|ids| - 1], stacks, idModes, ok, v);
    }
    if stacks != [] {
      ListsKeepNotForgotten(id, node, ids, stacks[..|stacks| - 1], idModes, ok, v);
    }
    if idModes != [] {
      ListsKeepNotForgotten(id, node, ids, stacks, idModes[..|idModes| - 1], ok, v);
    }
  }

  lemma {:induction false} RunKeepsNotForgotten(id: StackID, start: Local, events: seq<Event>)
    requires NotForgotten(start.view)
    ensures NotForgotten(Run(id, start, events).view)
  {
    if events != [] {
      var before := Run(id, start, events[..|events| - 1]);
      RunKeepsNotForgotten(id, start, events[..|events| - 1]);
      var last := events[|events| - 1];
      match last.msg
      case NodeDeployedStacks(node, ids) => ListsKeepNotForgotten(id, node, ids, [], [], true, before.view);
      case NodeUndeployedStacks(node, ids) => ListsKeepNotForgotten(id, node, ids, [], [], true, before.view);
      case StacksAvailable(stacks) => ListsKeepNotForgotten(id, start.me, [], stacks, [], true, before.view);
      case StacksRemoved(idModes) => ListsKeepNotForgotten(id, start.me, [], [], idModes, last.ok, before.view);
      case _ =>
    }
  }

  /** No stack is ever forgotten exactly when the scheduler starts with no definition whose stack runs
      nowhere. The executor starts it with no definitions at all, so there it always holds. */
  lemma {:induction false} NoStackForgotten(
    id: StackID, me: NodeHash, nodes: seq<(NodeHash, seq<StackID>)>, available: seq<StackWithMetadata>)
    ensures
      (forall events: seq<Event> :: NotForgotten(Run(id, LocalAtStart(me, nodes, available, id), events).view))
      <==> (DefinitionAtStart(available, id).None? || HoldersAtStart(nodes, id) != {})
  {
    var start := LocalAtStart(me, nodes, available, id);
    if DefinitionAtStart(available, id).None? || HoldersAtStart(nodes, id) != {} {
      forall events: seq<Event>
        ensures NotForgotten(Run(id, start, events).view)
      {
        RunKeepsNotForgotten(id, start, events);
      }
    } else {
      var none: seq<Event> := [];
      assert Run(id, start, none) == start;
      assert exists events: seq<Event> :: !NotForgotten(Run(id, start, events).view);
    }
  }

  /** The failing family: such a stack stays undeployed and unqueued however often the scheduler ticks. */
  lemma {:induction false} InitialStackIgnoredByTicks(id: StackID, start: Local, ticks: seq<Event>)
    requires !start.view.queued
    requires forall e <- ticks :: e.msg.Tick? || e.msg.ReadyToScheduleStacks? || e.msg.NodeDiscovered?
    ensures Run(id, start, ticks).view == start.view
  {
    if ticks != [] {
      InitialStackIgnoredByTicks(id, start, ticks[..|ticks| - 1]);
    }
  }

  // ---- Recorded holders ----

  predicate Removes(msg: Message, id: StackID) {
    msg.StacksRemoved? && exists p <- msg.idModes :: p.0 == id
  }

  /** Who a listener takes to run the stack after one more message: news is taken at face value, the dead run
      nothing, and a removal of the stack forgets everybody. */
  function HeldAfter(holders: set<NodeHash>, id: StackID, msg: Message): set<NodeHash> {
    match msg
    case NodeDied(node) => holders - {node}
    case NodeDeployedStacks(node, ids) => if id in ids then holders + {node} else holders
    case NodeUndeployedStacks(node, ids) => if id in ids then holders - {node} else holders
    case StacksRemoved(_) => if Removes(msg, id) then {} else holders
    case _ => holders
  }

  function HeldReplay(holders: set<NodeHash>, id: StackID, events: seq<Event>): set<NodeHash> {
    if events == [] then holders
    else HeldAfter(HeldReplay(holders, id, events[..|events| - 1]), id, events[|events| - 1].msg)
  }

  lemma {:induction false} ListsRecord(node: NodeHash, ids: seq<StackID>, id: StackID, v: StackView)
    ensures Recorded(DeployedAll(node, ids, id, v)) == if id in ids then Recorded(v) + {node} else Recorded(v)
    ensures Recorded(UndeployedAll(node, ids, id, v)) == if id in ids then Recorded(v) - {node} else Recorded(v)
  {
    if ids != [] {
      var init, last := ids[..|ids| - 1], ids[|ids| - 1];
      ListsRecord(node, init, id, v);
      assert id in ids <==> id in init || id == last;
      if last == id {
        NewsRecorded(node, DeployedAll(node, init, id, v));
        NewsRecorded(node, UndeployedAll(node, init, id, v));
      }
    }
  }

  lemma {:induction false} NewsRecorded(node: NodeHash, v: StackView)
    ensures Recorded(OnNodeDeployed(node, v)) == Recorded(v) + {node}
    ensures Recorded(OnNodeUndeployed(node, v)) == Recorded(v) - {node}
    ensures Recorded(OnNodeDied(node, v)) == Recorded(v) - {node}
  {
  }

  lemma {:induction false} AvailableKeepsRecord(stacks: seq<StackWithMetadata>, id: StackID, v: StackView)
    ensures Recorded(AvailableAll(stacks, id, v)) == Recorded(v)
  {
    if stacks != [] {
      AvailableKeepsRecord(stacks[..|stacks| - 1], id, v);
    }
  }

  lemma {:induction false} RemovalKeepsRecord(idModes: seq<(StackID, RemovalMode)>, id: StackID, ok: bool, v: StackView)
    requires forall p <- idModes :: p.0 != id
    ensures RemovedAll(idModes, id, ok, v) == v
  {
    if idModes != [] {
      RemovalKeepsRecord(idModes[..|idModes| - 1], id, ok, v);
      assert idModes[|idModes| - 1] in idModes;
    }
  }

  /** In every run the holders the scheduler records for a stack are exactly what the messages say, whatever it
      decides for itself in between. */
  lemma {:induction false} EveryRunRecordsNews(id: StackID, l: Local, events: seq<Event>)
    ensures Recorded(Run(id, l, events).view) == HeldReplay(Recorded(l.view), id, events)
  {
    if events != [] {
      var init, last := events[..|events| - 1], events[|events| - 1];
      var before := Run(id, l, init);
      EveryRunRecordsNews(id, l, init);
      match last.msg
      case NodeDied(node) => NewsRecorded(node, before.view);
      case NodeDeployedStacks(node, ids) => ListsRecord(node, ids, id, before.view);
      case NodeUndeployedStacks(node, ids) => ListsRecord(node, ids, id, before.view);
      case StacksAvailable(stacks) => AvailableKeepsRecord(stacks, id, before.view);
      case StacksRemoved(idModes) =>
        if Removes(last.msg, id) {
          RemovedAllDefinition(idModes, id, last.ok, before.view);
        } else {
          RemovalKeepsRecord(idModes, id, last.ok, before.view);
        }
      case _ =>
    }
  }

  // ---- Revisions ----

  function Offered(stacks: seq<StackWithMetadata>, id: StackID): set<StackWithMetadata> {
    set s | s in stacks && s.Id() == id
  }

  /** The definitions received for the stack since it was last removed. */
  ghost function Received(initial: set<StackWithMetadata>, events: seq<Event>, id: StackID): set<StackWithMetadata> {
    if events == [] then initial
    else
      var before := Received(initial, events[..|events| - 1], id);
      match events[|events| - 1].msg
      case StacksAvailable(stacks) => before + Offered(stacks, id)
      case StacksRemoved(idModes) => if exists p <- idModes :: p.0 == id then {} else before
      case _ => before
  }

  /** `held` is one of the received definitions, with the highest revision among them. */
  ghost predicate IsNewest(held: Option<StackWithMetadata>, received: set<StackWithMetadata>) {
    match held
    case None => received == {}
    case Some(d) => d in received && forall r <- received :: r.revision <= d.revision
  }

  lemma {:induction false} AvailableAllNewest(
    stacks: seq<StackWithMetadata>, id: StackID, v: StackView, received: set<StackWithMetadata>)
    requires IsNewest(Definition(v), received)
    ensures IsNewest(Definition(AvailableAll(stacks, id, v)), received + Offered(stacks, id))
  {
    if stacks == [] {
      assert received + Offered(stacks, id) == received;
    } else {
      var init, last := stacks[..|stacks| - 1], stacks[|stacks| - 1];
      AvailableAllNewest(init, id, v, received);
      assert stacks == init + [last];
      assert Offered(stacks, id) == Offered(init, id) + (if last.Id() == id then {last} else {});
      if last.Id() == id {
        AvailableNewest(last, AvailableAll(init, id, v), received + Offered(init, id));
        assert received + Offered(stacks, id) == received + Offered(init, id) + {last};
      } else {
        assert Offered(stacks, id) == Offered(init, id);
      }
    }
  }

  lemma {:induction false} AvailableNewest(stack: StackWithMetadata, v: StackView, received: set<StackWithMetadata>)
    requires IsNewest(Definition(v), received)
    ensures IsNewest(Definition(OnStackAvailable(stack, v)), received + {stack})
  {
  }

  lemma {:induction false} ListsKeepDefinition(node: NodeHash, ids: seq<StackID>, id: StackID, v: StackView)
    ensures Definition(DeployedAll(node, ids, id, v)) == Definition(v)
    ensures Definition(UndeployedAll(node, ids, id, v)) == Definition(v)
  {
    if ids != [] {
      ListsKeepDefinition(node, ids[..|ids| - 1], id, v);
    }
  }

  lemma {:induction false} RemovedAllDefinition(
    idModes: seq<(StackID, RemovalMode)>, id: StackID, ok: bool, v: StackView)
    ensures Definition(RemovedAll(idModes, id, ok, v)) ==
      if exists p <- idModes :: p.0 == id then None else Definition(v)
    ensures (exists p <- idModes :: p.0 == id) ==> RemovedAll(idModes, id, ok, v).deployment.None?
  {
    if idModes != [] {
      var init, last := idModes[..|idModes| - 1], idModes[|idModes| - 1];
      RemovedAllDefinition(init, id, ok, v);
      assert forall p :: p in idModes <==> p in init || p == last;
    }
  }

  /** In every run the definition held for a stack is one of those received since its last removal and
      has the highest revision among them, so the order in which updates arrive does not matter. */
  lemma {:induction false} EveryRunHoldsNewest(
    id: StackID, start: Local, initial: set<StackWithMetadata>, events: seq<Event>)
    requires IsNewest(Definition(start.view), initial)
    ensures IsNewest(Definition(Run(id, start, events).view), Received(initial, events, id))
  {
    if events != [] {
      var before := Run(id, start, events[..|events| - 1]);
      var received := Received(initial, events[..|events| - 1], id);
      EveryRunHoldsNewest(id, start, initial, events[..|events| - 1]);
      match events[|events| - 1].msg
      case NodeDeployedStacks(node, ids) => ListsKeepDefinition(node, ids, id, before.view);
      case NodeUndeployedStacks(node, ids) => ListsKeepDefinition(node, ids, id, before.view);
      case StacksAvailable(stacks) => AvailableAllNewest(stacks, id, before.view, received);
      case StacksRemoved(idModes) => RemovedAllDefinition(idModes, id, events[|events| - 1].ok, before.view);
      case _ =>
    }
  }

  /** Two nodes, or two deliveries, that received the same definitions in whatever order and amid
      whatever other messages hold the same revision. */
  lemma {:induction false} RevisionIndependentOfOrder(
    id: StackID, start1: Local, events1: seq<Event>, start2: Local, events2: seq<Event>)
    requires Definition(start1.view).None? && Definition(start2.view).None?
    requires Received({}, events1, id) == Received({}, events2, id)
    ensures
      var d1, d2 := Definition(Run(id, start1, events1).view), Definition(Run(id, start2, events2).view);
      || (d1.None? && d2.None?)
      || (d1.Some? && d2.Some? && d1.value.revision == d2.value.revision)
  {
    EveryRunHoldsNewest(id, start1, {}, events1);
    EveryRunHoldsNewest(id, start2, {}, events2);
  }
}
