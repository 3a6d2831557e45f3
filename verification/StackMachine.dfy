/** What one scheduler message does to one stack. Every message acts on each stack separately,
    given only the node's own hash, the nodes it knows and whether it may schedule yet; module
    `Scheduler` proves that its loops over mutable maps do exactly this, in any iteration order. */
module StackMachine {
  import opened Ids
  import opened XorMetric

  datatype StackDeployment =
    | Unknown(deployedTo: set<NodeHash>)
    | Undeployed(stack: StackWithMetadata)
    | HasDeploymentCandidate(stack: StackWithMetadata, deploymentCandidate: NodeHash)
    | DeployedToSelf(stack: StackWithMetadata, deployedToOthers: set<NodeHash>)
    | DeployedToSelfWithPendingUpdate(stack: StackWithMetadata, deployedToOthers: set<NodeHash>)
    | DeployedToOthers(stack: StackWithMetadata, deployedTo: set<NodeHash>)

  datatype RemovalMode = Permanent | Temporary

  datatype Message =
    | ReadyToScheduleStacks
    | NodeDiscovered(node: NodeHash)
    | NodeDied(node: NodeHash)
    | NodeDeployedStacks(node: NodeHash, ids: seq<StackID>)
    | NodeUndeployedStacks(node: NodeHash, ids: seq<StackID>)
    | StacksAvailable(stacks: seq<StackWithMetadata>)
    | StacksRemoved(idModes: seq<(StackID, RemovalMode)>)
    | Tick

  /** A call into the runtime together with its outcome, which the environment chooses. */
  datatype Attempt =
    | Deploy(definition: StackWithMetadata, ok: bool)
    | Undeploy(mode: RemovalMode, ok: bool)

  /** Everything the scheduler holds about one stack: its entry in the stack map, its membership in
      the re-evaluation set, and the runtime calls made for it so far. */
  datatype StackView = StackView(deployment: Option<StackDeployment>, queued: bool, attempts: seq<Attempt>)

  datatype Local = Local(me: NodeHash, known: set<NodeHash>, ready: bool, view: StackView)

  // ---- One stack under each message ----

  ghost predicate HasCloserRemote(id: StackID, me: NodeHash, holders: set<NodeHash>) {
    exists h <- holders :: Closer(id, h, me)
  }

  function OnNodeDied(node: NodeHash, v: StackView): StackView {
    match v.deployment
    case Some(Unknown(holders)) =>
      if node in holders then v.(deployment := Some(Unknown(holders - {node})), queued := true) else v
    case Some(DeployedToSelf(stack, holders)) =>
      if node in holders then v.(deployment := Some(DeployedToSelf(stack, holders - {node})), queued := true) else v
    case Some(DeployedToSelfWithPendingUpdate(stack, holders)) =>
      if node in holders then
        v.(deployment := Some(DeployedToSelfWithPendingUpdate(stack, holders - {node})), queued := true)
      else v
    case Some(HasDeploymentCandidate(stack, candidate)) =>
      if candidate == node then v.(deployment := Some(Undeployed(stack)), queued := true) else v
    case Some(DeployedToOthers(stack, holders)) =>
      if node in holders && holders - {node} == {} then
        v.(deployment := Some(Undeployed(stack)), queued := true)
      else v.(deployment := Some(DeployedToOthers(stack, holders - {node})))
    case _ => v
  }

  function OnNodeDeployed(node: NodeHash, v: StackView): StackView {
    var d := match v.deployment
      case None => Unknown({node})
      case Some(Unknown(holders)) => Unknown(holders + {node})
      case Some(Undeployed(stack)) => DeployedToOthers(stack, {node})
      case Some(HasDeploymentCandidate(stack, _)) => DeployedToOthers(stack, {node})
      case Some(DeployedToSelf(stack, holders)) => DeployedToSelf(stack, holders + {node})
      case Some(DeployedToSelfWithPendingUpdate(stack, holders)) =>
        DeployedToSelfWithPendingUpdate(stack, holders + {node})
      case Some(DeployedToOthers(stack, holders)) => DeployedToOthers(stack, holders + {node});
    v.(deployment := Some(d), queued := true)
  }

  function OnNodeUndeployed(node: NodeHash, v: StackView): StackView {
    var d := match v.deployment
      case Some(Unknown(holders)) => if holders - {node} == {} then None else Some(Unknown(holders - {node}))
      case Some(DeployedToSelf(stack, holders)) => Some(DeployedToSelf(stack, holders - {node}))
      case Some(DeployedToSelfWithPendingUpdate(stack, holders)) =>
        Some(DeployedToSelfWithPendingUpdate(stack, holders - {node}))
      case Some(DeployedToOthers(stack, holders)) =>
        if node in holders && holders - {node} == {} then Some(Undeployed(stack))
        else Some(DeployedToOthers(stack, holders - {node}))
      case _ => v.deployment;
    v.(deployment := d, queued := true)
  }

  function Newer(held: StackWithMetadata, received: StackWithMetadata): StackWithMetadata {
    if held.revision < received.revision then received else held
  }

  function OnStackAvailable(newStack: StackWithMetadata, v: StackView): StackView {
    var d := match v.deployment
      case None => Undeployed(newStack)
      case Some(Unknown(holders)) => if holders == {} then Undeployed(newStack) else DeployedToOthers(newStack, holders)
      case Some(Undeployed(stack)) => Undeployed(Newer(stack, newStack))
      case Some(HasDeploymentCandidate(stack, candidate)) =>
        HasDeploymentCandidate(Newer(stack, newStack), candidate)
      case Some(DeployedToSelf(stack, holders)) =>
        if stack.revision < newStack.revision then DeployedToSelfWithPendingUpdate(newStack, holders)
        else DeployedToSelf(stack, holders)
      case Some(DeployedToSelfWithPendingUpdate(stack, holders)) =>
        DeployedToSelfWithPendingUpdate(Newer(stack, newStack), holders)
      case Some(DeployedToOthers(stack, holders)) => DeployedToOthers(Newer(stack, newStack), holders);
    v.(deployment := Some(d), queued := true)
  }

  function OnStackRemoved(mode: RemovalMode, ok: bool, v: StackView): StackView {
    match v.deployment
    case None => v
    case Some(d) =>
      if d.DeployedToSelf? || d.DeployedToSelfWithPendingUpdate? then
        v.(deployment := None, attempts := v.attempts + [Undeploy(mode, ok)])
      else v.(deployment := None)
  }

  /** Re-evaluation of a queued stack: its new state and the runtime call made, if any. */
  ghost function TickStack(id: StackID, me: NodeHash, known: set<NodeHash>, ok: bool, d: StackDeployment)
    : (StackDeployment, Option<Attempt>)
  {
    match d
    case Undeployed(stack) => (
      match ClosestNode(id, me, known)
      case Me => (if ok then DeployedToSelf(stack, {}) else d, Some(Deploy(stack, ok)))
      case Other(node) => (HasDeploymentCandidate(stack, node), None)
    )
    case DeployedToSelf(stack, holders) =>
      if HasCloserRemote(id, me, holders) then (DeployedToOthers(stack, holders), Some(Undeploy(Temporary, ok)))
      else (d, None)
    case DeployedToSelfWithPendingUpdate(stack, holders) =>
      if HasCloserRemote(id, me, holders) then (DeployedToOthers(stack, holders), Some(Undeploy(Temporary, ok)))
      else (if ok then DeployedToSelf(stack, holders) else d, Some(Deploy(stack, ok)))
    case DeployedToOthers(stack, holders) =>
      if HasCloserRemote(id, me, holders) then (d, None)
      else (if ok then DeployedToSelf(stack, holders) else d, Some(Deploy(stack, ok)))
    case HasDeploymentCandidate(_, _) => (d, None)
    case Unknown(_) => (d, None)
  }

  ghost function OnTick(id: StackID, me: NodeHash, known: set<NodeHash>, ok: bool, v: StackView): StackView {
    if !v.queued then v
    else if v.deployment.None? then v.(queued := false)
    else
      var tick := TickStack(id, me, known, ok, v.deployment.value);
      StackView(Some(tick.0), false, Extend(v.attempts, tick.1))
  }

  function Extend(attempts: seq<Attempt>, attempt: Option<Attempt>): seq<Attempt> {
    if attempt.Some? then attempts + [attempt.value] else attempts
  }

  // ---- Messages that carry a list ----

  function DeployedAll(node: NodeHash, ids: seq<StackID>, id: StackID, v: StackView): StackView {
    if ids == [] then v
    else
      var w := DeployedAll(node, ids[..|ids| - 1], id, v);
      if ids[|ids| - 1] == id then OnNodeDeployed(node, w) else w
  }

  function UndeployedAll(node: NodeHash, ids: seq<StackID>, id: StackID, v: StackView): StackView {
    if ids == [] then v
    else
      var w := UndeployedAll(node, ids[..|ids| - 1], id, v);
      if ids[|ids| - 1] == id then OnNodeUndeployed(node, w) else w
  }

  function AvailableAll(stacks: seq<StackWithMetadata>, id: StackID, v: StackView): StackView {
    if stacks == [] then v
    else
      var w := AvailableAll(stacks[..|stacks| - 1], id, v);
      var last := stacks[|stacks| - 1];
      if last.Id() == id then OnStackAvailable(last, w) else w
  }

  function RemovedAll(idModes: seq<(StackID, RemovalMode)>, id: StackID, ok: bool, v: StackView): StackView {
    if idModes == [] then v
    else
      var w := RemovedAll(idModes[..|idModes| - 1], id, ok, v);
      var last := idModes[|idModes| - 1];
      if last.0 == id then OnStackRemoved(last.1, ok, w) else w
  }

  /** One message as one stack sees it. At most one runtime call is made per stack and message, and
      `ok` is its outcome. */
  ghost function StepLocal(id: StackID, l: Local, msg: Message, ok: bool): Local {
    match msg
    case ReadyToScheduleStacks => l.(ready := true)
    case NodeDiscovered(node) => l.(known := l.known + {node})
    case NodeDied(node) => l.(known := l.known - {node}, view := OnNodeDied(node, l.view))
    case NodeDeployedStacks(node, ids) => l.(view := DeployedAll(node, ids, id, l.view))
    case NodeUndeployedStacks(node, ids) => l.(view := UndeployedAll(node, ids, id, l.view))
    case StacksAvailable(stacks) => l.(view := AvailableAll(stacks, id, l.view))
    case StacksRemoved(idModes) => l.(view := RemovedAll(idModes, id, ok, l.view))
    case Tick => if l.ready then l.(view := OnTick(id, l.me, l.known, ok, l.view)) else l
  }

  // ---- Start-up ----

  /** The nodes that already run the stack when the scheduler starts. */
  function HoldersAtStart(nodes: seq<(NodeHash, seq<StackID>)>, id: StackID): set<NodeHash> {
    set i | 0 <= i < |nodes| && id in nodes[i].1 :: nodes[i].0
  }

  /** The definition the scheduler starts with: the last one listed for the id. */
  function DefinitionAtStart(available: seq<StackWithMetadata>, id: StackID): Option<StackWithMetadata> {
    if available == [] then None
    else
      var last := available[|available| - 1];
      if last.Id() == id then Some(last) else DefinitionAtStart(available[..|available| - 1], id)
  }

  function ViewAtStart(
    nodes: seq<(NodeHash, seq<StackID>)>, available: seq<StackWithMetadata>, id: StackID): StackView
  {
    var holders := HoldersAtStart(nodes, id);
    var d := match DefinitionAtStart(available, id)
      case None => if holders == {} then None else Some(Unknown(holders))
      case Some(stack) => if holders == {} then Some(Undeployed(stack)) else Some(DeployedToOthers(stack, holders));
    StackView(d, false, [])
  }

  function LocalAtStart(
    me: NodeHash, nodes: seq<(NodeHash, seq<StackID>)>, available: seq<StackWithMetadata>, id: StackID): Local
  {
    Local(me, set i | 0 <= i < |nodes| :: nodes[i].0, false, ViewAtStart(nodes, available, id))
  }
}
