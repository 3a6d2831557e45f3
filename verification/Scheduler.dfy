/** The stack scheduler: mutable maps updated in place, message by message. Every method is proved
    against module `StackMachine`, stack by stack. */
module Scheduler {
  import opened Ids
  import opened XorMetric
  import opened StackMachine
  import SchedulerRuns

  datatype Notification =
    | StackDeployed(id: StackID)
    | StackUndeployed(id: StackID)
    | FailedToDeployStack(id: StackID)

  datatype Call = Call(id: StackID, attempt: Attempt)

  /** What the runtime calls made for one stack look like among all of them. */
  function AttemptsOn(calls: seq<Call>, id: StackID): seq<Attempt> {
    if calls == [] then []
    else
      var last := calls[|calls| - 1];
      var before := AttemptsOn(calls[..|calls| - 1], id);
      if last.id == id then before + [last.attempt] else before
  }

  /** The notification a runtime call leads to; a failed undeployment sends none. */
  function NotesOf(c: Call): seq<Notification> {
    match c.attempt
    case Deploy(_, ok) => if ok then [StackDeployed(c.id)] else [FailedToDeployStack(c.id)]
    case Undeploy(_, ok) => if ok then [StackUndeployed(c.id)] else []
  }

  function Notes(calls: seq<Call>): seq<Notification> {
    if calls == [] then [] else Notes(calls[..|calls| - 1]) + NotesOf(calls[|calls| - 1])
  }

  lemma {:induction false} CallAppended(calls: seq<Call>, c: Call)
    ensures Notes(calls + [c]) == Notes(calls) + NotesOf(c)
    ensures forall id: StackID ::
      AttemptsOn(calls + [c], id) == if c.id == id then AttemptsOn(calls, id) + [c.attempt] else AttemptsOn(calls, id)
  {
    assert (calls + [c])[..|calls + [c]| - 1] == calls;
  }

  /** Membership's set of locally deployed stacks: the notifications replayed in order. */
  function Published(notes: seq<Notification>): set<StackID> {
    if notes == [] then {}
    else
      var before := Published(notes[..|notes| - 1]);
      match notes[|notes| - 1]
      case StackDeployed(id) => before + {id}
      case StackUndeployed(id) => before - {id}
      case FailedToDeployStack(_) => before
  }

  lemma {:induction false} NoteAppended(notes: seq<Notification>, n: Notification)
    ensures Published(notes + [n]) == match n
      case StackDeployed(id) => Published(notes) + {id}
      case StackUndeployed(id) => Published(notes) - {id}
      case FailedToDeployStack(_) => Published(notes)
  {
    assert (notes + [n])[..|notes + [n]| - 1] == notes;
  }

  /** The published set agrees with each stack's own replay. */
  lemma {:induction false} PublishedIsAnnounced(calls: seq<Call>, id: StackID)
    ensures id in Published(Notes(calls)) <==> SchedulerRuns.Announced(AttemptsOn(calls, id))
  {
    if calls != [] {
      var init, last := calls[..|calls| - 1], calls[|calls| - 1];
      PublishedIsAnnounced(init, id);
      SchedulerRuns.AttemptAppended(AttemptsOn(init, id), last.attempt);
      if NotesOf(last) == [] {
        assert Notes(init) + [] == Notes(init);
      } else {
        NoteAppended(Notes(init), NotesOf(last)[0]);
        assert Notes(calls) == Notes(init) + [NotesOf(last)[0]];
      }
    }
  }

  const ZERO_KEY: Bytes32 := seq(KEY_SIZE, _ => 0)

  const USELESS_STACK := StackWithMetadata("", "", 0, SolanaStackMetadata(ZERO_KEY, ZERO_KEY))

  class Scheduler {
    const myHash: NodeHash
    var knownNodes: set<NodeHash>
    var stacks: map<StackID, StackDeployment>
    var reevaluateOnNextTick: set<StackID>
    var readyToSchedule: bool
    var outbox: seq<Notification>
    ghost var calls: seq<Call>

    ghost predicate Valid()
      reads this
    {
      outbox == Notes(calls)
    }

    ghost function Entry(id: StackID): Option<StackDeployment>
      reads this
    {
      if id in stacks then Some(stacks[id]) else None
    }

    ghost function View(id: StackID): StackView
      reads this
    {
      StackView(Entry(id), id in reevaluateOnNextTick, AttemptsOn(calls, id))
    }

    ghost function LocalOf(id: StackID): Local
      reads this
    {
      Local(myHash, knownNodes, readyToSchedule, View(id))
    }

    constructor (myHash: NodeHash, nodes: seq<(NodeHash, seq<StackID>)>, available: seq<StackWithMetadata>)
      ensures Valid()
      ensures forall id: StackID :: LocalOf(id) == LocalAtStart(myHash, nodes, available, id)
    {
      var deployment, known := CollectHolders(nodes);
      var entries := InitialEntries(nodes, deployment, available);
      this.myHash := myHash;
      this.stacks := entries;
      this.reevaluateOnNextTick := {};
      this.readyToSchedule := false;
      this.knownNodes := known;
      this.outbox := [];
      this.calls := [];
    }

    /** Calls the runtime and reports the outcome. */
    method DeployStack(id: StackID, stack: StackWithMetadata, ok: bool)
      requires Valid()
      modifies this`outbox, this`calls
      ensures Valid()
      ensures AttemptsOn(calls, id) == old(AttemptsOn(calls, id)) + [Deploy(stack, ok)]
      ensures forall other: StackID :: other != id ==> AttemptsOn(calls, other) == old(AttemptsOn(calls, other))
    {
      outbox := outbox + (if ok then [StackDeployed(id)] else [FailedToDeployStack(id)]);
      CallAppended(calls, Call(id, Deploy(stack, ok)));
      calls := calls + [Call(id, Deploy(stack, ok))];
    }

    method UndeployStack(id: StackID, mode: RemovalMode, ok: bool)
      requires Valid()
      modifies this`outbox, this`calls
      ensures Valid()
      ensures AttemptsOn(calls, id) == old(AttemptsOn(calls, id)) + [Undeploy(mode, ok)]
      ensures forall other: StackID :: other != id ==> AttemptsOn(calls, other) == old(AttemptsOn(calls, other))
    {
      if ok {
        outbox := outbox + [StackUndeployed(id)];
      }
      CallAppended(calls, Call(id, Undeploy(mode, ok)));
      calls := calls + [Call(id, Undeploy(mode, ok))];
    }

    /** Handles one message. `succeeds` holds the stacks whose runtime call, if one is made, succeeds. */
    method Step(msg: Message, succeeds: set<StackID>)
      requires Valid()
      modifies this
      ensures Valid()
      ensures forall id: StackID :: LocalOf(id) == StepLocal(id, old(LocalOf(id)), msg, id in succeeds)
    {
      match msg
      case ReadyToScheduleStacks => readyToSchedule := true;
      case NodeDiscovered(node) => knownNodes := knownNodes + {node};
      case NodeDied(node) => RemoveNode(node);
      case NodeDeployedStacks(node, ids) => RecordDeployments(node, ids);
      case NodeUndeployedStacks(node, ids) => RecordUndeployments(node, ids);
      case StacksAvailable(stacks) => AddStacks(stacks);
      case StacksRemoved(idModes) => RemoveStacks(idModes, succeeds);
      case Tick => TickAll(succeeds);
    }

    method RemoveNode(node: NodeHash)
      requires Valid()
      modifies this`knownNodes, this`stacks, this`reevaluateOnNextTick
      ensures Valid()
      ensures knownNodes == old(knownNodes) - {node}
      ensures forall id: StackID :: View(id) == OnNodeDied(node, old(View(id)))
    {
      knownNodes := knownNodes - {node};
      var todo := stacks.Keys;
      while todo != {}
        invariant todo <= stacks.Keys == old(stacks.Keys)
        invariant knownNodes == old(knownNodes) - {node}
        invariant forall id: StackID ::
          View(id) == if id in stacks && id !in todo then OnNodeDied(node, old(View(id))) else old(View(id))
      {
        var id :| id in todo;
        todo := todo - {id};
        assert View(id) == old(View(id));
        RemoveNodeFrom(node, id);
      }
    }

    /** Takes the definition out of an entry and leaves a placeholder, which is a definition of the all-zero id. The
        caller replaces the entry before anybody looks. */
    method TakeStack(id: StackID) returns (stack: StackWithMetadata)
      requires id in stacks && !stacks[id].Unknown?
      modifies this`stacks
      ensures stack == old(stacks)[id].stack
      ensures id in stacks && !stacks[id].Unknown? && stacks[id].stack == USELESS_STACK
      ensures stacks == old(stacks)[id := stacks[id]]
    {
      stack := stacks[id].stack;
      match stacks[id] {
        case Undeployed(_) => stacks := stacks[id := Undeployed(USELESS_STACK)];
        case HasDeploymentCandidate(_, candidate) =>
          stacks := stacks[id := HasDeploymentCandidate(USELESS_STACK, candidate)];
        case DeployedToSelf(_, holders) => stacks := stacks[id := DeployedToSelf(USELESS_STACK, holders)];
        case DeployedToSelfWithPendingUpdate(_, holders) =>
          stacks := stacks[id := DeployedToSelfWithPendingUpdate(USELESS_STACK, holders)];
        case DeployedToOthers(_, holders) => stacks := stacks[id := DeployedToOthers(USELESS_STACK, holders)];
      }
    }

    method RemoveNodeFrom(node: NodeHash, id: StackID)
      requires id in stacks
      modifies this`stacks, this`reevaluateOnNextTick
      ensures stacks.Keys == old(stacks.Keys)
      ensures View(id) == OnNodeDied(node, old(View(id)))
      ensures forall other: StackID :: other != id ==> View(other) == old(View(other))
    {
      match stacks[id]
      case Unknown(holders) =>
        if node in holders {
          stacks := stacks[id := Unknown(holders - {node})];
          reevaluateOnNextTick := reevaluateOnNextTick + {id};
        }
      case DeployedToSelf(stack, holders) =>
        if node in holders {
          stacks := stacks[id := DeployedToSelf(stack, holders - {node})];
          reevaluateOnNextTick := reevaluateOnNextTick + {id};
        }
      case DeployedToSelfWithPendingUpdate(stack, holders) =>
        if node in holders {
          stacks := stacks[id := DeployedToSelfWithPendingUpdate(stack, holders - {node})];
          reevaluateOnNextTick := reevaluateOnNextTick + {id};
        }
      case Undeployed(_) =>
      case HasDeploymentCandidate(stack, candidate) =>
        if candidate == node {
          var taken := TakeStack(id);
          stacks := stacks[id := Undeployed(taken)];
          reevaluateOnNextTick := reevaluateOnNextTick + {id};
        }
      case DeployedToOthers(stack, holders) =>
        stacks := stacks[id := DeployedToOthers(stack, holders - {node})];
        if node in holders && holders - {node} == {} {
          var taken := TakeStack(id);
          stacks := stacks[id := Undeployed(taken)];
          reevaluateOnNextTick := reevaluateOnNextTick + {id};
        }
    }

    method RecordDeployments(node: NodeHash, ids: seq<StackID>)
      requires Valid()
      modifies this`stacks, this`reevaluateOnNextTick
      ensures Valid()
      ensures forall id: StackID :: View(id) == DeployedAll(node, ids, id, old(View(id)))
    {
      for i := 0 to |ids|
        invariant forall id: StackID :: View(id) == DeployedAll(node, ids[..i], id, old(View(id)))
      {
        assert ids[..i + 1][..i] == ids[..i];
        RecordDeployment(node, ids[i]);
      }
      assert ids[..|ids|] == ids;
    }

    method RecordDeployment(node: NodeHash, id: StackID)
      modifies this`stacks, this`reevaluateOnNextTick
      ensures View(id) == OnNodeDeployed(node, old(View(id)))
      ensures forall other: StackID :: other != id ==> View(other) == old(View(other))
    {
      reevaluateOnNextTick := reevaluateOnNextTick + {id};
      if id !in stacks {
        stacks := stacks[id := Unknown({node})];
      } else {
        match stacks[id]
        case Unknown(holders) => stacks := stacks[id := Unknown(holders + {node})];
        case DeployedToSelf(stack, holders) => stacks := stacks[id := DeployedToSelf(stack, holders + {node})];
        case DeployedToSelfWithPendingUpdate(stack, holders) =>
          stacks := stacks[id := DeployedToSelfWithPendingUpdate(stack, holders + {node})];
        case DeployedToOthers(stack, holders) => stacks := stacks[id := DeployedToOthers(stack, holders + {node})];
        case HasDeploymentCandidate(_, _) =>
          var taken := TakeStack(id);
          stacks := stacks[id := DeployedToOthers(taken, {node})];
        case Undeployed(_) =>
          var taken := TakeStack(id);
          stacks := stacks[id := DeployedToOthers(taken, {node})];
      }
    }

    method RecordUndeployments(node: NodeHash, ids: seq<StackID>)
      requires Valid()
      modifies this`stacks, this`reevaluateOnNextTick
      ensures Valid()
      ensures forall id: StackID :: View(id) == UndeployedAll(node, ids, id, old(View(id)))
    {
      for i := 0 to |ids|
        invariant forall id: StackID :: View(id) == UndeployedAll(node, ids[..i], id, old(View(id)))
      {
        assert ids[..i + 1][..i] == ids[..i];
        RecordUndeployment(node, ids[i]);
      }
      assert ids[..|ids|] == ids;
    }

    method RecordUndeployment(node: NodeHash, id: StackID)
      modifies this`stacks, this`reevaluateOnNextTick
      ensures View(id) == OnNodeUndeployed(node, old(View(id)))
      ensures forall other: StackID :: other != id ==> View(other) == old(View(other))
    {
      reevaluateOnNextTick := reevaluateOnNextTick + {id};
      if id in stacks {
        match stacks[id]
        case DeployedToSelf(stack, holders) => stacks := stacks[id := DeployedToSelf(stack, holders - {node})];
        case DeployedToSelfWithPendingUpdate(stack, holders) =>
          stacks := stacks[id := DeployedToSelfWithPendingUpdate(stack, holders - {node})];
        case Unknown(holders) =>
          stacks := stacks[id := Unknown(holders - {node})];
          if holders - {node} == {} {
            stacks := stacks - {id};
          }
        case HasDeploymentCandidate(_, _) =>
        case Undeployed(_) =>
        case DeployedToOthers(stack, holders) =>
          stacks := stacks[id := DeployedToOthers(stack, holders - {node})];
          if node in holders && holders - {node} == {} {
            var taken := TakeStack(id);
            stacks := stacks[id := Undeployed(taken)];
          }
      }
    }

    method AddStacks(newStacks: seq<StackWithMetadata>)
      requires Valid()
      modifies this`stacks, this`reevaluateOnNextTick
      ensures Valid()
      ensures forall id: StackID :: View(id) == AvailableAll(newStacks, id, old(View(id)))
    {
      for i := 0 to |newStacks|
        invariant forall id: StackID :: View(id) == AvailableAll(newStacks[..i], id, old(View(id)))
      {
        assert newStacks[..i + 1][..i] == newStacks[..i];
        AddStack(newStacks[i]);
      }
      assert newStacks[..|newStacks|] == newStacks;
    }

    method AddStack(newStack: StackWithMetadata)
      modifies this`stacks, this`reevaluateOnNextTick
      ensures View(newStack.Id()) == OnStackAvailable(newStack, old(View(newStack.Id())))
      ensures forall other: StackID :: other != newStack.Id() ==> View(other) == old(View(other))
    {
      var id := newStack.Id();
      reevaluateOnNextTick := reevaluateOnNextTick + {id};
      if id !in stacks {
        stacks := stacks[id := Undeployed(newStack)];
      } else {
        match stacks[id]
        case Unknown(holders) =>
          if holders == {} {
            stacks := stacks[id := Undeployed(newStack)];
          } else {
            stacks := stacks[id := DeployedToOthers(newStack, holders)];
          }
        case DeployedToSelf(stack, holders) =>
          if stack.revision < newStack.revision {
            stacks := stacks[id := DeployedToSelfWithPendingUpdate(newStack, holders)];
          }
        case DeployedToSelfWithPendingUpdate(previous, holders) =>
          if previous.revision < newStack.revision {
            stacks := stacks[id := DeployedToSelfWithPendingUpdate(newStack, holders)];
          }
        case HasDeploymentCandidate(stack, candidate) =>
          if stack.revision < newStack.revision {
            stacks := stacks[id := HasDeploymentCandidate(newStack, candidate)];
          }
        case DeployedToOthers(stack, holders) =>
          if stack.revision < newStack.revision {
            stacks := stacks[id := DeployedToOthers(newStack, holders)];
          }
        case Undeployed(stack) =>
          if stack.revision < newStack.revision {
            stacks := stacks[id := Undeployed(newStack)];
          }
      }
    }

    method RemoveStacks(idModes: seq<(StackID, RemovalMode)>, succeeds: set<StackID>)
      requires Valid()
      modifies this`stacks, this`outbox, this`calls
      ensures Valid()
      ensures forall id: StackID :: View(id) == RemovedAll(idModes, id, id in succeeds, old(View(id)))
    {
      for i := 0 to |idModes|
        invariant Valid()
        invariant forall id: StackID :: View(id) == RemovedAll(idModes[..i], id, id in succeeds, old(View(id)))
      {
        assert idModes[..i + 1][..i] == idModes[..i];
        RemoveStack(idModes[i].0, idModes[i].1, idModes[i].0 in succeeds);
      }
      assert idModes[..|idModes|] == idModes;
    }

    method RemoveStack(id: StackID, mode: RemovalMode, ok: bool)
      requires Valid()
      modifies this`stacks, this`outbox, this`calls
      ensures Valid()
      ensures View(id) == OnStackRemoved(mode, ok, old(View(id)))
      ensures forall other: StackID :: other != id ==> View(other) == old(View(other))
    {
      if id in stacks {
        if stacks[id].DeployedToSelf? || stacks[id].DeployedToSelfWithPendingUpdate? {
          UndeployStack(id, mode, ok);
        }
        stacks := stacks - {id};
      }
    }

    method TickAll(succeeds: set<StackID>)
      requires Valid()
      modifies this`stacks, this`reevaluateOnNextTick, this`outbox, this`calls
      ensures Valid()
      ensures forall id: StackID ::
        View(id) ==
          if readyToSchedule then OnTick(id, myHash, knownNodes, id in succeeds, old(View(id))) else old(View(id))
    {
      if !readyToSchedule {
        return;
      }
      var todo := reevaluateOnNextTick;
      while todo != {}
        invariant Valid()
        invariant todo <= reevaluateOnNextTick == old(reevaluateOnNextTick)
        invariant forall id: StackID ::
          View(id) == if id in reevaluateOnNextTick && id !in todo
          then OnTick(id, myHash, knownNodes, id in succeeds, old(View(id))).(queued := true)
          else old(View(id))
      {
        var id :| id in todo;
        todo := todo - {id};
        assert View(id) == old(View(id));
        if id in stacks {
          TickOne(id, id in succeeds);
        }
      }
      reevaluateOnNextTick := {};
    }

    ghost function Ticked(id: StackID, ok: bool, d: StackDeployment): (StackDeployment, Option<Attempt>)
      reads this`knownNodes
    {
      TickStack(id, myHash, knownNodes, ok, d)
    }

    /** Re-evaluates one queued stack; the queue itself is cleared by the caller. */
    method TickOne(id: StackID, ok: bool)
      requires Valid()
      requires id in stacks
      modifies this`stacks, this`outbox, this`calls
      ensures Valid()
      ensures
        var tick := Ticked(id, ok, old(stacks[id]));
        && stacks == old(stacks)[id := tick.0]
        && AttemptsOn(calls, id) == Extend(old(AttemptsOn(calls, id)), tick.1)
      ensures forall other: StackID :: other != id ==> AttemptsOn(calls, other) == old(AttemptsOn(calls, other))
    {
      match stacks[id]
      case Undeployed(_) =>
        var closest := GetClosestNode(id, myHash, knownNodes);
        match closest {
          case Me => DeployHere(id, {}, ok);
          case Other(node) =>
            var taken := TakeStack(id);
            stacks := stacks[id := HasDeploymentCandidate(taken, node)];
        }
      case DeployedToSelf(_, holders) =>
        var closer := CheckCloserRemote(id, holders);
        if closer.Some? {
          HandOff(id, holders, ok);
        }
      case DeployedToSelfWithPendingUpdate(_, holders) =>
        var closer := CheckCloserRemote(id, holders);
        if closer.Some? {
          HandOff(id, holders, ok);
        } else {
          DeployHere(id, holders, ok);
        }
      case DeployedToOthers(_, holders) =>
        var closest := GetClosestNode(id, myHash, holders);
        if closest.Me? {
          DeployHere(id, holders, ok);
        }
      case HasDeploymentCandidate(_, _) =>
      case Unknown(_) =>
    }

    /** Deploys the stack; the entry changes only if that succeeds. */
    method DeployHere(id: StackID, holders: set<NodeHash>, ok: bool)
      requires Valid() && id in stacks && !stacks[id].Unknown?
      modifies this`stacks, this`outbox, this`calls
      ensures Valid()
      ensures stacks == if ok then old(stacks)[id := DeployedToSelf(old(stacks)[id].stack, holders)] else old(stacks)
      ensures AttemptsOn(calls, id) == old(AttemptsOn(calls, id)) + [Deploy(old(stacks)[id].stack, ok)]
      ensures forall other: StackID :: other != id ==> AttemptsOn(calls, other) == old(AttemptsOn(calls, other))
    {
      DeployStack(id, stacks[id].stack, ok);
      if ok {
        var taken := TakeStack(id);
        stacks := stacks[id := DeployedToSelf(taken, holders)];
      }
    }

    /** Undeploys the stack; the entry changes whether or not that succeeds. */
    method HandOff(id: StackID, holders: set<NodeHash>, ok: bool)
      requires Valid() && id in stacks && !stacks[id].Unknown?
      modifies this`stacks, this`outbox, this`calls
      ensures Valid()
      ensures stacks == old(stacks)[id := DeployedToOthers(old(stacks)[id].stack, holders)]
      ensures AttemptsOn(calls, id) == old(AttemptsOn(calls, id)) + [Undeploy(Temporary, ok)]
      ensures forall other: StackID :: other != id ==> AttemptsOn(calls, other) == old(AttemptsOn(calls, other))
    {
      UndeployStack(id, Temporary, ok);
      var taken := TakeStack(id);
      stacks := stacks[id := DeployedToOthers(taken, holders)];
    }

    /** A recorded holder closer to the stack than this node, if there is one. */
    method CheckCloserRemote(id: StackID, holders: set<NodeHash>) returns (r: Option<NodeHash>)
      ensures r.Some? <==> HasCloserRemote(id, myHash, holders)
      ensures r.Some? ==> r.value in holders && Closer(id, r.value, myHash)
    {
      r := None;
      if holders != {} {
        var closest := GetClosestNode(id, myHash, holders);
        if closest.Other? {
          r := Some(closest.node);
        }
      }
    }
  }

  /** The messages of a mailbox with their outcomes, as one stack sees them. */
  ghost function EventsFor(inbox: seq<(Message, set<StackID>)>, id: StackID): seq<SchedulerRuns.Event> {
    seq(|inbox|, i requires 0 <= i < |inbox| => SchedulerRuns.Event(inbox[i].0, id in inbox[i].1))
  }

  /** A whole scheduler life: start it and feed it any mailbox. Everything proved of single-stack runs
      holds of every stack of the running scheduler, and the set that membership publishes by replaying
      its notifications is exactly the stacks that run here plus those whose last decisive runtime call
      was a failed undeployment. */
  method RunMailbox(
    myHash: NodeHash, nodes: seq<(NodeHash, seq<StackID>)>, available: seq<StackWithMetadata>,
    inbox: seq<(Message, set<StackID>)>) returns (s: Scheduler)
    ensures fresh(s) && s.Valid()
    ensures forall id: StackID ::
      s.LocalOf(id) == SchedulerRuns.Run(id, LocalAtStart(myHash, nodes, available, id), EventsFor(inbox, id))
    ensures forall id: StackID :: SchedulerRuns.WellPlaced(id, myHash, s.knownNodes, s.View(id))
    ensures forall id: StackID :: SchedulerRuns.RunsAsHeld(s.View(id))
    ensures forall id <- s.stacks :: id != USELESS_STACK.Id() && !s.stacks[id].Unknown? ==>
      s.stacks[id].stack != USELESS_STACK
    ensures forall id: StackID :: SchedulerRuns.RunsHere(s.View(id)) ==> id in Published(s.outbox)
    ensures forall id: StackID ::
      id in Published(s.outbox) && !SchedulerRuns.RunsHere(s.View(id)) ==>
      SchedulerRuns.LastDecisive(s.View(id).attempts).Some? &&
      SchedulerRuns.LastDecisive(s.View(id).attempts).value.Undeploy? &&
      !SchedulerRuns.LastDecisive(s.View(id).attempts).value.ok
  {
    s := new Scheduler(myHash, nodes, available);
    for i := 0 to |inbox|
      invariant fresh(s) && s.Valid()
      invariant forall id: StackID ::
        s.LocalOf(id) == SchedulerRuns.Run(id, LocalAtStart(myHash, nodes, available, id), EventsFor(inbox[..i], id))
    {
      s.Step(inbox[i].0, inbox[i].1);
      forall id: StackID
        ensures EventsFor(inbox[..i + 1], id)[..i] == EventsFor(inbox[..i], id)
      {
      }
    }
    assert inbox[..|inbox|] == inbox;
    forall id: StackID
      ensures SchedulerRuns.WellPlaced(id, myHash, s.knownNodes, s.View(id))
      ensures SchedulerRuns.AnnouncementExact(s.View(id)) && SchedulerRuns.RunsAsHeld(s.View(id))
      ensures id in Published(s.outbox) <==> SchedulerRuns.Announced(s.View(id).attempts)
    {
      SchedulerRuns.EveryRunWellPlaced(id, myHash, nodes, available, EventsFor(inbox, id));
      SchedulerRuns.EveryRunAnnouncedExactly(id, myHash, nodes, available, EventsFor(inbox, id));
      SchedulerRuns.EveryRunRunsAsHeld(id, myHash, nodes, available, EventsFor(inbox, id));
      PublishedIsAnnounced(s.calls, id);
    }
    forall id | id in s.stacks && id != USELESS_STACK.Id() && !s.stacks[id].Unknown?
      ensures s.stacks[id].stack != USELESS_STACK
    {
      assert SchedulerRuns.Definition(s.View(id)) == Some(s.stacks[id].stack);
    }
  }

  /** The nodes each stack is initially deployed to, and the set of all nodes. */
  method CollectHolders(nodes: seq<(NodeHash, seq<StackID>)>)
    returns (deployment: map<StackID, set<NodeHash>>, known: set<NodeHash>)
    ensures forall id: StackID :: HoldersAtStart(nodes, id) == if id in deployment then deployment[id] else {}
    ensures forall id <- deployment :: deployment[id] != {}
    ensures known == set i | 0 <= i < |nodes| :: nodes[i].0
  {
    deployment, known := map[], {};
    for n := 0 to |nodes|
      invariant forall id: StackID :: HoldersAtStart(nodes[..n], id) == if id in deployment then deployment[id] else {}
      invariant forall id <- deployment :: deployment[id] != {}
      invariant known == set i | 0 <= i < n :: nodes[i].0
    {
      deployment := AddHolder(deployment, nodes[n].0, nodes[n].1);
      known := known + {nodes[n].0};
      HoldersExtended(nodes, n);
    }
    assert nodes[..|nodes|] == nodes;
  }

  method AddHolder(before: map<StackID, set<NodeHash>>, node: NodeHash, ids: seq<StackID>)
    returns (after: map<StackID, set<NodeHash>>)
    ensures after.Keys == before.Keys + set id | id in ids
    ensures forall id <- after ::
      after[id] == (if id in before then before[id] else {}) + (if id in ids then {node} else {})
  {
    after := before;
    for k := 0 to |ids|
      invariant after.Keys == before.Keys + set id | id in ids[..k]
      invariant forall id <- after ::
        after[id] == (if id in before then before[id] else {}) + (if id in ids[..k] then {node} else {})
    {
      var id := ids[k];
      after := after[id := (if id in after then after[id] else {}) + {node}];
      assert ids[..k + 1] == ids[..k] + [id];
    }
    assert ids[..|ids|] == ids;
  }

  method InitialEntries(
    ghost nodes: seq<(NodeHash, seq<StackID>)>, deployment: map<StackID, set<NodeHash>>,
    available: seq<StackWithMetadata>)
    returns (entries: map<StackID, StackDeployment>)
    requires forall id: StackID :: HoldersAtStart(nodes, id) == if id in deployment then deployment[id] else {}
    requires forall id <- deployment :: deployment[id] != {}
    ensures forall id: StackID ::
      ViewAtStart(nodes, available, id).deployment == if id in entries then Some(entries[id]) else None
  {
    entries := map id | id in deployment :: Unknown(deployment[id]);
    for s := 0 to |available|
      invariant forall id: StackID ::
        ViewAtStart(nodes, available[..s], id).deployment == if id in entries then Some(entries[id]) else None
    {
      var stack := available[s];
      var id := stack.Id();
      entries := entries[id := if id in deployment then DeployedToOthers(stack, deployment[id]) else Undeployed(stack)];
      assert available[..s + 1][..s] == available[..s];
    }
    assert available[..|available|] == available;
  }

  lemma {:induction false} HoldersExtended(nodes: seq<(NodeHash, seq<StackID>)>, n: nat)
    requires n < |nodes|
    ensures forall id: StackID ::
      HoldersAtStart(nodes[..n + 1], id) ==
        HoldersAtStart(nodes[..n], id) + (if id in nodes[n].1 then {nodes[n].0} else {})
  {
    forall id: StackID
      ensures HoldersAtStart(nodes[..n + 1], id) ==
        HoldersAtStart(nodes[..n], id) + (if id in nodes[n].1 then {nodes[n].0} else {})
    {
      var longer, shorter := nodes[..n + 1], nodes[..n];
      forall h | h in HoldersAtStart(longer, id)
        ensures h in HoldersAtStart(shorter, id) + (if id in nodes[n].1 then {nodes[n].0} else {})
      {
        var i :| 0 <= i < |longer| && id in longer[i].1 && longer[i].0 == h;
        if i < n {
          assert shorter[i] == longer[i];
        }
      }
      forall h | h in HoldersAtStart(shorter, id)
        ensures h in HoldersAtStart(longer, id)
      {
        var i :| 0 <= i < |shorter| && id in shorter[i].1 && shorter[i].0 == h;
        assert longer[i] == shorter[i];
      }
      assert longer[n] == nodes[n];
    }
  }
}
