/** Nodes that die and join between rounds, and how a cluster gets stuck. */
module ClusterChurn {
  import opened Ids
  import opened XorMetric
  import opened StackMachine
  import opened SchedulerRuns
  import opened Cluster

  // ---- Two ways to get stuck ----

  /** A single node whose deployment fails never tries again: the cluster is in sync and stuck. */
  lemma {:induction false} FailedDeploymentSticks(id: StackID, n: NodeHash, stack: StackWithMetadata)
    requires stack.Id() == id
    ensures
      var events := Single(StacksAvailable([stack]), true) + Single(ReadyToScheduleStacks, true) + Single(Tick, false);
      var c := map[n := Run(id, LocalAtStart(n, [], [], id), events)];
      InSync(id, c) && IsClosestOf(id, c.Keys, n) && Stuck(id, c, n)
  {
    var events := Single(StacksAvailable([stack]), true) + Single(ReadyToScheduleStacks, true) + Single(Tick, false);
    LoneNodeTicks(id, n, stack, false);
    var c := map[n := Run(id, LocalAtStart(n, [], [], id), events)];
    assert n in c && Holders(c) == {};
  }

  /** What node `b` lives through below. It starts alone, runs the stack, meets the others, hears that `d` runs it
      too, and then that `d` died. */
  function LifeOfHolder(id: StackID, m: NodeHash, d: NodeHash, stack: StackWithMetadata): seq<Event> {
    Single(StacksAvailable([stack]), true) + Single(ReadyToScheduleStacks, true) + Single(Tick, true)
    + Single(NodeDiscovered(m), true) + Single(NodeDiscovered(d), true) + Single(NodeDeployedStacks(d, [id]), true)
    + Single(NodeDied(d), true) + Single(Tick, true)
  }

  lemma {:induction false} HolderAfterLife(id: StackID, b: NodeHash, m: NodeHash, d: NodeHash, stack: StackWithMetadata)
    requires stack.Id() == id && m != d
    ensures Run(id, LocalAtStart(b, [], [], id), LifeOfHolder(id, m, d, stack)) ==
      Local(b, {m}, true, StackView(Some(DeployedToSelf(stack, {})), false, [Deploy(stack, true)]))
  {
    var start := LocalAtStart(b, [], [], id);
    var e3 := Single(StacksAvailable([stack]), true) + Single(ReadyToScheduleStacks, true) + Single(Tick, true);
    var e4 := e3 + Single(NodeDiscovered(m), true);
    var e5 := e4 + Single(NodeDiscovered(d), true);
    var e6 := e5 + Single(NodeDeployedStacks(d, [id]), true);
    var e7 := e6 + Single(NodeDied(d), true);
    var running := StackView(Some(DeployedToSelf(stack, {})), false, [Deploy(stack, true)]);
    LoneNodeTicks(id, b, stack, true);
    RunOne(id, start, e3, NodeDiscovered(m), true);
    RunOne(id, start, e4, NodeDiscovered(d), true);
    assert {m} + {d} == {m, d} && {} + {d} == {d} && {} + {m} == {m};
    RunOne(id, start, e5, NodeDeployedStacks(d, [id]), true);
    ListOfOne(id, d, stack, running);
    var beside := Local(b, {m, d}, true, StackView(Some(DeployedToSelf(stack, {d})), true, [Deploy(stack, true)]));
    assert Run(id, start, e6) == beside;
    RunOne(id, start, e6, NodeDied(d), true);
    RunOne(id, start, e7, Tick, true);
    AloneAgain(id, b, m, d, stack, beside);
  }

  lemma {:induction false} AloneAgain(
    id: StackID, b: NodeHash, m: NodeHash, d: NodeHash, stack: StackWithMetadata, l: Local)
    requires m != d
    requires l == Local(b, {m, d}, true, StackView(Some(DeployedToSelf(stack, {d})), true, [Deploy(stack, true)]))
    ensures StepLocal(id, StepLocal(id, l, NodeDied(d), true), Tick, true) ==
      Local(b, {m}, true, StackView(Some(DeployedToSelf(stack, {})), false, [Deploy(stack, true)]))
  {
    assert {m, d} - {d} == {m} && {d} - {d} == {};
  }

  /** What node `m` lives through: it starts while `b` and `d` run the stack, leaves it to `d`, and hears that `d`
      died. */
  function LifeOfClosest(d: NodeHash, stack: StackWithMetadata): seq<Event> {
    Single(StacksAvailable([stack]), true) + Single(ReadyToScheduleStacks, true) + Single(Tick, true)
    + Single(NodeDied(d), true)
  }

  lemma {:induction false} ClosestAfterLife(
    id: StackID, b: NodeHash, m: NodeHash, d: NodeHash, stack: StackWithMetadata)
    requires stack.Id() == id && b != d && Closer(id, d, m)
    ensures Run(id, LocalAtStart(m, [(b, [id]), (d, [id])], [], id), LifeOfClosest(d, stack)) ==
      Local(m, {b}, true, StackView(Some(DeployedToOthers(stack, {b})), false, []))
  {
    var nodes := [(b, [id]), (d, [id])];
    var start := LocalAtStart(m, nodes, [], id);
    assert nodes[0].0 == b && nodes[1].0 == d;
    assert HoldersAtStart(nodes, id) == {b, d} && start.known == {b, d};
    assert start == Local(m, {b, d}, false, StackView(Some(Unknown({b, d})), false, []));
    var e1 := Single(StacksAvailable([stack]), true);
    var e2 := e1 + Single(ReadyToScheduleStacks, true);
    var e3 := e2 + Single(Tick, true);
    RunOne(id, start, [], StacksAvailable([stack]), true);
    assert [] + e1 == e1;
    ListOfOne(id, d, stack, start.view);
    RunOne(id, start, e1, ReadyToScheduleStacks, true);
    RunOne(id, start, e2, Tick, true);
    assert HasCloserRemote(id, m, {b, d});
    assert Run(id, start, e3) == Local(m, {b, d}, true, StackView(Some(DeployedToOthers(stack, {b, d})), false, []));
    RunOne(id, start, e3, NodeDied(d), true);
    assert {b, d} - {d} == {b};
  }

  /** Losing a holder that is not the last one queues nobody: when `d`, closer than `m`, dies while `b`, farther
      than `m`, also runs the stack, `m` never takes it back. */
  lemma {:induction false} LostHolderSticks(
    id: StackID, b: NodeHash, m: NodeHash, d: NodeHash, stack: StackWithMetadata)
    requires stack.Id() == id && Closer(id, d, m) && Closer(id, m, b)
    ensures
      var c := map[
        m := Run(id, LocalAtStart(m, [(b, [id]), (d, [id])], [], id), LifeOfClosest(d, stack)),
        b := Run(id, LocalAtStart(b, [], [], id), LifeOfHolder(id, m, d, stack))];
      InSync(id, c) && IsClosestOf(id, c.Keys, m) && Stuck(id, c, m)
  {
    HolderAfterLife(id, b, m, d, stack);
    ClosestAfterLife(id, b, m, d, stack);
    var c := map[
      m := Run(id, LocalAtStart(m, [(b, [id]), (d, [id])], [], id), LifeOfClosest(d, stack)),
      b := Run(id, LocalAtStart(b, [], [], id), LifeOfHolder(id, m, d, stack))];
    assert c.Keys == {m, b} && c.Keys - {m} == {b} && c.Keys - {b} == {m};
    assert Holders(c) == {b};
    assert Holders(c) - {m} == {b} && Holders(c) - {b} == {};
  }

  // ---- A node dies ----

  /** Everybody else hears of the death. */
  ghost function AfterDeath(id: StackID, c: Cluster, d: NodeHash): Cluster {
    map n | n in c && n != d :: StepLocal(id, c[n], NodeDied(d), true)
  }

  predicate WaitsFor(v: StackView, d: NodeHash) {
    v.deployment.Some? && v.deployment.value.HasDeploymentCandidate? && v.deployment.value.deploymentCandidate == d
  }

  lemma {:induction false} DeathAtNode(id: StackID, l: Local, runsHere: bool, recorded: set<NodeHash>, d: NodeHash)
    requires WellPlaced(id, l.me, l.known, l.view) && Reflects(l.view, runsHere, recorded) && d != l.me
    ensures
      var r := StepLocal(id, l, NodeDied(d), true);
      && r.me == l.me && r.ready == l.ready && r.known == l.known - {d}
      && WellPlaced(id, l.me, r.known, r.view)
      && Reflects(r.view, runsHere, recorded - {d})
      && (r.view.queued <==> l.view.queued || WaitsFor(l.view, d) || (runsHere && d in recorded) || recorded == {d})
  {
    StepKeepsWellPlaced(id, l, NodeDied(d), true);
  }

  lemma {:induction false} ReflectsRuns(v: StackView, runsHere: bool, recorded: set<NodeHash>)
    requires Reflects(v, runsHere, recorded)
    ensures RunsHere(v) <==> runsHere
    ensures v.deployment.value.HasDeploymentCandidate? ==> recorded == {}
  {
  }

  /** Those a death makes reconsider: they waited for the dead node, ran the stack beside it, or recorded it as the
      only holder. */
  ghost predicate Affected(c: Cluster, d: NodeHash, n: NodeHash)
    requires n in c
  {
    WaitsFor(c[n].view, d) || (n in Holders(c) && d in Holders(c)) || Holders(c) - {n} == {d}
  }

  lemma {:induction false} DeathAtNodes(id: StackID, c: Cluster, d: NodeHash, n: NodeHash)
    requires InSync(id, c) && n in c && n != d
    ensures
      var l := AfterDeath(id, c, d)[n];
      && l.me == n && l.known == c.Keys - {d} - {n} && l.ready
      && WellPlaced(id, n, l.known, l.view)
      && Reflects(l.view, n in Holders(c) - {d}, Holders(c) - {d} - {n})
      && (RunsHere(l.view) <==> n in Holders(c) - {d})
      && (l.view.queued <==> c[n].view.queued || Affected(c, d, n))
  {
    var l := AfterDeath(id, c, d)[n];
    DeathAtNode(id, c[n], n in Holders(c), Holders(c) - {n}, d);
    assert c.Keys - {n} - {d} == c.Keys - {d} - {n} && Holders(c) - {n} - {d} == Holders(c) - {d} - {n};
    ReflectsRuns(l.view, n in Holders(c), Holders(c) - {n} - {d});
  }

  /** A death keeps the cluster in sync, and queues exactly the affected nodes. */
  lemma {:induction false} DeathEffect(id: StackID, c: Cluster, d: NodeHash)
    requires InSync(id, c) && c.Keys != {d}
    ensures
      var c1 := AfterDeath(id, c, d);
      && InSync(id, c1) && c1.Keys == c.Keys - {d} && Holders(c1) == Holders(c) - {d}
      && forall n <- c1 :: c1[n].view.queued <==> c[n].view.queued || Affected(c, d, n)
  {
    var c1, holders := AfterDeath(id, c, d), Holders(c) - {d};
    assert c1.Keys == c.Keys - {d};
    forall n | n in c1
      ensures c1[n].me == n && c1[n].known == c1.Keys - {n} && c1[n].ready
      ensures WellPlaced(id, n, c1[n].known, c1[n].view)
      ensures Reflects(c1[n].view, n in holders, holders - {n})
      ensures RunsHere(c1[n].view) <==> n in holders
      ensures c1[n].view.queued <==> c[n].view.queued || Affected(c, d, n)
    {
      DeathAtNodes(id, c, d, n);
    }
    assert Holders(c1) == holders;
    assert c1 != map[] by {
      var n :| n in c && n != d;
      assert n in c1;
    }
    SyncedFrom(id, c1, holders);
  }

  /** Exactly when a death leaves the cluster stuck, told from the cluster before it: nobody ran the stack and the
      new closest node neither reconsiders it nor waited for the dead one, or a single other holder is left and
      nobody closer than that one reconsiders the stack. */
  lemma {:induction false} DeathSticksIff(id: StackID, c: Cluster, d: NodeHash, m: NodeHash)
    requires InSync(id, c) && c.Keys != {d} && IsClosestOf(id, c.Keys - {d}, m)
    ensures Stuck(id, AfterDeath(id, c, d), m) <==>
      m !in Holders(c) &&
      if Holders(c) == {} then !c[m].view.queued && !WaitsFor(c[m].view, d)
      else exists b :: Holders(c) - {d} == {b} && forall n <- c :: n != d && c[n].view.queued ==> !Closer(id, n, b)
  {
    var c1 := AfterDeath(id, c, d);
    DeathEffect(id, c, d);
    var h := Holders(c) - {d};
    if m !in Holders(c) && h != {} {
      forall n, b | n in c1 && h == {b} && Closer(id, n, b)
        ensures c1[n].view.queued <==> c[n].view.queued
      {
        assert n != b && n !in Holders(c) && b in Holders(c) - {n};
        ReflectsRuns(c[n].view, n in Holders(c), Holders(c) - {n});
      }
    }
    if Holders(c) == {d} {
      assert Holders(c) - {m} == {d};
    }
  }

  lemma {:induction false} ClosestOfFewer(
    id: StackID, nodes: set<NodeHash>, fewer: set<NodeHash>, a: NodeHash, b: NodeHash)
    requires fewer <= nodes && IsClosestOf(id, nodes, a) && IsClosestOf(id, fewer, b) && a in fewer
    ensures a == b
  {
  }

  /** Whoever dies, a cluster that had settled is not stuck afterwards, so it settles again on the closest node
      left. */
  lemma {:induction false} SettledSurvivesDeath(id: StackID, c: Cluster, settled: NodeHash, d: NodeHash, m: NodeHash)
    requires InSync(id, c) && IsClosestOf(id, c.Keys, settled) && Holders(c) == {settled}
    requires c.Keys != {d} && IsClosestOf(id, c.Keys - {d}, m)
    ensures !Stuck(id, AfterDeath(id, c, d), m)
  {
    DeathSticksIff(id, c, d, m);
    if d == settled {
      assert Holders(c) - {d} == {} && d in Holders(c);
    } else {
      ClosestOfFewer(id, c.Keys, c.Keys - {d}, settled, m);
    }
  }

  // ---- A node joins ----

  /** The others discover the new node, which finds them and what they run in the table, and receives the
      definition and the go-ahead. */
  ghost function AfterJoin(
    id: StackID, c: Cluster, j: NodeHash, found: seq<(NodeHash, seq<StackID>)>, stack: StackWithMetadata): Cluster
  {
    (map n | n in c :: StepLocal(id, c[n], NodeDiscovered(j), true))
    [j := Welcomed(id, LocalAtStart(j, found, [], id), stack)]
  }

  ghost predicate FindsAll(id: StackID, c: Cluster, found: seq<(NodeHash, seq<StackID>)>) {
    (set i | 0 <= i < |found| :: found[i].0) == c.Keys && HoldersAtStart(found, id) == Holders(c)
  }

  lemma {:induction false} Newcomer(
    id: StackID, j: NodeHash, found: seq<(NodeHash, seq<StackID>)>, stack: StackWithMetadata)
    requires stack.Id() == id
    ensures
      var holders := HoldersAtStart(found, id);
      Welcomed(id, LocalAtStart(j, found, [], id), stack) ==
        Local(j, set i | 0 <= i < |found| :: found[i].0, true,
          StackView(Some(if holders == {} then Undeployed(stack) else DeployedToOthers(stack, holders)), true, []))
  {
    ListOfOne(id, j, stack, ViewAtStart(found, [], id));
  }

  /** What the others and the newcomer look like after a join. */
  lemma {:induction false} JoinAtNodes(
    id: StackID, c: Cluster, j: NodeHash, found: seq<(NodeHash, seq<StackID>)>, stack: StackWithMetadata, n: NodeHash)
    requires InSync(id, c) && j !in c && FindsAll(id, c, found) && stack.Id() == id && (n in c || n == j)
    ensures
      var l := AfterJoin(id, c, j, found, stack)[n];
      && l.me == n && l.known == c.Keys + {j} - {n} && l.ready
      && WellPlaced(id, n, l.known, l.view)
      && Reflects(l.view, n in Holders(c), Holders(c) - {n})
      && (RunsHere(l.view) <==> n in Holders(c))
      && (if n == j then l.view.queued else l.view == c[n].view)
  {
    if n == j {
      Newcomer(id, j, found, stack);
      assert c.Keys + {j} - {j} == c.Keys && Holders(c) - {j} == Holders(c);
    } else {
      StepKeepsWellPlaced(id, c[n], NodeDiscovered(j), true);
      assert c.Keys - {n} + {j} == c.Keys + {j} - {n};
      ReflectsRuns(c[n].view, n in Holders(c), Holders(c) - {n});
    }
  }

  lemma {:induction false} JoinEffect(
    id: StackID, c: Cluster, j: NodeHash, found: seq<(NodeHash, seq<StackID>)>, stack: StackWithMetadata)
    requires InSync(id, c) && j !in c && FindsAll(id, c, found) && stack.Id() == id
    ensures
      var c1 := AfterJoin(id, c, j, found, stack);
      && InSync(id, c1) && c1.Keys == c.Keys + {j} && Holders(c1) == Holders(c)
      && c1[j].view.queued && forall n <- c :: c1[n].view == c[n].view
  {
    var c1, holders := AfterJoin(id, c, j, found, stack), Holders(c);
    assert c1.Keys == c.Keys + {j};
    forall n | n in c1
      ensures c1[n].me == n && c1[n].known == c1.Keys - {n} && c1[n].ready
      ensures WellPlaced(id, n, c1[n].known, c1[n].view)
      ensures Reflects(c1[n].view, n in holders, holders - {n})
      ensures RunsHere(c1[n].view) <==> n in holders
      ensures if n == j then c1[n].view.queued else c1[n].view == c[n].view
    {
      JoinAtNodes(id, c, j, found, stack, n);
    }
    assert j in c1;
    assert Holders(c1) == holders;
    SyncedFrom(id, c1, holders);
  }

  lemma {:induction false} SyncedFrom(id: StackID, c: Cluster, holders: set<NodeHash>)
    requires c != map[] && Holders(c) == holders
    requires forall n <- c :: c[n].me == n && c[n].known == c.Keys - {n} && c[n].ready
    requires forall n <- c :: WellPlaced(id, n, c[n].known, c[n].view)
    requires forall n <- c :: Reflects(c[n].view, n in holders, holders - {n})
    ensures InSync(id, c)
  {
  }

  /** A join leaves the cluster stuck exactly when it was stuck, the newcomer is not the closest node, and it is no
      closer than the holder either. */
  lemma {:induction false} JoinSticksIff(
    id: StackID, c: Cluster, j: NodeHash, found: seq<(NodeHash, seq<StackID>)>, stack: StackWithMetadata, m: NodeHash)
    requires InSync(id, c) && j !in c && FindsAll(id, c, found) && stack.Id() == id
    requires IsClosestOf(id, c.Keys + {j}, m)
    ensures Stuck(id, AfterJoin(id, c, j, found, stack), m) <==>
      m != j && Stuck(id, c, m) && forall b <- Holders(c) :: !Closer(id, j, b)
  {
    var c1 := AfterJoin(id, c, j, found, stack);
    JoinEffect(id, c, j, found, stack);
    if m == j && Holders(c) != {} {
      forall b | b in Holders(c)
        ensures Closer(id, j, b)
      {
      }
    }
  }

  // ---- Any history ----

  /** What happens to a cluster between two moments. */
  datatype Change =
    | Exchange(news: Deliveries)
    | Death(node: NodeHash)
    | Join(node: NodeHash, found: seq<(NodeHash, seq<StackID>)>, stack: StackWithMetadata)

  ghost function After(id: StackID, c: Cluster, x: Change): Cluster {
    match x
    case Exchange(news) => Round(id, c, news)
    case Death(d) => AfterDeath(id, c, d)
    case Join(j, found, stack) => AfterJoin(id, c, j, found, stack)
  }

  ghost predicate Possible(id: StackID, c: Cluster, x: Change) {
    match x
    case Exchange(news) => FaithfulRound(id, c, news)
    case Death(d) => c.Keys != {d}
    case Join(j, found, stack) => j !in c && FindsAll(id, c, found) && stack.Id() == id
  }

  ghost function AfterAll(id: StackID, c: Cluster, history: seq<Change>): Cluster {
    if history == [] then c else After(id, AfterAll(id, c, history[..|history| - 1]), history[|history| - 1])
  }

  ghost predicate AllPossible(id: StackID, c: Cluster, history: seq<Change>) {
    history != [] ==>
      var init := history[..|history| - 1];
      AllPossible(id, c, init) && Possible(id, AfterAll(id, c, init), history[|history| - 1])
  }

  /** Through every history of rounds, deaths and joins the nodes' records stay true. */
  lemma {:induction false} HistoryInSync(id: StackID, c: Cluster, history: seq<Change>)
    requires InSync(id, c) && AllPossible(id, c, history)
    ensures InSync(id, AfterAll(id, c, history))
  {
    if history != [] {
      var before := AfterAll(id, c, history[..|history| - 1]);
      HistoryInSync(id, c, history[..|history| - 1]);
      match history[|history| - 1]
      case Exchange(news) => RoundEffect(id, before, news);
      case Death(d) => DeathEffect(id, before, d);
      case Join(j, found, stack) => JoinEffect(id, before, j, found, stack);
    }
  }

  /** After every such history, three or more rounds without a further death or join leave the closest node as
      the only holder if and only if the history did not leave the cluster stuck. */
  lemma {:induction false} ConvergenceAfterHistory(
    id: StackID, c: Cluster, history: seq<Change>,
    first: Deliveries, second: Deliveries, third: Deliveries, more: seq<Deliveries>, m: NodeHash)
    requires InSync(id, c) && AllPossible(id, c, history)
    requires IsClosestOf(id, AfterAll(id, c, history).Keys, m)
    requires FaithfulRounds(id, AfterAll(id, c, history), [first] + ([second] + ([third] + more)))
    ensures Holders(Rounds(id, AfterAll(id, c, history), [first] + ([second] + ([third] + more)))) == {m} <==>
      !Stuck(id, AfterAll(id, c, history), m)
  {
    HistoryInSync(id, c, history);
    ClusterConvergence(id, AfterAll(id, c, history), first, second, third, more, m);
  }
  // ---- A newcomer nobody hears of ----

  /** Like a join, but the newcomer ticks before the others see its first entry. That entry then already lists the
      stack if the newcomer deployed it, so the others discover the node and are never told that it runs the
      stack. */
  ghost function AfterBlindJoin(
    id: StackID, c: Cluster, j: NodeHash, found: seq<(NodeHash, seq<StackID>)>, stack: StackWithMetadata): Cluster
  {
    var c1 := AfterJoin(id, c, j, found, stack);
    c1[j := Ticked(id, c1[j])]
  }

  /** Rounds in which nobody's status changes, so that there is nothing to hear. */
  ghost function QuietRounds(id: StackID, c: Cluster, k: nat): Cluster {
    if k == 0 then c else Round(id, QuietRounds(id, c, k - 1), map[])
  }

  /** Everybody but the holder `m` records `m` and nobody else; these nodes run the stack. */
  ghost predicate AllSeeOnly(id: StackID, c: Cluster, m: NodeHash, running: set<NodeHash>) {
    forall n <- c ::
      && c[n].me == n && c[n].ready && WellPlaced(id, n, c[n].known, c[n].view)
      && Reflects(c[n].view, n in running, if n == m then {} else {m})
  }

  lemma {:induction false} QuietRound(id: StackID, c: Cluster, m: NodeHash, running: set<NodeHash>)
    requires AllSeeOnly(id, c, m, running) && m in running && running <= c.Keys
    requires forall n <- c :: n != m ==> (n in running <==> Closer(id, n, m))
    ensures
      var c1 := Round(id, c, map[]);
      AllSeeOnly(id, c1, m, running) && c1.Keys == c.Keys && Holders(c) == running
  {
    var c1 := Round(id, c, map[]);
    forall n | n in c
      ensures c1[n].me == n && c1[n].ready && WellPlaced(id, n, c1[n].known, c1[n].view)
      ensures Reflects(c1[n].view, n in running, if n == m then {} else {m})
      ensures RunsHere(c[n].view) <==> n in running
    {
      var recorded := if n == m then {} else {m};
      TickLocal(id, c[n], n in running, recorded);
      ReflectsRuns(c[n].view, n in running, recorded);
      assert Delivered(id, Ticked(id, c[n]), []) == Ticked(id, c[n]);
      if n != m {
        CloserTotal(id, n, m);
        assert HasCloserRemote(id, n, {m}) <==> Closer(id, m, n);
      } else {
        assert !HasCloserRemote(id, n, {});
      }
    }
    assert Holders(c) == running;
  }

  /** A settled cluster joined this way has two holders in every later round exactly when the newcomer is closer to
      the stack than the old holder; otherwise the old holder stays the only one. */
  lemma {:induction false} BlindJoinSplits(
    id: StackID, c: Cluster, m: NodeHash, j: NodeHash, found: seq<(NodeHash, seq<StackID>)>, stack: StackWithMetadata,
    k: nat)
    requires InSync(id, c) && IsClosestOf(id, c.Keys, m) && Holders(c) == {m}
    requires j !in c && FindsAll(id, c, found) && stack.Id() == id
    ensures Holders(QuietRounds(id, AfterBlindJoin(id, c, j, found, stack), k)) ==
      if Closer(id, j, m) then {m, j} else {m}
  {
    var c1 := AfterBlindJoin(id, c, j, found, stack);
    var running := if Closer(id, j, m) then {m, j} else {m};
    BlindJoinSeen(id, c, m, j, found, stack);
    QuietRoundsKeep(id, c1, m, running, k);
    QuietRound(id, QuietRounds(id, c1, k), m, running);
  }

  lemma {:induction false} QuietRoundsKeep(id: StackID, c: Cluster, m: NodeHash, running: set<NodeHash>, k: nat)
    requires AllSeeOnly(id, c, m, running) && m in running && running <= c.Keys
    requires forall n <- c :: n != m ==> (n in running <==> Closer(id, n, m))
    ensures AllSeeOnly(id, QuietRounds(id, c, k), m, running) && QuietRounds(id, c, k).Keys == c.Keys
  {
    if k > 0 {
      QuietRoundsKeep(id, c, m, running, k - 1);
      QuietRound(id, QuietRounds(id, c, k - 1), m, running);
    }
  }

  lemma {:induction false} BlindJoinSeen(
    id: StackID, c: Cluster, m: NodeHash, j: NodeHash, found: seq<(NodeHash, seq<StackID>)>, stack: StackWithMetadata)
    requires InSync(id, c) && IsClosestOf(id, c.Keys, m) && Holders(c) == {m}
    requires j !in c && FindsAll(id, c, found) && stack.Id() == id
    ensures
      var c1, running := AfterBlindJoin(id, c, j, found, stack), if Closer(id, j, m) then {m, j} else {m};
      && AllSeeOnly(id, c1, m, running) && running <= c1.Keys
      && forall n <- c1 :: n != m ==> (n in running <==> Closer(id, n, m))
  {
    var joined, c1 := AfterJoin(id, c, j, found, stack), AfterBlindJoin(id, c, j, found, stack);
    var running := if Closer(id, j, m) then {m, j} else {m};
    assert c1.Keys == c.Keys + {j};
    forall n | n in c1
      ensures c1[n].me == n && c1[n].ready && WellPlaced(id, n, c1[n].known, c1[n].view)
      ensures Reflects(c1[n].view, n in running, if n == m then {} else {m})
      ensures n != m ==> (n in running <==> Closer(id, n, m))
    {
      JoinAtNodes(id, c, j, found, stack, n);
      if n == j {
        TickLocal(id, joined[j], false, {m});
        CloserTotal(id, j, m);
        assert {m} - {j} == {m};
        assert HasCloserRemote(id, j, {m}) <==> Closer(id, m, j);
      } else if n != m {
        assert {m} - {n} == {m} && Closer(id, m, n);
      } else {
        assert {m} - {m} == {};
      }
    }
  }
}
