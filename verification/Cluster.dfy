/** A cluster of schedulers and one stack. In a round every node ticks, with successful runtime calls,
    and then hears from membership which other nodes started or stopped running the stack. */
module Cluster {
  import opened Ids
  import opened XorMetric
  import opened StackMachine
  import opened SchedulerRuns

  type Cluster = map<NodeHash, Local>

  /** The nodes that really run the stack. */
  ghost function Holders(c: Cluster): set<NodeHash> {
    set n | n in c && RunsHere(c[n].view)
  }

  /** The node holds a definition, runs the stack or not as said, and records exactly these holders. */
  ghost predicate Reflects(v: StackView, runsHere: bool, recorded: set<NodeHash>) {
    v.deployment.Some? &&
    match v.deployment.value
    case Unknown(_) => false
    case Undeployed(_) => !runsHere && recorded == {}
    case HasDeploymentCandidate(_, _) => !runsHere && recorded == {}
    case DeployedToSelf(_, holders) => runsHere && holders == recorded
    case DeployedToSelfWithPendingUpdate(_, holders) => runsHere && holders == recorded
    case DeployedToOthers(_, holders) => !runsHere && holders == recorded && recorded != {}
  }

  /** Every node knows every other node and its record of the other holders is true. */
  ghost predicate InSync(id: StackID, c: Cluster) {
    && c != map[]
    && forall n <- c ::
      && c[n].me == n && c[n].known == c.Keys - {n} && c[n].ready
      && WellPlaced(id, n, c[n].known, c[n].view)
      && Reflects(c[n].view, n in Holders(c), Holders(c) - {n})
  }

  ghost predicate NobodyCloser(id: StackID, nodes: set<NodeHash>, n: NodeHash) {
    forall h <- nodes :: !Closer(id, h, n)
  }

  // ---- Ticks ----

  ghost function Ticked(id: StackID, l: Local): Local {
    StepLocal(id, l, Tick, true)
  }

  /** Who runs the stack after everybody ticked: of those who run it or reconsider it, the ones with
      nobody closer among the current holders, or among all nodes when nobody holds it. */
  ghost function NextHolders(id: StackID, c: Cluster): set<NodeHash> {
    var base := if Holders(c) == {} then c.Keys else Holders(c);
    set n | n in c && (n in Holders(c) || c[n].view.queued) && NobodyCloser(id, base, n)
  }

  lemma {:induction false} TickLocal(id: StackID, l: Local, runsHere: bool, recorded: set<NodeHash>)
    requires l.ready && WellPlaced(id, l.me, l.known, l.view)
    requires Reflects(l.view, runsHere, recorded)
    ensures
      var r := Ticked(id, l);
      var rivals := if runsHere || recorded != {} then recorded else l.known;
      && r == l.(view := r.view) && !r.view.queued
      && WellPlaced(id, l.me, l.known, r.view)
      && Reflects(r.view, (runsHere || l.view.queued) && !HasCloserRemote(id, l.me, rivals), recorded)
  {
    StepKeepsWellPlaced(id, l, Tick, true);
    var d := l.view.deployment.value;
    if d.HasDeploymentCandidate? {
      assert Closer(id, d.deploymentCandidate, l.me);
    }
  }

  lemma {:induction false} TickEffect(id: StackID, c: Cluster, n: NodeHash)
    requires InSync(id, c) && n in c
    ensures
      var l := Ticked(id, c[n]);
      && l == c[n].(view := l.view) && !l.view.queued
      && WellPlaced(id, n, l.known, l.view)
      && Reflects(l.view, n in NextHolders(id, c), Holders(c) - {n})
  {
    var others := Holders(c) - {n};
    TickLocal(id, c[n], n in Holders(c), others);
    assert NobodyCloser(id, Holders(c), n) <==> !HasCloserRemote(id, n, others);
    assert NobodyCloser(id, c.Keys, n) <==> !HasCloserRemote(id, n, c[n].known);
    assert n !in Holders(c) ==> others == Holders(c);
  }

  // ---- Deliveries ----

  datatype Delivery = Delivery(node: NodeHash, deployed: bool)

  function AsMessage(id: StackID, d: Delivery): Message {
    if d.deployed then NodeDeployedStacks(d.node, [id]) else NodeUndeployedStacks(d.node, [id])
  }

  ghost function Delivered(id: StackID, l: Local, ds: seq<Delivery>): Local {
    if ds == [] then l
    else StepLocal(id, Delivered(id, l, ds[..|ds| - 1]), AsMessage(id, ds[|ds| - 1]), true)
  }

  function RecordedAfter(recorded: set<NodeHash>, ds: seq<Delivery>): set<NodeHash> {
    if ds == [] then recorded
    else
      var before := RecordedAfter(recorded, ds[..|ds| - 1]);
      var d := ds[|ds| - 1];
      if d.deployed then before + {d.node} else before - {d.node}
  }

  lemma {:induction false} SingleDelivery(id: StackID, d: Delivery, v: StackView)
    ensures DeployedAll(d.node, [id], id, v) == OnNodeDeployed(d.node, v)
    ensures UndeployedAll(d.node, [id], id, v) == OnNodeUndeployed(d.node, v)
  {
    assert [id][..0] == [];
    assert DeployedAll(d.node, [], id, v) == v && UndeployedAll(d.node, [], id, v) == v;
  }

  lemma {:induction false} DeliveryEffect(
    id: StackID, l: Local, runsHere: bool, recorded: set<NodeHash>, ds: seq<Delivery>)
    requires WellPlaced(id, l.me, l.known, l.view)
    requires Reflects(l.view, runsHere, recorded)
    ensures
      var r := Delivered(id, l, ds);
      && r.me == l.me && r.known == l.known && r.ready == l.ready
      && r.view.queued == (l.view.queued || ds != [])
      && WellPlaced(id, r.me, r.known, r.view)
      && Reflects(r.view, runsHere, RecordedAfter(recorded, ds))
  {
    if ds != [] {
      var init, d := ds[..|ds| - 1], ds[|ds| - 1];
      DeliveryEffect(id, l, runsHere, recorded, init);
      OneDelivery(id, Delivered(id, l, init), runsHere, RecordedAfter(recorded, init), d);
    }
  }

  lemma {:induction false} OneDelivery(id: StackID, l: Local, runsHere: bool, recorded: set<NodeHash>, d: Delivery)
    requires WellPlaced(id, l.me, l.known, l.view)
    requires Reflects(l.view, runsHere, recorded)
    ensures
      var r := StepLocal(id, l, AsMessage(id, d), true);
      && r == l.(view := r.view) && r.view.queued
      && WellPlaced(id, r.me, r.known, r.view)
      && Reflects(r.view, runsHere, if d.deployed then recorded + {d.node} else recorded - {d.node})
  {
    SingleDelivery(id, d, l.view);
    StepKeepsWellPlaced(id, l, AsMessage(id, d), true);
  }

  /** Node `n` hears, in any order and possibly repeatedly, about every other node whose status changed,
      and only the truth. */
  ghost predicate Faithful(before: set<NodeHash>, after: set<NodeHash>, n: NodeHash, ds: seq<Delivery>) {
    var changed := Changed(before, after);
    && (forall d <- ds :: d.node in changed - {n} && (d.deployed <==> d.node in after))
    && (forall x <- changed - {n} :: exists d <- ds :: d.node == x)
  }

  lemma {:induction false} RecordedMember(recorded: set<NodeHash>, after: set<NodeHash>, ds: seq<Delivery>, x: NodeHash)
    requires forall d <- ds :: d.deployed <==> d.node in after
    ensures x in RecordedAfter(recorded, ds) <==> if exists d <- ds :: d.node == x then x in after else x in recorded
  {
    if ds != [] {
      var init, last := ds[..|ds| - 1], ds[|ds| - 1];
      RecordedMember(recorded, after, init, x);
      assert forall d :: d in ds <==> d in init || d == last;
    }
  }

  lemma {:induction false} FaithfulRecord(before: set<NodeHash>, after: set<NodeHash>, n: NodeHash, ds: seq<Delivery>)
    requires Faithful(before, after, n, ds)
    ensures RecordedAfter(before - {n}, ds) == after - {n}
  {
    forall x: NodeHash
      ensures x in RecordedAfter(before - {n}, ds) <==> x in after - {n}
    {
      RecordedMember(before - {n}, after, ds, x);
      var changed := Changed(before, after);
      assert (exists d <- ds :: d.node == x) <==> x in changed - {n};
    }
  }

  // ---- Rounds ----

  type Deliveries = map<NodeHash, seq<Delivery>>

  ghost function Round(id: StackID, c: Cluster, news: Deliveries): Cluster {
    map n | n in c :: Delivered(id, Ticked(id, c[n]), if n in news then news[n] else [])
  }

  ghost predicate FaithfulRound(id: StackID, c: Cluster, news: Deliveries) {
    forall n <- c :: Faithful(Holders(c), NextHolders(id, c), n, if n in news then news[n] else [])
  }

  /** A node where only the view of the stack changed, to one that reflects these holders. */
  ghost predicate Placed(id: StackID, before: Local, after: Local, runsHere: bool, recorded: set<NodeHash>) {
    && after == before.(view := after.view)
    && WellPlaced(id, before.me, before.known, after.view)
    && Reflects(after.view, runsHere, recorded)
    && (RunsHere(after.view) <==> runsHere)
  }

  lemma {:induction false} PlacedInSync(id: StackID, c: Cluster, c1: Cluster, after: set<NodeHash>)
    requires InSync(id, c) && c1.Keys == c.Keys && after <= c.Keys
    requires forall n <- c :: Placed(id, c[n], c1[n], n in after, after - {n})
    ensures InSync(id, c1) && Holders(c1) == after
  {
    assert Holders(c1) == after;
    forall n | n in c1
      ensures c1[n].me == n && c1[n].known == c1.Keys - {n} && c1[n].ready
      ensures WellPlaced(id, n, c1[n].known, c1[n].view)
      ensures Reflects(c1[n].view, n in after, after - {n})
    {
      assert Placed(id, c[n], c1[n], n in after, after - {n});
    }
  }

  lemma {:induction false} NodeAfterRound(id: StackID, c: Cluster, n: NodeHash, ds: seq<Delivery>)
    requires InSync(id, c) && n in c
    requires Faithful(Holders(c), NextHolders(id, c), n, ds)
    ensures
      var l := Delivered(id, Ticked(id, c[n]), ds);
      var after := NextHolders(id, c);
      && Placed(id, c[n], l, n in after, after - {n})
      && (l.view.queued <==> Changed(Holders(c), after) - {n} != {})
  {
    TickEffect(id, c, n);
    assert ds != [] ==> ds[0] in ds;
    DeliveryEffect(id, Ticked(id, c[n]), n in NextHolders(id, c), Holders(c) - {n}, ds);
    FaithfulRecord(Holders(c), NextHolders(id, c), n, ds);
  }

  function Changed(before: set<NodeHash>, after: set<NodeHash>): set<NodeHash> {
    (before - after) + (after - before)
  }

  /** A round keeps the cluster in sync and changes the holders as `NextHolders` says; afterwards exactly
      the nodes that heard of a change are queued. */
  lemma {:induction false} RoundEffect(id: StackID, c: Cluster, news: Deliveries)
    requires InSync(id, c) && FaithfulRound(id, c, news)
    ensures
      var c1 := Round(id, c, news);
      && InSync(id, c1) && c1.Keys == c.Keys
      && Holders(c1) == NextHolders(id, c)
      && forall n <- c :: c1[n].view.queued <==> Changed(Holders(c), Holders(c1)) - {n} != {}
  {
    var c1 := Round(id, c, news);
    var after := NextHolders(id, c);
    forall n | n in c
      ensures Placed(id, c[n], c1[n], n in after, after - {n})
      ensures c1[n].view.queued <==> Changed(Holders(c), after) - {n} != {}
    {
      NodeAfterRound(id, c, n, if n in news then news[n] else []);
    }
    PlacedInSync(id, c, c1, after);
  }

  ghost predicate IsClosestOf(id: StackID, nodes: set<NodeHash>, m: NodeHash) {
    m in nodes && forall n <- nodes :: n != m ==> Closer(id, m, n)
  }

  /** Nobody will ever move: the closest node does not run the stack, and either nobody does and it is
      not queued, or a single other node does and nobody closer than that one is queued. */
  ghost predicate Stuck(id: StackID, c: Cluster, m: NodeHash)
    requires m in c
  {
    var h := Holders(c);
    m !in h &&
    if h == {} then !c[m].view.queued
    else exists holder :: h == {holder} && forall n <- c :: c[n].view.queued ==> !Closer(id, n, holder)
  }

  /** A stack somebody runs is never dropped by everybody in a round. */
  lemma {:induction false} NeverDroppedByAll(id: StackID, c: Cluster)
    requires InSync(id, c) && Holders(c) != {}
    ensures NextHolders(id, c) * Holders(c) != {}
  {
    var best := ClosestNodeAgreement(id, Holders(c));
    assert best in NextHolders(id, c);
  }

  /** Once the closest node runs the stack, one round leaves it as the only holder. */
  lemma {:induction false} ClosestTakesOver(id: StackID, c: Cluster, m: NodeHash)
    requires InSync(id, c) && IsClosestOf(id, c.Keys, m)
    requires m in Holders(c)
    ensures NextHolders(id, c) == {m}
  {
    forall n | n in NextHolders(id, c)
      ensures n == m
    {
      assert n != m ==> Closer(id, m, n);
    }
  }

  lemma {:induction false} StuckMeansStill(id: StackID, c: Cluster, m: NodeHash)
    requires InSync(id, c) && IsClosestOf(id, c.Keys, m)
    ensures Stuck(id, c, m) <==> m !in Holders(c) && NextHolders(id, c) == Holders(c)
  {
    var h := Holders(c);
    if m !in h {
      if h == {} {
        assert m in NextHolders(id, c) <==> c[m].view.queued;
        forall n | n in NextHolders(id, c)
          ensures n == m
        {
          assert n != m ==> Closer(id, m, n);
        }
        assert Stuck(id, c, m) <==> !c[m].view.queued;
      } else {
        var best := ClosestNodeAgreement(id, h);
        assert best in NextHolders(id, c);
        if Stuck(id, c, m) {
          var holder :| h == {holder} && forall n <- c :: c[n].view.queued ==> !Closer(id, n, holder);
          assert best == holder;
          forall n | n in NextHolders(id, c)
            ensures n == holder
          {
            if n != holder {
              assert !Closer(id, holder, n);
              CloserTotal(id, holder, n);
            }
          }
        }
        if NextHolders(id, c) == h {
          forall n | n in h
            ensures n == best
          {
            assert n in NextHolders(id, c);
          }
          forall n | n in c && c[n].view.queued
            ensures !Closer(id, n, best)
          {
            if Closer(id, n, best) {
              assert NobodyCloser(id, h, n);
            }
          }
          assert h == {best};
        }
      }
    }
  }

  ghost function Rounds(id: StackID, c: Cluster, news: seq<Deliveries>): Cluster {
    if news == [] then c else Rounds(id, Round(id, c, news[0]), news[1..])
  }

  ghost predicate FaithfulRounds(id: StackID, c: Cluster, news: seq<Deliveries>) {
    news != [] ==> FaithfulRound(id, c, news[0]) && FaithfulRounds(id, Round(id, c, news[0]), news[1..])
  }

  /** Once the closest node is the only holder it stays so. */
  lemma {:induction false} SettledStays(id: StackID, c: Cluster, news: seq<Deliveries>, m: NodeHash)
    requires InSync(id, c) && FaithfulRounds(id, c, news) && IsClosestOf(id, c.Keys, m)
    requires Holders(c) == {m}
    ensures Holders(Rounds(id, c, news)) == {m}
  {
    if news != [] {
      RoundEffect(id, c, news[0]);
      ClosestTakesOver(id, c, m);
      SettledStays(id, Round(id, c, news[0]), news[1..], m);
    }
  }

  lemma {:induction false} StuckStays(id: StackID, c: Cluster, news: seq<Deliveries>, m: NodeHash)
    requires InSync(id, c) && FaithfulRounds(id, c, news) && IsClosestOf(id, c.Keys, m)
    requires Stuck(id, c, m)
    ensures Holders(Rounds(id, c, news)) == Holders(c)
  {
    if news != [] {
      var c1 := Round(id, c, news[0]);
      RoundEffect(id, c, news[0]);
      StuckMeansStill(id, c, m);
      assert Holders(c1) == Holders(c);
      assert forall n <- c1 :: !c1[n].view.queued;
      StuckStays(id, c1, news[1..], m);
    }
  }

  lemma {:induction false} ChangeIsSeen(before: set<NodeHash>, after: set<NodeHash>, m: NodeHash)
    requires before != after && m !in before && m !in after
    ensures Changed(before, after) - {m} != {}
  {
    if x :| x in before && x !in after {
      assert x in Changed(before, after) - {m};
    } else {
      assert before <= after;
      var x :| x in after && x !in before;
      assert x in Changed(before, after) - {m};
    }
  }

  /** If nobody is stuck, then after a round the closest node runs the stack or is queued to reconsider it. */
  lemma {:induction false} RoundWakesClosest(id: StackID, c: Cluster, news: Deliveries, m: NodeHash)
    requires InSync(id, c) && FaithfulRound(id, c, news) && IsClosestOf(id, c.Keys, m)
    requires !Stuck(id, c, m)
    ensures
      var c1 := Round(id, c, news);
      && Holders(c1) != {}
      && (m in Holders(c1) || c1[m].view.queued)
  {
    var c1 := Round(id, c, news);
    RoundEffect(id, c, news);
    StuckMeansStill(id, c, m);
    if m in Holders(c) {
      ClosestTakesOver(id, c, m);
    } else {
      if m !in Holders(c1) {
        ChangeIsSeen(Holders(c), Holders(c1), m);
      }
      if Holders(c) != {} {
        NeverDroppedByAll(id, c);
      }
    }
  }

  lemma {:induction false} WokenTakesOver(id: StackID, c: Cluster, m: NodeHash)
    requires InSync(id, c) && IsClosestOf(id, c.Keys, m)
    requires m in Holders(c) || c[m].view.queued
    ensures m in NextHolders(id, c)
  {
  }

  lemma {:induction false} ThreeRounds(
    id: StackID, c: Cluster, first: Deliveries, second: Deliveries, third: Deliveries, m: NodeHash)
    requires InSync(id, c) && IsClosestOf(id, c.Keys, m) && !Stuck(id, c, m)
    requires FaithfulRound(id, c, first)
    requires FaithfulRound(id, Round(id, c, first), second)
    requires FaithfulRound(id, Round(id, Round(id, c, first), second), third)
    ensures
      var c3 := Round(id, Round(id, Round(id, c, first), second), third);
      InSync(id, c3) && c3.Keys == c.Keys && Holders(c3) == {m}
  {
    var c1 := Round(id, c, first);
    RoundEffect(id, c, first);
    RoundWakesClosest(id, c, first, m);
    WokenTakesOver(id, c1, m);
    RoundEffect(id, c1, second);
    var c2 := Round(id, c1, second);
    ClosestTakesOver(id, c2, m);
    RoundEffect(id, c2, third);
  }

  lemma {:induction false} RoundsStep(id: StackID, c: Cluster, news: Deliveries, more: seq<Deliveries>)
    ensures Rounds(id, c, [news] + more) == Rounds(id, Round(id, c, news), more)
    ensures FaithfulRounds(id, c, [news] + more) <==>
      FaithfulRound(id, c, news) && FaithfulRounds(id, Round(id, c, news), more)
  {
    assert ([news] + more)[1..] == more;
  }

  /** Convergence, exactly: from any cluster in sync, after three or more rounds the XOR-closest node is
      the only holder if and only if the cluster was not stuck to begin with. */
  lemma {:induction false} ClusterConvergence(
    id: StackID, c: Cluster, first: Deliveries, second: Deliveries, third: Deliveries, more: seq<Deliveries>,
    m: NodeHash)
    requires InSync(id, c) && IsClosestOf(id, c.Keys, m)
    requires FaithfulRounds(id, c, [first] + ([second] + ([third] + more)))
    ensures Holders(Rounds(id, c, [first] + ([second] + ([third] + more)))) == {m} <==> !Stuck(id, c, m)
  {
    if Stuck(id, c, m) {
      StuckStays(id, c, [first] + ([second] + ([third] + more)), m);
    } else {
      RoundsStep(id, c, first, [second] + ([third] + more));
      RoundsStep(id, Round(id, c, first), second, [third] + more);
      RoundsStep(id, Round(id, Round(id, c, first), second), third, more);
      ThreeRounds(id, c, first, second, third, m);
      SettledStays(id, Round(id, Round(id, Round(id, c, first), second), third), more, m);
    }
  }

  /** When every node reconsiders the stack in the first round, two rounds are enough. */
  lemma {:induction false} TwoRoundsWhenAllQueued(
    id: StackID, c: Cluster, first: Deliveries, second: Deliveries, m: NodeHash)
    requires InSync(id, c) && IsClosestOf(id, c.Keys, m)
    requires forall n <- c :: c[n].view.queued
    requires FaithfulRound(id, c, first) && FaithfulRound(id, Round(id, c, first), second)
    ensures Holders(Round(id, Round(id, c, first), second)) == {m}
  {
    var c1 := Round(id, c, first);
    WokenTakesOver(id, c, m);
    RoundEffect(id, c, first);
    ClosestTakesOver(id, c1, m);
    RoundEffect(id, c1, second);
  }

  // ---- From start-up ----

  /** A node that received the definition and then the go-ahead. */
  ghost function Welcomed(id: StackID, l: Local, stack: StackWithMetadata): Local {
    StepLocal(id, StepLocal(id, l, StacksAvailable([stack]), true), ReadyToScheduleStacks, true)
  }

  /** A cluster whose nodes all started knowing each other, with nobody running the stack, and then received
      its definition and the go-ahead. */
  ghost function Started(
    id: StackID, starts: map<NodeHash, seq<(NodeHash, seq<StackID>)>>, stack: StackWithMetadata): Cluster
  {
    map n | n in starts ::
      Welcomed(id, LocalAtStart(n, starts[n], [], id), stack)
  }

  ghost predicate KnowsOthers(starts: map<NodeHash, seq<(NodeHash, seq<StackID>)>>, n: NodeHash)
    requires n in starts
  {
    (set i | 0 <= i < |starts[n]| :: starts[n][i].0) == starts.Keys - {n}
  }

  lemma {:induction false} StartedInSync(
    id: StackID, starts: map<NodeHash, seq<(NodeHash, seq<StackID>)>>, stack: StackWithMetadata)
    requires starts != map[] && stack.Id() == id
    requires forall n <- starts :: KnowsOthers(starts, n) && HoldersAtStart(starts[n], id) == {}
    ensures
      var c := Started(id, starts, stack);
      InSync(id, c) && c.Keys == starts.Keys && Holders(c) == {} && forall n <- c :: c[n].view.queued
  {
    var c := Started(id, starts, stack);
    forall n | n in c
      ensures c[n] == Local(n, c.Keys - {n}, true, StackView(Some(Undeployed(stack)), true, []))
    {
      assert KnowsOthers(starts, n);
      var v := ViewAtStart(starts[n], [], id);
      assert [stack][..0] == [] && AvailableAll([], id, v) == v;
    }
    assert Holders(c) == {};
  }

  /** There is always truthful news to deliver. */
  lemma {:induction false} FaithfulNewsExist(id: StackID, c: Cluster) returns (news: Deliveries)
    ensures FaithfulRound(id, c, news)
  {
    var before, after := Holders(c), NextHolders(id, c);
    news := map[];
    var todo := c.Keys;
    while todo != {}
      invariant todo <= c.Keys && news.Keys == c.Keys - todo
      invariant forall n <- news :: Faithful(before, after, n, news[n])
    {
      var n :| n in todo;
      var ds := TruthFor(before, after, n);
      news := news[n := ds];
      todo := todo - {n};
    }
  }

  lemma {:induction false} TruthFor(
    before: set<NodeHash>, after: set<NodeHash>, n: NodeHash) returns (ds: seq<Delivery>)
    ensures Faithful(before, after, n, ds)
  {
    ds := [];
    var todo := Changed(before, after) - {n};
    while todo != {}
      invariant todo <= Changed(before, after) - {n}
      invariant forall d <- ds :: d.node in Changed(before, after) - {n} && (d.deployed <==> d.node in after)
      invariant forall x <- Changed(before, after) - {n} :: x in todo || exists d <- ds :: d.node == x
    {
      var x :| x in todo;
      var d := Delivery(x, x in after);
      assert d in ds + [d];
      assert forall e <- ds :: e in ds + [d];
      ds := ds + [d];
      todo := todo - {x};
    }
  }

  /** End to end: a stack that is new to such a cluster runs on the XOR-closest node, and only there, after two
      rounds and ever after. */
  lemma {:induction false} NewStackConverges(
    id: StackID, starts: map<NodeHash, seq<(NodeHash, seq<StackID>)>>, stack: StackWithMetadata,
    first: Deliveries, second: Deliveries, more: seq<Deliveries>, m: NodeHash)
    requires stack.Id() == id && IsClosestOf(id, starts.Keys, m)
    requires forall n <- starts :: KnowsOthers(starts, n) && HoldersAtStart(starts[n], id) == {}
    requires FaithfulRounds(id, Started(id, starts, stack), [first] + ([second] + more))
    ensures Holders(Rounds(id, Started(id, starts, stack), [first] + ([second] + more))) == {m}
  {
    var c := Started(id, starts, stack);
    assert m in starts;
    StartedInSync(id, starts, stack);
    RoundsStep(id, c, first, [second] + more);
    var c1 := Round(id, c, first);
    RoundsStep(id, c1, second, more);
    TwoRoundsWhenAllQueued(id, c, first, second, m);
    RoundEffect(id, c, first);
    RoundEffect(id, c1, second);
    SettledStays(id, Round(id, c1, second), more, m);
  }

  /** Whatever a node believes, true or stale, a tick makes it give up a stack only when it records a
      strictly closer holder; so the closest of all nodes never gives one up. */
  lemma {:induction false} HandOffOnlyToCloser(id: StackID, l: Local, ok: bool)
    requires RunsHere(l.view)
    ensures !RunsHere(StepLocal(id, l, Tick, ok).view) ==> HasCloserRemote(id, l.me, Recorded(l.view))
    ensures NobodyCloser(id, Recorded(l.view), l.me) ==> RunsHere(StepLocal(id, l, Tick, ok).view)
  {
  }
}
