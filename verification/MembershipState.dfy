/** The mutable state of the membership module: the node index and the update that diffs it against the
    shared table. */
module MembershipState {
  import opened Ids
  import opened Membership
  import opened MembershipListener
  import StackMachine
  import SchedulerRuns

  /** The two maps of the index are kept in step: every node is filed under its own hash and its own
      endpoint. */
  ghost predicate InStep(hash: Hasher, nodes: map<NodeHash, RemoteNodeInfo>, byEndpoint: map<Endpoint, NodeHash>) {
    && (forall h <- nodes ::
          && hash(nodes[h].address) == h
          && nodes[h].address.endpoint in byEndpoint
          && byEndpoint[nodes[h].address.endpoint] == h)
    && (forall e <- byEndpoint :: byEndpoint[e] in nodes && nodes[byEndpoint[e]].address.endpoint == e)
  }

  ghost function ContentsOf(nodes: map<NodeHash, RemoteNodeInfo>, byEndpoint: map<Endpoint, NodeHash>): Contents
    requires forall e <- byEndpoint :: byEndpoint[e] in nodes
  {
    map e | e in byEndpoint :: nodes[byEndpoint[e]]
  }

  lemma {:induction false} InsertKeepsStep(
    hash: Hasher, nodes: map<NodeHash, RemoteNodeInfo>, byEndpoint: map<Endpoint, NodeHash>, node: RemoteNodeInfo)
    requires InStep(hash, nodes, byEndpoint)
    requires node.address.endpoint !in byEndpoint
    requires NoCollision(hash, ContentsOf(nodes, byEndpoint), node.address)
    ensures
      var h, e := hash(node.address), node.address.endpoint;
      && h !in nodes
      && InStep(hash, nodes[h := node], byEndpoint[e := h])
      && ContentsOf(nodes[h := node], byEndpoint[e := h]) == ContentsOf(nodes, byEndpoint)[e := node]
  {
    assert forall k <- nodes :: ContentsOf(nodes, byEndpoint)[nodes[k].address.endpoint] == nodes[k];
  }

  /** Nodes listed one by one. */
  function FromList(list: seq<RemoteNodeInfo>): Contents {
    if list == [] then map[]
    else var last := list[|list| - 1]; FromList(list[..|list| - 1])[last.address.endpoint := last]
  }

  ghost predicate DistinctEndpoints(list: seq<RemoteNodeInfo>) {
    forall i, j :: 0 <= i < j < |list| ==> list[i].address.endpoint != list[j].address.endpoint
  }

  function AddressesIn(list: seq<RemoteNodeInfo>): set<NodeAddress> {
    set n | n in list :: n.address
  }

  lemma {:induction false} FromListKeys(list: seq<RemoteNodeInfo>)
    ensures forall e :: e in FromList(list) <==> exists n <- list :: n.address.endpoint == e
    ensures forall e <- FromList(list) :: FromList(list)[e] in list && FromList(list)[e].address.endpoint == e
    ensures KnownFrom(FromList(list), AddressesIn(list))
  {
    if list != [] {
      var init, last := list[..|list| - 1], list[|list| - 1];
      FromListKeys(init);
      assert list == init + [last];
    }
  }

  lemma {:induction false} FromListHolds(list: seq<RemoteNodeInfo>, i: nat)
    requires DistinctEndpoints(list) && i < |list|
    ensures list[i].address.endpoint in FromList(list) && FromList(list)[list[i].address.endpoint] == list[i]
  {
    if i < |list| - 1 {
      FromListHolds(list[..|list| - 1], i);
    }
  }

  lemma {:induction false} NextIsNew(hash: Hasher, list: seq<RemoteNodeInfo>, i: nat)
    requires DistinctEndpoints(list) && i < |list|
    requires CollisionFree(hash, AddressesIn(list))
    ensures list[i].address.endpoint !in FromList(list[..i])
    ensures NoCollision(hash, FromList(list[..i]), list[i].address)
  {
    FromListKeys(list[..i]);
    assert list[i].address in AddressesIn(list);
    forall n | n in list[..i]
      ensures n.address in AddressesIn(list) && n.address.endpoint != list[i].address.endpoint
    {
      var k :| 0 <= k < i && list[k] == n;
    }
  }

  method BuildIndexes(hash: Hasher, list: seq<RemoteNodeInfo>)
    returns (endpoints: map<Endpoint, NodeHash>, infos: map<NodeHash, RemoteNodeInfo>)
    requires DistinctEndpoints(list)
    requires CollisionFree(hash, AddressesIn(list))
    ensures InStep(hash, infos, endpoints)
    ensures |infos| == |endpoints|
    ensures ContentsOf(infos, endpoints) == FromList(list)
  {
    endpoints, infos := map[], map[];
    for i := 0 to |list|
      invariant |infos| == |endpoints|
      invariant InStep(hash, infos, endpoints)
      invariant ContentsOf(infos, endpoints) == FromList(list[..i])
    {
      NextIsNew(hash, list, i);
      assert list[..i + 1][..i] == list[..i];
      InsertKeepsStep(hash, infos, endpoints, list[i]);
      endpoints := endpoints[list[i].address.endpoint := hash(list[i].address)];
      infos := infos[hash(list[i].address) := list[i]];
    }
    assert list[..|list|] == list;
  }

  /** Nodes by hash, and hashes by endpoint. */
  class NodeCollection {
    const hash: Hasher
    var nodes: map<NodeHash, RemoteNodeInfo>
    var byEndpoint: map<Endpoint, NodeHash>

    ghost predicate Valid()
      reads this
    {
      InStep(hash, nodes, byEndpoint)
    }

    ghost function Contents(): Contents
      requires Valid()
      reads this
    {
      ContentsOf(nodes, byEndpoint)
    }

    /** Known nodes have pairwise different hashes. */
    lemma {:induction false} HashesDistinct(e: Endpoint)
      requires Valid() && e in Contents()
      ensures NoCollision(hash, Contents(), Contents()[e].address)
      ensures WellKeyed(Contents())
    {
    }

    /** The nodes come from a table keyed by endpoint, so their endpoints differ; with no hash collision
        both indexes get one entry per node and the source's size assertion holds. */
    constructor (hash: Hasher, list: seq<RemoteNodeInfo>)
      requires DistinctEndpoints(list)
      requires CollisionFree(hash, AddressesIn(list))
      ensures this.hash == hash && Valid()
      ensures |nodes| == |byEndpoint|
      ensures Contents() == FromList(list)
    {
      var endpoints, infos := BuildIndexes(hash, list);
      this.hash := hash;
      this.nodes := infos;
      this.byEndpoint := endpoints;
    }

    method GetByAddress(e: Endpoint) returns (r: Option<RemoteNodeInfo>)
      requires Valid()
      ensures r == Lookup(Contents(), e)
    {
      if e in byEndpoint {
        return Some(nodes[byEndpoint[e]]);
      }
      return None;
    }

    method Insert(node: RemoteNodeInfo) returns (ok: bool)
      requires Valid()
      requires NoCollision(hash, Contents(), node.address)
      modifies this
      ensures Valid()
      ensures ok <==> node.address.endpoint !in old(Contents())
      ensures Contents() == if ok then old(Contents())[node.address.endpoint := node] else old(Contents())
    {
      if node.address.endpoint in byEndpoint {
        return false;
      }
      InsertKeepsStep(hash, nodes, byEndpoint, node);
      var h := hash(node.address);
      byEndpoint := byEndpoint[node.address.endpoint := h];
      nodes := nodes[h := node];
      return true;
    }

    /** The callback must not change the address; the source panics when the hash changes. */
    method UpdateInPlace(h: NodeHash, update: RemoteNodeInfo -> RemoteNodeInfo) returns (ok: bool)
      requires Valid()
      requires h in nodes ==> update(nodes[h]).address == nodes[h].address
      modifies this
      ensures Valid()
      ensures ok <==> h in old(nodes)
      ensures Contents() ==
        if ok then old(Contents())[old(nodes)[h].address.endpoint := update(old(nodes)[h])] else old(Contents())
    {
      if h !in nodes {
        return false;
      }
      nodes := nodes[h := update(nodes[h])];
      return true;
    }

    method Remove(h: NodeHash) returns (r: Option<RemoteNodeInfo>)
      requires Valid()
      modifies this
      ensures Valid()
      ensures r == if h in old(nodes) then Some(old(nodes)[h]) else None
      ensures nodes == old(nodes) - {h}
      ensures Contents() == if r.Some? then old(Contents()) - {r.value.address.endpoint} else old(Contents())
    {
      if h !in nodes {
        return None;
      }
      r := Some(nodes[h]);
      nodes := nodes - {h};
      byEndpoint := byEndpoint - {r.value.address.endpoint};
    }
  }

  /** The stacks in one set and not in the other, each listed once, in some order. */
  method StacksMissingFrom(current: set<StackID>, incoming: set<StackID>) returns (added: seq<StackID>)
    ensures ToSet(added) == incoming - current
    ensures |added| == |incoming - current|
  {
    added := [];
    var todo := incoming;
    while todo != {}
      invariant todo <= incoming
      invariant ToSet(added) == (incoming - todo) - current
      invariant |added| == |ToSet(added)|
    {
      var id :| id in todo;
      if id !in current {
        assert id !in ToSet(added);
        assert ToSet(added + [id]) == ToSet(added) + {id};
        added := added + [id];
      }
      todo := todo - {id};
    }
  }

  /** The nodes found at start-up, in the order the table happens to be iterated. */
  method InitialNodes(table: Table, regionId: Blob, myAddress: NodeAddress, assumeDeadAfter: int, now: int)
    returns (list: seq<RemoteNodeInfo>)
    requires forall e <- table :: table[e].address.endpoint == e
    ensures DistinctEndpoints(list)
    ensures forall n <- list :: AtStart(table, regionId, myAddress, assumeDeadAfter, now, n.address.endpoint) == Some(n)
    ensures forall e <- table :: AtStart(table, regionId, myAddress, assumeDeadAfter, now, e).Some? ==>
      exists i :: 0 <= i < |list| && list[i].address.endpoint == e
  {
    list := [];
    var todo := table.Keys;
    while todo != {}
      invariant todo <= table.Keys
      invariant DistinctEndpoints(list)
      invariant forall n <- list :: n.address.endpoint !in todo
      invariant forall n <- list ::
        AtStart(table, regionId, myAddress, assumeDeadAfter, now, n.address.endpoint) == Some(n)
      invariant forall e <- table ::
        e !in todo && AtStart(table, regionId, myAddress, assumeDeadAfter, now, e).Some? ==>
        exists i :: 0 <= i < |list| && list[i].address.endpoint == e
    {
      var e :| e in todo;
      todo := todo - {e};
      var status := table[e];
      if status.regionId == regionId && status.address.endpoint != myAddress.endpoint {
        var dead := GetDeadReason(assumeDeadAfter, now, status);
        ghost var before := list;
        list := list + [RemoteNodeInfo(status.version, status.address, dead, status.deployedStacks)];
        assert list[|before|].address.endpoint == e;
        assert forall i :: 0 <= i < |before| ==> list[i] == before[i];
      }
    }
  }

  lemma {:induction false} StartContents(
    list: seq<RemoteNodeInfo>, table: Table, regionId: Blob, myAddress: NodeAddress, assumeDeadAfter: int, now: int)
    requires DistinctEndpoints(list)
    requires forall n <- list ::
      AtStart(table, regionId, myAddress, assumeDeadAfter, now, n.address.endpoint) == Some(n)
    requires forall e <- table :: AtStart(table, regionId, myAddress, assumeDeadAfter, now, e).Some? ==>
      exists i :: 0 <= i < |list| && list[i].address.endpoint == e
    ensures forall e: Endpoint ::
      Lookup(FromList(list), e) == AtStart(table, regionId, myAddress, assumeDeadAfter, now, e)
  {
    FromListKeys(list);
    forall e: Endpoint
      ensures Lookup(FromList(list), e) == AtStart(table, regionId, myAddress, assumeDeadAfter, now, e)
    {
      if i :| 0 <= i < |list| && list[i].address.endpoint == e {
        FromListHolds(list, i);
      }
    }
  }

  /** What is known of the endpoints in the table. */
  function Kept(c: Contents, all: map<Endpoint, NodeStatus>): Contents {
    map e | e in c && e in all :: c[e]
  }

  class State {
    const nodes: NodeCollection
    const myAddress: NodeAddress
    const regionId: Blob
    const assumeDeadAfter: int
    var outbox: seq<Notification>
    /** The live nodes handed out at start-up, from which a listener begins. */
    ghost const initialLive: set<NodeHash>

    ghost predicate Valid()
      reads this, nodes
    {
      && nodes.Valid()
      && ReplayLive(nodes.hash, initialLive, outbox) == LiveNodes(nodes.hash, nodes.Contents())
      && NoRediscovery(nodes.hash, initialLive, outbox)
    }

    /** Start-up: the table is filtered and judged, the index is filled from it, and the live nodes are handed to
        the caller. */
    constructor (
      hash: Hasher, table: Table, myAddress: NodeAddress, regionId: Blob, assumeDeadAfter: int, now: int,
      ghost inUse: set<NodeAddress>)
      requires forall e <- table :: table[e].address.endpoint == e && table[e].address in inUse
      requires CollisionFree(hash, inUse)
      ensures Valid() && fresh(nodes) && outbox == [] && nodes.hash == hash
      ensures this.myAddress == myAddress && this.regionId == regionId && this.assumeDeadAfter == assumeDeadAfter
      ensures KnownFrom(nodes.Contents(), inUse)
      ensures forall e: Endpoint ::
        Lookup(nodes.Contents(), e) == AtStart(table, regionId, myAddress, assumeDeadAfter, now, e)
      ensures initialLive == LiveNodes(hash, nodes.Contents())
    {
      var list := InitialNodes(table, regionId, myAddress, assumeDeadAfter, now);
      FromListKeys(list);
      assert forall n <- list :: table[n.address.endpoint].address == n.address;
      var collection := new NodeCollection(hash, list);
      this.nodes := collection;
      this.myAddress := myAddress;
      this.regionId := regionId;
      this.assumeDeadAfter := assumeDeadAfter;
      this.outbox := [];
      this.initialLive := LiveNodes(hash, FromList(list));
      new;
      StartContents(list, table, regionId, myAddress, assumeDeadAfter, now);
    }

    /** A scheduler started with the initial live nodes and fed with the posted notifications, amid anything else,
        knows exactly the nodes that have no dead reason. */
    lemma {:induction false} SchedulerKnowsLive(id: StackID, l: StackMachine.Local, events: seq<SchedulerRuns.Event>)
      requires Valid() && l.known == initialLive
      requires Posts(nodes.hash, outbox, MembershipPart(events))
      ensures SchedulerRuns.Run(id, l, events).known == LiveNodes(nodes.hash, nodes.Contents())
    {
      SchedulerFollowsReplay(nodes.hash, id, l, events, outbox);
    }

    /** What is known of an endpoint after an update that finds this entry. */
    ghost function After(known: Option<RemoteNodeInfo>, entry: Option<NodeStatus>, now: int): Option<RemoteNodeInfo> {
      UpdateEndpoint(nodes.hash, known, entry, assumeDeadAfter, now).0
    }

    /** One update against the table as it was read. Every endpoint ends up as `UpdateEndpoint` says, no
        internal assertion fires, and whoever replays the notifications from the initial live nodes still
        has exactly the nodes without a dead reason. */
    method PerformUpdate(table: Table, now: int, ghost inUse: set<NodeAddress>)
      requires Valid()
      requires forall e <- table :: table[e].address.endpoint == e
      requires CollisionFree(nodes.hash, inUse) && KnownFrom(nodes.Contents(), inUse)
      requires forall e <- table :: table[e].address in inUse
      modifies this`outbox, nodes
      ensures Valid() && KnownFrom(nodes.Contents(), inUse)
      ensures forall e: Endpoint ::
        Lookup(nodes.Contents(), e) ==
        After(Lookup(old(nodes.Contents()), e), Visible(table, regionId, myAddress, e), now)
      ensures forall e <- table ::
        && Visible(table, regionId, myAddress, e).Some?
        && (e in old(nodes.Contents()) ==> old(nodes.Contents())[e].address.generation <= table[e].address.generation)
        ==> MirrorsEntry(old(nodes.Contents()), nodes.Contents(), table[e], now)
    {
      ghost var before := nodes.Contents();
      assert WellKeyed(before);
      UpdateAll(table, now, inUse);
      forall e | e in table && Visible(table, regionId, myAddress, e).Some?
        && (e in before ==> before[e].address.generation <= table[e].address.generation)
        ensures MirrorsEntry(before, nodes.Contents(), table[e], now)
      {
        EntryIsMirrored(before, nodes.Contents(), table, e, now);
      }
    }

    method UpdateAll(table: Table, now: int, ghost inUse: set<NodeAddress>)
      requires Valid()
      requires forall e <- table :: table[e].address.endpoint == e
      requires CollisionFree(nodes.hash, inUse) && KnownFrom(nodes.Contents(), inUse)
      requires forall e <- table :: table[e].address in inUse
      modifies this`outbox, nodes
      ensures Valid() && KnownFrom(nodes.Contents(), inUse)
      ensures forall e: Endpoint ::
        Lookup(nodes.Contents(), e) ==
        After(Lookup(old(nodes.Contents()), e), Visible(table, regionId, myAddress, e), now)
    {
      ghost var before := nodes.Contents();
      var all := map e | e in table && Visible(table, regionId, myAddress, e).Some? :: table[e];
      ForgetMissing(all);
      assert forall e <- nodes.Contents() :: Lookup(nodes.Contents(), e) == Lookup(before, e);
      ProcessAll(all, now, inUse);
    }

    /** Every entry left, in any order. */
    method ProcessAll(all: map<Endpoint, NodeStatus>, now: int, ghost inUse: set<NodeAddress>)
      requires Valid()
      requires forall e <- all :: all[e].address.endpoint == e && all[e].address in inUse
      requires CollisionFree(nodes.hash, inUse) && KnownFrom(nodes.Contents(), inUse)
      modifies this`outbox, nodes
      ensures Valid() && KnownFrom(nodes.Contents(), inUse)
      ensures forall e: Endpoint ::
        Lookup(nodes.Contents(), e) ==
          if e in all then After(Lookup(old(nodes.Contents()), e), Some(all[e]), now)
          else Lookup(old(nodes.Contents()), e)
    {
      ghost var before := nodes.Contents();
      var todo := all.Keys;
      while todo != {}
        invariant Valid() && todo <= all.Keys
        invariant KnownFrom(nodes.Contents(), inUse)
        invariant forall e: Endpoint ::
          Lookup(nodes.Contents(), e) ==
          if e in all && e !in todo then After(Lookup(before, e), Some(all[e]), now) else Lookup(before, e)
      {
        var e :| e in todo;
        todo := todo - {e};
        ProcessEntry(all[e], now, inUse);
      }
    }

    /** Told from the table alone: an endpoint seen there is known exactly when its entry is alive and fresh or its
        incarnation was known already, and then with the entry's stacks, live exactly when alive and fresh. */
    ghost predicate MirrorsEntry(before: Contents, after: Contents, entry: NodeStatus, now: int) {
      var e, alive := entry.address.endpoint, entry.state.Alive? && now - entry.lastUpdate < assumeDeadAfter;
      && (e in after <==> alive || (e in before && before[e].address == entry.address))
      && (e in after ==>
            && after[e].address == entry.address && after[e].deployedStacks == entry.deployedStacks
            && (after[e].deadReason.None? <==> alive))
    }

    lemma {:induction false} EntryIsMirrored(
      before: Contents, after: Contents, table: Table, e: Endpoint, now: int)
      requires WellKeyed(before) && Visible(table, regionId, myAddress, e).Some? && table[e].address.endpoint == e
      requires Lookup(after, e) == After(Lookup(before, e), Visible(table, regionId, myAddress, e), now)
      requires e in before ==> before[e].address.generation <= table[e].address.generation
      ensures MirrorsEntry(before, after, table[e], now)
    {
      KnownAfterEntry(nodes.hash, Lookup(before, e), table[e], assumeDeadAfter, now);
    }

    method ProcessEntry(status: NodeStatus, now: int, ghost inUse: set<NodeAddress>)
      requires Valid()
      requires CollisionFree(nodes.hash, inUse) && KnownFrom(nodes.Contents(), inUse) && status.address in inUse
      modifies this`outbox, nodes
      ensures Valid() && KnownFrom(nodes.Contents(), inUse)
      ensures forall e: Endpoint ::
        Lookup(nodes.Contents(), e) == if e != status.address.endpoint then Lookup(old(nodes.Contents()), e)
        else UpdateEndpoint(nodes.hash, Lookup(old(nodes.Contents()), e), Some(status), assumeDeadAfter, now).0
    {
      ghost var c, e := nodes.Contents(), status.address.endpoint;
      if e in c {
        nodes.HashesDistinct(e);
      }
      assert WellKeyed(c) && NoCollision(nodes.hash, c, status.address);
      UpdateReplays(nodes.hash, c, e, Some(status), assumeDeadAfter, now);
      ghost var notes := UpdateEndpoint(nodes.hash, Lookup(c, e), Some(status), assumeDeadAfter, now).1;
      ReplayConcat(nodes.hash, initialLive, outbox, notes);
      Process(status, now);
    }

    method ForgetMissing(all: map<Endpoint, NodeStatus>)
      requires Valid()
      modifies this`outbox, nodes
      ensures Valid()
      ensures forall e: Endpoint ::
        Lookup(nodes.Contents(), e) == if e in all then Lookup(old(nodes.Contents()), e) else None
    {
      var missing := ReportAll(all);
      RemoveAll(missing, all);
    }

    /** Reports every node that is not in the table as dead; the index itself is not touched yet. */
    method ReportAll(all: map<Endpoint, NodeStatus>) returns (missing: set<NodeHash>)
      requires Valid()
      modifies this`outbox
      ensures forall h <- nodes.nodes :: h in missing <==> nodes.nodes[h].address.endpoint !in all
      ensures ReplayLive(nodes.hash, initialLive, outbox) == LiveNodes(nodes.hash, Kept(nodes.Contents(), all))
      ensures NoRediscovery(nodes.hash, initialLive, outbox)
    {
      ghost var before := nodes.Contents();
      ghost var after := before;
      missing := {};
      var todo := nodes.nodes.Keys;
      while todo != {}
        modifies this`outbox
        invariant todo <= nodes.nodes.Keys && missing <= nodes.nodes.Keys
        invariant forall h <- nodes.nodes :: h in missing <==> h !in todo && nodes.nodes[h].address.endpoint !in all
        invariant after.Keys <= before.Keys && forall e <- after :: after[e] == before[e]
        invariant forall e <- before :: e !in after <==> nodes.byEndpoint[e] in missing
        invariant ReplayLive(nodes.hash, initialLive, outbox) == LiveNodes(nodes.hash, after)
        invariant NoRediscovery(nodes.hash, initialLive, outbox)
      {
        var h :| h in todo;
        todo := todo - {h};
        var known := nodes.nodes[h];
        if known.address.endpoint !in all {
          ReportMissing(known, after);
          missing := missing + {h};
          after := after - {known.address.endpoint};
        }
      }
      assert after == Kept(before, all);
    }

    method ReportMissing(known: RemoteNodeInfo, ghost c: Contents)
      requires WellKeyed(c) && NoCollision(nodes.hash, c, known.address)
      requires Lookup(c, known.address.endpoint) == Some(known)
      requires ReplayLive(nodes.hash, initialLive, outbox) == LiveNodes(nodes.hash, c)
      requires NoRediscovery(nodes.hash, initialLive, outbox)
      modifies this`outbox
      ensures ReplayLive(nodes.hash, initialLive, outbox) == LiveNodes(nodes.hash, c - {known.address.endpoint})
      ensures NoRediscovery(nodes.hash, initialLive, outbox)
    {
      UpdateReplays(nodes.hash, c, known.address.endpoint, None, 0, 0);
      ghost var note := NodeDied(nodes.hash(known.address), MissingFromDb);
      ReplayConcat(nodes.hash, initialLive, outbox, [note]);
      outbox := outbox + [NodeDied(nodes.hash(known.address), MissingFromDb)];
    }

    method RemoveAll(missing: set<NodeHash>, ghost all: map<Endpoint, NodeStatus>)
      requires nodes.Valid()
      requires forall h <- nodes.nodes :: h in missing <==> nodes.nodes[h].address.endpoint !in all
      modifies nodes
      ensures nodes.Valid()
      ensures nodes.Contents() == Kept(old(nodes.Contents()), all)
    {
      var todo := missing;
      ghost var before := nodes.Contents();
      while todo != {}
        invariant nodes.Valid()
        invariant nodes.Contents().Keys <= before.Keys
        invariant forall e <- nodes.Contents() :: nodes.Contents()[e] == before[e]
        invariant forall e <- before :: e in all ==> e in nodes.Contents()
        invariant forall h <- nodes.nodes :: h in todo <==> nodes.nodes[h].address.endpoint !in all
      {
        var h :| h in todo;
        todo := todo - {h};
        var removed := nodes.Remove(h);
      }
    }

    /** Compares one table entry with what is known about its endpoint. */
    method Process(status: NodeStatus, now: int)
      requires nodes.Valid()
      requires NoCollision(nodes.hash, nodes.Contents(), status.address)
      modifies this`outbox, nodes
      ensures nodes.Valid()
      ensures
        var r := UpdateEndpoint(
          nodes.hash, Lookup(old(nodes.Contents()), status.address.endpoint), Some(status), assumeDeadAfter, now);
        && nodes.Contents() == Store(old(nodes.Contents()), status.address.endpoint, r.0)
        && outbox == old(outbox) + r.1
    {
      var dead := GetDeadReason(assumeDeadAfter, now, status);
      var existing := nodes.GetByAddress(status.address.endpoint);
      if existing.None? {
        if dead.None? {
          OnNodeDiscovered(status);
        }
      } else if existing.value.address.generation == status.address.generation {
        ProcessSameGeneration(existing.value, status, dead);
      } else if existing.value.address.generation < status.address.generation {
        ProcessNewGeneration(existing.value, status, dead);
      }
    }

    method ProcessNewGeneration(existing: RemoteNodeInfo, status: NodeStatus, dead: Option<DeadReason>)
      requires nodes.Valid()
      requires NoCollision(nodes.hash, nodes.Contents(), status.address)
      requires Lookup(nodes.Contents(), status.address.endpoint) == Some(existing)
      requires existing.address.generation < status.address.generation
      modifies this`outbox, nodes
      ensures nodes.Valid()
      ensures
        var r := Compare(nodes.hash, Some(existing), status, dead);
        && nodes.Contents() == Store(old(nodes.Contents()), status.address.endpoint, r.0)
        && outbox == old(outbox) + r.1
    {
      var existingHash := nodes.hash(existing.address);
      if existing.deadReason.None? {
        outbox := outbox + [NodeDied(existingHash, ReplacedByNewGeneration)];
      }
      var removed := nodes.Remove(existingHash);
      if dead.None? {
        OnNodeDiscovered(status);
      }
    }

    method ProcessSameGeneration(existing: RemoteNodeInfo, status: NodeStatus, dead: Option<DeadReason>)
      requires nodes.Valid()
      requires Lookup(nodes.Contents(), status.address.endpoint) == Some(existing)
      requires existing.address.generation == status.address.generation
      modifies this`outbox, nodes
      ensures nodes.Valid()
      ensures
        var r := Compare(nodes.hash, Some(existing), status, dead);
        && nodes.Contents() == Store(old(nodes.Contents()), status.address.endpoint, r.0)
        && outbox == old(outbox) + r.1
    {
      var h := nodes.hash(status.address);
      if dead.None? && existing.deadReason.Some? {
        outbox := outbox + [NodeDiscovered(status.address)];
      }
      var added := StacksMissingFrom(existing.deployedStacks, status.deployedStacks);
      var removed := StacksMissingFrom(status.deployedStacks, existing.deployedStacks);
      assert added != [] ==> added[0] in ToSet(added);
      assert removed != [] ==> removed[0] in ToSet(removed);
      if added != [] || removed != [] {
        outbox := outbox + [NodeStacksChanged(h, ToSet(added), ToSet(removed))];
      }
      if dead.Some? && existing.deadReason.None? {
        outbox := outbox + [NodeDied(nodes.hash(existing.address), dead.value)];
      }
      assert outbox == old(outbox) + Compare(nodes.hash, Some(existing), status, dead).1;
      var updated := nodes.UpdateInPlace(
        h, (node: RemoteNodeInfo) => node.(deadReason := dead, deployedStacks := status.deployedStacks));
    }

    method OnNodeDiscovered(status: NodeStatus)
      requires nodes.Valid()
      requires NoCollision(nodes.hash, nodes.Contents(), status.address)
      requires status.address.endpoint !in nodes.Contents()
      modifies this`outbox, nodes
      ensures nodes.Valid()
      ensures nodes.Contents() == old(nodes.Contents())[status.address.endpoint := Discovered(status)]
      ensures outbox == old(outbox) + [NodeDiscovered(status.address)]
    {
      outbox := outbox + [NodeDiscovered(status.address)];
      var inserted := nodes.Insert(Discovered(status));
      assert inserted;
    }
  }
}
