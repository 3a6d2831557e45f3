/** The membership view of one node: its two-way node index and the periodic comparison with the shared
    table, which turns differences into notifications. */
module Membership {
  import opened Ids

  type Octets4 = s: seq<Byte> | |s| == 4 witness [0, 0, 0, 0]
  type Octets16 = s: seq<Byte> | |s| == 16 witness seq(16, _ => 0)

  datatype IpAddr = V4(v4: Octets4) | V6(v6: Octets16)

  datatype Endpoint = Endpoint(ip: IpAddr, port: U16)

  /** An incarnation of a node: its endpoint and the time it started. */
  datatype NodeAddress = NodeAddress(endpoint: Endpoint, generation: U128)

  datatype NodeState = Dead | Alive

  /** What nodes write to the shared table. `lastUpdate` is in nanoseconds since the Unix epoch. */
  datatype NodeStatus = NodeStatus(
    version: U32, address: NodeAddress, regionId: Blob, lastUpdate: int, state: NodeState, deployedStacks: set<StackID>)

  datatype DeadReason = DeadState | ReplacedByNewGeneration | MissedUpdate | MissingFromDb

  datatype RemoteNodeInfo = RemoteNodeInfo(
    version: U32, address: NodeAddress, deadReason: Option<DeadReason>, deployedStacks: set<StackID>)

  datatype Notification =
    | NodeDiscovered(address: NodeAddress)
    | NodeDied(node: NodeHash, reason: DeadReason)
    | NodeStacksChanged(node: NodeHash, added: set<StackID>, removed: set<StackID>)

  /** `get_hash`. The proofs only need that the addresses in use do not collide. */
  type Hasher = NodeAddress -> NodeHash

  type Contents = map<Endpoint, RemoteNodeInfo>

  function GetDeadReason(assumeDeadAfter: int, now: int, node: NodeStatus): Option<DeadReason> {
    match node.state
    case Dead => Some(DeadState)
    case Alive => if now - node.lastUpdate < assumeDeadAfter then None else Some(MissedUpdate)
  }

  // ---- One endpoint ----

  function Discovered(status: NodeStatus): RemoteNodeInfo {
    RemoteNodeInfo(status.version, status.address, None, status.deployedStacks)
  }

  /** What one table entry does to what is known about its endpoint, and the notifications it sends. */
  function Compare(hash: Hasher, existing: Option<RemoteNodeInfo>, status: NodeStatus, dead: Option<DeadReason>)
    : (Option<RemoteNodeInfo>, seq<Notification>)
  {
    match existing
    case None =>
      if dead.None? then (Some(Discovered(status)), [NodeDiscovered(status.address)]) else (None, [])
    case Some(prev) =>
      if prev.address.generation == status.address.generation then
        (Some(prev.(deadReason := dead, deployedStacks := status.deployedStacks)),
         BackToLife(prev, status, dead) + StacksChanged(hash, prev, status) + Died(hash, prev, dead))
      else if prev.address.generation < status.address.generation then
        (if dead.None? then Some(Discovered(status)) else None,
         (if prev.deadReason.None? then [NodeDied(hash(prev.address), ReplacedByNewGeneration)] else [])
         + (if dead.None? then [NodeDiscovered(status.address)] else []))
      else (Some(prev), [])
  }

  /** What is known of an endpoint after a table entry of it was seen, told from the entry. A known incarnation that is
      not older than the entry stays known, and the entry's own incarnation gets known if it is alive and fresh. Who
      is known under the entry's address runs what the entry says, and is live exactly when the entry says alive and
      is younger than the limit. */
  lemma {:induction false} KnownAfterEntry(
    hash: Hasher, existing: Option<RemoteNodeInfo>, status: NodeStatus, assumeDeadAfter: int, now: int)
    requires existing.Some? ==> existing.value.address.endpoint == status.address.endpoint
    ensures
      var info := UpdateEndpoint(hash, existing, Some(status), assumeDeadAfter, now).0;
      var alive := status.state.Alive? && now - status.lastUpdate < assumeDeadAfter;
      && (info.Some? <==> alive || (existing.Some? && existing.value.address.generation >= status.address.generation))
      && (info.Some? && existing.Some? && existing.value.address.generation > status.address.generation ==>
            info == existing)
      && (info.Some? && !(existing.Some? && existing.value.address.generation > status.address.generation) ==>
            && info.value.address == status.address
            && info.value.deployedStacks == status.deployedStacks
            && (info.value.deadReason.None? <==> alive)
            && (info.value.deadReason == Some(DeadState) <==> status.state.Dead?)
            && (info.value.deadReason == Some(MissedUpdate) <==> status.state.Alive? && !alive))
  {
  }

  function BackToLife(prev: RemoteNodeInfo, status: NodeStatus, dead: Option<DeadReason>): seq<Notification> {
    if dead.None? && prev.deadReason.Some? then [NodeDiscovered(status.address)] else []
  }

  function StacksChanged(hash: Hasher, prev: RemoteNodeInfo, status: NodeStatus): seq<Notification> {
    var added, removed := status.deployedStacks - prev.deployedStacks, prev.deployedStacks - status.deployedStacks;
    if added != {} || removed != {} then [NodeStacksChanged(hash(status.address), added, removed)] else []
  }

  function Died(hash: Hasher, prev: RemoteNodeInfo, dead: Option<DeadReason>): seq<Notification> {
    if dead.Some? && prev.deadReason.None? then [NodeDied(hash(prev.address), dead.value)] else []
  }

  /** One endpoint under one update: an endpoint missing from the table is forgotten. */
  function UpdateEndpoint(
    hash: Hasher, existing: Option<RemoteNodeInfo>, status: Option<NodeStatus>, assumeDeadAfter: int, now: int)
    : (Option<RemoteNodeInfo>, seq<Notification>)
  {
    match status
    case Some(s) => Compare(hash, existing, s, GetDeadReason(assumeDeadAfter, now, s))
    case None =>
      (None, if existing.Some? then [NodeDied(hash(existing.value.address), MissingFromDb)] else [])
  }

  type Table = map<Endpoint, NodeStatus>

  /** The entry an update looks at for an endpoint: same region, and not this very node. */
  function Visible(table: Table, regionId: Blob, myAddress: NodeAddress, e: Endpoint): Option<NodeStatus> {
    if e in table && table[e].regionId == regionId && table[e].address != myAddress then Some(table[e]) else None
  }

  /** What start-up makes of an entry: same region, and not this node's endpoint in any incarnation. Dead nodes
      are kept with their reason. */
  function AtStart(table: Table, regionId: Blob, myAddress: NodeAddress, assumeDeadAfter: int, now: int, e: Endpoint)
    : Option<RemoteNodeInfo>
  {
    if e !in table || table[e].regionId != regionId || table[e].address.endpoint == myAddress.endpoint then None
    else
      var s := table[e];
      Some(RemoteNodeInfo(s.version, s.address, GetDeadReason(assumeDeadAfter, now, s), s.deployedStacks))
  }

  /** Start-up, told from the entry. */
  lemma {:induction false} AtStartMirrors(
    table: Table, regionId: Blob, myAddress: NodeAddress, assumeDeadAfter: int, now: int, e: Endpoint)
    requires e in table && table[e].address.endpoint == e
    ensures
      var info, entry := AtStart(table, regionId, myAddress, assumeDeadAfter, now, e), table[e];
      && (info.Some? <==> entry.regionId == regionId && e != myAddress.endpoint)
      && (info.Some? ==>
            && info.value.address == entry.address && info.value.deployedStacks == entry.deployedStacks
            && (info.value.deadReason.None? <==> entry.state.Alive? && now - entry.lastUpdate < assumeDeadAfter))
  {
  }

  function Lookup(c: Contents, e: Endpoint): Option<RemoteNodeInfo> {
    if e in c then Some(c[e]) else None
  }

  function Store(c: Contents, e: Endpoint, info: Option<RemoteNodeInfo>): Contents {
    if info.Some? then c[e := info.value] else c - {e}
  }

  // ---- Replay ----

  /** The live nodes somebody has who only listens to the notifications. */
  function ReplayLive(hash: Hasher, live: set<NodeHash>, notes: seq<Notification>): set<NodeHash> {
    if notes == [] then live
    else
      var before := ReplayLive(hash, live, notes[..|notes| - 1]);
      ApplyNote(hash, before, notes[|notes| - 1])
  }

  function LiveNodes(hash: Hasher, c: Contents): set<NodeHash> {
    set e | e in c && c[e].deadReason.None? :: hash(c[e].address)
  }

  /** No notification announces the discovery of a node the listener already takes for live. */
  ghost predicate NoRediscovery(hash: Hasher, live: set<NodeHash>, notes: seq<Notification>) {
    forall i | 0 <= i < |notes| && notes[i].NodeDiscovered? ::
      hash(notes[i].address) !in ReplayLive(hash, live, notes[..i])
  }

  lemma {:induction false} ReplayConcat(
    hash: Hasher, live: set<NodeHash>, first: seq<Notification>, second: seq<Notification>)
    ensures ReplayLive(hash, live, first + second) == ReplayLive(hash, ReplayLive(hash, live, first), second)
    ensures NoRediscovery(hash, live, first) && NoRediscovery(hash, ReplayLive(hash, live, first), second) ==>
      NoRediscovery(hash, live, first + second)
    decreases |second|
  {
    if second == [] {
      assert first + second == first;
    } else {
      var init := second[..|second| - 1];
      assert (first + second)[..|first + second| - 1] == first + init;
      ReplayConcat(hash, live, first, init);
      if NoRediscovery(hash, live, first) && NoRediscovery(hash, ReplayLive(hash, live, first), second) {
        forall i | 0 <= i < |second| - 1
          ensures init[..i] == second[..i]
        {
        }
        assert NoRediscovery(hash, live, first + init);
        forall i | 0 <= i < |first + second| && (first + second)[i].NodeDiscovered?
          ensures hash((first + second)[i].address) !in ReplayLive(hash, live, (first + second)[..i])
        {
          if i < |first + init| {
            assert (first + second)[..i] == (first + init)[..i];
          }
        }
      }
    }
  }

  ghost predicate WellKeyed(c: Contents) {
    forall e <- c :: c[e].address.endpoint == e
  }

  /** No two of these addresses share a hash. */
  ghost predicate CollisionFree(hash: Hasher, addresses: set<NodeAddress>) {
    forall a <- addresses, b <- addresses :: hash(a) == hash(b) ==> a == b
  }

  /** No known node shares its hash with a different address. */
  ghost predicate NoCollision(hash: Hasher, c: Contents, a: NodeAddress) {
    forall e <- c :: hash(c[e].address) == hash(a) ==> c[e].address == a
  }

  ghost predicate KnownFrom(c: Contents, addresses: set<NodeAddress>) {
    forall e <- c :: c[e].address in addresses
  }

  function ApplyNote(hash: Hasher, live: set<NodeHash>, n: Notification): set<NodeHash> {
    match n
    case NodeDiscovered(address) => live + {hash(address)}
    case NodeDied(node, _) => live - {node}
    case NodeStacksChanged(_, _, _) => live
  }

  ghost predicate NotYetLive(hash: Hasher, live: set<NodeHash>, part: seq<Notification>) {
    forall n <- part :: n.NodeDiscovered? ==> hash(n.address) !in live
  }

  function ApplyPart(hash: Hasher, live: set<NodeHash>, part: seq<Notification>): set<NodeHash> {
    if part == [] then live else ApplyNote(hash, live, part[0])
  }

  /** Replay of a list of at most one notification. */
  lemma {:induction false} ReplayPart(hash: Hasher, live: set<NodeHash>, part: seq<Notification>)
    requires |part| <= 1
    ensures ReplayLive(hash, live, part) == ApplyPart(hash, live, part)
    ensures NoRediscovery(hash, live, part) <==> NotYetLive(hash, live, part)
  {
    if part != [] {
      assert part[..0] == [];
      assert ReplayLive(hash, live, part[..0]) == live;
    }
  }

  lemma {:induction false} ReplayThree(
    hash: Hasher, live: set<NodeHash>, a: seq<Notification>, b: seq<Notification>, c: seq<Notification>)
    requires |a| <= 1 && |b| <= 1 && |c| <= 1
    requires NotYetLive(hash, live, a)
    requires NotYetLive(hash, ApplyPart(hash, live, a), b)
    requires NotYetLive(hash, ApplyPart(hash, ApplyPart(hash, live, a), b), c)
    ensures ReplayLive(hash, live, a + b + c) == ApplyPart(hash, ApplyPart(hash, ApplyPart(hash, live, a), b), c)
    ensures NoRediscovery(hash, live, a + b + c)
  {
    ReplayPart(hash, live, a);
    ReplayConcat(hash, live, a, b);
    var live1 := ReplayLive(hash, live, a);
    ReplayPart(hash, live1, b);
    ReplayConcat(hash, live, a + b, c);
    ReplayPart(hash, ReplayLive(hash, live1, b), c);
  }

  lemma {:induction false} LiveAfterStore(hash: Hasher, c: Contents, e: Endpoint, info: Option<RemoteNodeInfo>)
    requires WellKeyed(c)
    requires info.Some? ==> info.value.address.endpoint == e
    requires e in c ==> NoCollision(hash, c, c[e].address)
    ensures
      var others := LiveNodes(hash, c - {e});
      && WellKeyed(Store(c, e, info))
      && LiveNodes(hash, c) == LiveWith(hash, others, Lookup(c, e))
      && (e in c ==> hash(c[e].address) !in others)
      && LiveNodes(hash, Store(c, e, info)) == LiveWith(hash, others, info)
  {
    var c' := Store(c, e, info);
    assert c' - {e} == c - {e};
    LiveSplit(hash, c, e);
    LiveSplit(hash, c', e);
    if e in c {
      forall h | h in LiveNodes(hash, c - {e})
        ensures h != hash(c[e].address)
      {
        var k :| k in c - {e} && hash((c - {e})[k].address) == h;
      }
    }
  }

  lemma {:induction false} LiveSplit(hash: Hasher, c: Contents, e: Endpoint)
    ensures LiveNodes(hash, c) == LiveWith(hash, LiveNodes(hash, c - {e}), Lookup(c, e))
  {
    var rest := c - {e};
    forall h
      ensures h in LiveNodes(hash, c) <==> h in LiveWith(hash, LiveNodes(hash, rest), Lookup(c, e))
    {
      if h in LiveNodes(hash, c) {
        var k :| k in c && c[k].deadReason.None? && hash(c[k].address) == h;
        assert k != e ==> k in rest && rest[k] == c[k];
      }
      if h in LiveNodes(hash, rest) {
        var k :| k in rest && rest[k].deadReason.None? && hash(rest[k].address) == h;
        assert k in c && c[k] == rest[k];
      }
    }
  }

  /** The notifications sent for an endpoint turn the listener's live nodes before the update into the
      live nodes after it, and never discover a live node again. */
  lemma {:induction false} UpdateReplays(
    hash: Hasher, c: Contents, e: Endpoint, status: Option<NodeStatus>, assumeDeadAfter: int, now: int)
    requires WellKeyed(c)
    requires status.Some? ==> status.value.address.endpoint == e
    requires e in c ==> NoCollision(hash, c, c[e].address)
    requires status.Some? ==> NoCollision(hash, c, status.value.address)
    ensures
      var r := UpdateEndpoint(hash, Lookup(c, e), status, assumeDeadAfter, now);
      && (r.0.Some? ==> r.0.value.address.endpoint == e)
      && WellKeyed(Store(c, e, r.0))
      && ReplayLive(hash, LiveNodes(hash, c), r.1) == LiveNodes(hash, Store(c, e, r.0))
      && NoRediscovery(hash, LiveNodes(hash, c), r.1)
  {
    var r := UpdateEndpoint(hash, Lookup(c, e), status, assumeDeadAfter, now);
    var info, notes := r.0, r.1;
    LiveAfterStore(hash, c, e, info);
    var live := LiveNodes(hash, c);
    if status.None? {
      ReplayPart(hash, live, notes);
    } else {
      var s := status.value;
      forall h | h in LiveNodes(hash, c - {e})
        ensures h != hash(s.address)
      {
        var k :| k in c - {e} && hash(c[k].address) == h;
      }
      CompareReplays(hash, LiveNodes(hash, c - {e}), Lookup(c, e), s, GetDeadReason(assumeDeadAfter, now, s));
    }
  }

  ghost function LiveWith(hash: Hasher, others: set<NodeHash>, info: Option<RemoteNodeInfo>): set<NodeHash> {
    others + if info.Some? && info.value.deadReason.None? then {hash(info.value.address)} else {}
  }

  lemma {:induction false} CompareReplays(
    hash: Hasher, others: set<NodeHash>, existing: Option<RemoteNodeInfo>, status: NodeStatus, dead: Option<DeadReason>)
    requires hash(status.address) !in others
    requires existing.Some? ==> existing.value.address.endpoint == status.address.endpoint
    requires existing.Some? ==> hash(existing.value.address) !in others
    requires existing.Some? && hash(existing.value.address) == hash(status.address) ==>
      existing.value.address == status.address
    ensures
      var r, live := Compare(hash, existing, status, dead), LiveWith(hash, others, existing);
      ReplayLive(hash, live, r.1) == LiveWith(hash, others, r.0) && NoRediscovery(hash, live, r.1)
  {
    var notes := Compare(hash, existing, status, dead).1;
    var live := LiveWith(hash, others, existing);
    match existing
    case None =>
      ReplayPart(hash, live, notes);
    case Some(prev) =>
      if prev.address.generation == status.address.generation {
        SameGenerationReplays(hash, others, prev, status, dead);
      } else if prev.address.generation < status.address.generation {
        NewGenerationReplays(hash, others, prev, status, dead);
      } else {
        ReplayPart(hash, live, notes);
      }
  }

  lemma {:induction false} NewGenerationReplays(
    hash: Hasher, others: set<NodeHash>, prev: RemoteNodeInfo, status: NodeStatus, dead: Option<DeadReason>)
    requires prev.address.generation < status.address.generation
    requires hash(prev.address) !in others && hash(status.address) !in others
    requires hash(prev.address) != hash(status.address)
    ensures
      var r, live := Compare(hash, Some(prev), status, dead), LiveWith(hash, others, Some(prev));
      ReplayLive(hash, live, r.1) == LiveWith(hash, others, r.0) && NoRediscovery(hash, live, r.1)
  {
    var live := LiveWith(hash, others, Some(prev));
    var a := if prev.deadReason.None? then [NodeDied(hash(prev.address), ReplacedByNewGeneration)] else [];
    var b := if dead.None? then [NodeDiscovered(status.address)] else [];
    assert Compare(hash, Some(prev), status, dead).1 == a + b + [];
    ReplayThree(hash, live, a, b, []);
  }

  lemma {:induction false} SameGenerationReplays(
    hash: Hasher, others: set<NodeHash>, prev: RemoteNodeInfo, status: NodeStatus, dead: Option<DeadReason>)
    requires prev.address == status.address && hash(prev.address) !in others
    ensures
      var r, live := Compare(hash, Some(prev), status, dead), LiveWith(hash, others, Some(prev));
      ReplayLive(hash, live, r.1) == LiveWith(hash, others, r.0) && NoRediscovery(hash, live, r.1)
  {
    var live := LiveWith(hash, others, Some(prev));
    var a, b, c := BackToLife(prev, status, dead), StacksChanged(hash, prev, status), Died(hash, prev, dead);
    PartsReplay(hash, others, prev, status, dead);
    ReplayThree(hash, live, a, b, c);
  }

  lemma {:induction false} PartsReplay(
    hash: Hasher, others: set<NodeHash>, prev: RemoteNodeInfo, status: NodeStatus, dead: Option<DeadReason>)
    requires prev.address == status.address && hash(prev.address) !in others
    ensures
      var a, b, c := BackToLife(prev, status, dead), StacksChanged(hash, prev, status), Died(hash, prev, dead);
      var live := LiveWith(hash, others, Some(prev));
      var live1 := ApplyPart(hash, live, a);
      && |a| <= 1 && |b| <= 1 && |c| <= 1
      && NotYetLive(hash, live, a) && NotYetLive(hash, live1, b) && NotYetLive(hash, live1, c)
      && ApplyPart(hash, live1, b) == live1
      && ApplyPart(hash, live1, c) ==
        LiveWith(hash, others, Some(prev.(deadReason := dead, deployedStacks := status.deployedStacks)))
  {
  }
}
