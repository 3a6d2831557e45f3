/** The form in which a node's status is stored: the endpoint is the key, the rest is the value. */
module MembershipProto {
  import opened Ids
  import opened Membership

  const NANOS_PER_SECOND := 1_000_000_000

  datatype Generation = Generation(upper: U64, lower: U64)

  datatype IpBytes = Ipv4(bytes: Blob) | Ipv6(bytes: Blob)

  datatype AddressProto = AddressProto(ip: Option<Option<IpBytes>>, port: U32)

  datatype Timestamp = Timestamp(seconds: int, nanos: int)

  /** `state` is the raw enum number; 0 is DEAD and 1 is ALIVE. */
  datatype StatusProto = StatusProto(
    version: U32, generation: Option<Generation>, regionId: Blob, lastUpdate: Option<Timestamp>, state: int,
    deployedStacks: seq<Option<Blob>>)

  function SplitGeneration(g: U128): Generation {
    Generation(g / TWO_64, g % TWO_64)
  }

  function JoinGeneration(g: Generation): U128 {
    g.upper * TWO_64 + g.lower
  }

  /** The halves are the high and the low 64 bits. */
  lemma {:induction false} SplitMeaning(g: U128)
    ensures g == SplitGeneration(g).upper * 18_446_744_073_709_551_616 + SplitGeneration(g).lower
  {
  }

  /** Splitting and joining are inverse, so no two generations are stored alike. */
  lemma {:induction false} GenerationRoundTrip(g: U128, p: Generation)
    ensures JoinGeneration(SplitGeneration(g)) == g
    ensures SplitGeneration(JoinGeneration(p)) == p
  {
    var j := p.upper * TWO_64 + p.lower;
    assert j / TWO_64 == p.upper && j % TWO_64 == p.lower;
  }

  function AddressToProto(e: Endpoint): AddressProto {
    AddressProto(Some(Some(match e.ip case V4(b) => Ipv4(b) case V6(b) => Ipv6(b))), e.port)
  }

  function AddressFromProto(a: AddressProto): Result<Endpoint, string> {
    match a.ip
    case None => Err("Received empty IP address")
    case Some(None) => Err("Received empty IP address")
    case Some(Some(Ipv4(bytes))) =>
      if |bytes| != 4 then Err("Expected 4 bytes in an IPv4")
      else if a.port >= 0x1_0000 then Err("Port was not a u16")
      else Ok(Endpoint(V4(bytes), a.port))
    case Some(Some(Ipv6(bytes))) =>
      if |bytes| != 16 then Err("Expected 16 bytes in an IPv6")
      else if a.port >= 0x1_0000 then Err("Port was not a u16")
      else Ok(Endpoint(V6(bytes), a.port))
  }

  /** `order` lists the deployed stacks in whatever order the set is iterated. A time before the epoch
      makes the source panic. */
  function StatusToProto(s: NodeStatus, order: seq<StackID>): StatusProto
    requires s.lastUpdate >= 0
    requires (set x | x in order) == s.deployedStacks
  {
    StatusProto(
      s.version,
      Some(SplitGeneration(s.address.generation)),
      s.regionId,
      Some(Timestamp(s.lastUpdate / NANOS_PER_SECOND, s.lastUpdate % NANOS_PER_SECOND)),
      if s.state.Dead? then 0 else 1,
      KeysOf(order))
  }

  function KeysOf(order: seq<StackID>): seq<Option<Blob>> {
    if order == [] then [] else KeysOf(order[..|order| - 1]) + [Some(order[|order| - 1].key)]
  }

  function StacksFromProto(ids: seq<Option<Blob>>): Result<set<StackID>, string> {
    if ids == [] then Ok({})
    else
      var rest := StacksFromProto(ids[..|ids| - 1]);
      if rest.Err? then rest
      else
        match ids[|ids| - 1]
        case None => Err("Received empty stack ID")
        case Some(key) =>
          if |key| != KEY_SIZE then Err("Expected 32 bytes for a Solana stack ID")
          else Ok(rest.value + {SolanaPublicKey(key)})
  }

  function StatusFromProto(a: AddressProto, p: StatusProto): Result<NodeStatus, string> {
    var endpoint := AddressFromProto(a);
    if endpoint.Err? then Err(endpoint.error)
    else if p.generation.None? then Err("Got empty generation")
    else if p.lastUpdate.None? then Err("Got empty last update timestamp")
    else if p.state != 0 && p.state != 1 then Err("Unknown node state value")
    else
      var stacks := StacksFromProto(p.deployedStacks);
      if stacks.Err? then Err(stacks.error)
      else Ok(NodeStatus(
        p.version,
        NodeAddress(endpoint.value, JoinGeneration(p.generation.value)),
        p.regionId,
        p.lastUpdate.value.seconds * NANOS_PER_SECOND + p.lastUpdate.value.nanos,
        if p.state == 0 then Dead else Alive,
        stacks.value))
  }

  lemma {:induction false} StacksRoundTrip(order: seq<StackID>)
    ensures StacksFromProto(KeysOf(order)) == Ok(set x | x in order)
  {
    if order == [] {
      assert (set x | x in order) == {};
    } else {
      var init, last := order[..|order| - 1], order[|order| - 1];
      StacksRoundTrip(init);
      OneMoreStack(KeysOf(init), last);
      assert order == init + [last];
      assert (set x | x in order) == (set x | x in init) + {last};
    }
  }

  lemma {:induction false} OneMoreStack(ids: seq<Option<Blob>>, last: StackID)
    requires StacksFromProto(ids).Ok?
    ensures StacksFromProto(ids + [Some(last.key)]) == Ok(StacksFromProto(ids).value + {last})
  {
    var all := ids + [Some(last.key)];
    assert all[..|all| - 1] == ids && all[|all| - 1] == Some(last.key) && last == SolanaPublicKey(last.key);
  }

  /** A status read back is the status written, for every order the stacks were listed in. */
  lemma {:induction false} StatusRoundTrip(s: NodeStatus, order: seq<StackID>)
    requires s.lastUpdate >= 0
    requires (set x | x in order) == s.deployedStacks
    ensures StatusFromProto(AddressToProto(s.address.endpoint), StatusToProto(s, order)) == Ok(s)
  {
    GenerationRoundTrip(s.address.generation, SplitGeneration(s.address.generation));
    StacksRoundTrip(order);
  }
}
