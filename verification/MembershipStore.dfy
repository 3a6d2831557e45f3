/** Any number of nodes writing their status to the shared table with compare-and-swap, and any number of
    nodes reading it, interleaved step by step. */
module MembershipStore {
  import opened Ids
  import opened Membership
  import opened MembershipListener
  import StackMachine
  import SchedulerRuns

  /** One execution of the write loop. A writer that read the table remembers what it saw until its
      compare-and-swap; a lost race sends it back to reading. */
  datatype Writer =
    | Reading(status: NodeStatus)
    | Swapping(status: NodeStatus, seen: Option<NodeStatus>)
    | Written(status: NodeStatus)
    | Refused(status: NodeStatus)

  datatype Observer = Observer(myAddress: NodeAddress, regionId: Blob, assumeDeadAfter: int, nodes: Contents)

  datatype System = System(table: Table, writers: map<nat, Writer>, observers: map<nat, Observer>)

  /** `Observe` handles a single endpoint, so the entries of one update may come from different moments. */
  datatype Step =
    | BeginWrite(writer: nat, status: NodeStatus)
    | Read(writer: nat)
    | Swap(writer: nat)
    | Observe(observer: nat, endpoint: Endpoint, now: int)

  function Stored(t: Table, e: Endpoint): Option<NodeStatus> {
    if e in t then Some(t[e]) else None
  }

  function VisibleTo(o: Observer, t: Table, e: Endpoint): Option<NodeStatus> {
    Visible(t, o.regionId, o.myAddress, e)
  }

  function Observed(hash: Hasher, o: Observer, t: Table, e: Endpoint, now: int): Observer {
    var info := UpdateEndpoint(hash, Lookup(o.nodes, e), VisibleTo(o, t, e), o.assumeDeadAfter, now).0;
    o.(nodes := Store(o.nodes, e, info))
  }

  function AfterRead(w: Writer, t: Table): Writer
    requires w.Reading?
  {
    var existing := Stored(t, w.status.address.endpoint);
    if existing.Some? && existing.value.address.generation > w.status.address.generation then Refused(w.status)
    else Swapping(w.status, existing)
  }

  /** A step that is not enabled changes nothing. */
  function Next(hash: Hasher, s: System, step: Step): System {
    match step
    case BeginWrite(p, status) =>
      if p in s.writers then s else s.(writers := s.writers[p := Reading(status)])
    case Read(p) =>
      if p in s.writers && s.writers[p].Reading?
      then s.(writers := s.writers[p := AfterRead(s.writers[p], s.table)])
      else s
    case Swap(p) =>
      if p in s.writers && s.writers[p].Swapping? then
        var w := s.writers[p];
        var e := w.status.address.endpoint;
        if Stored(s.table, e) == w.seen
        then s.(table := s.table[e := w.status], writers := s.writers[p := Written(w.status)])
        else s.(writers := s.writers[p := Reading(w.status)])
      else s
    case Observe(o, e, now) =>
      if o in s.observers
      then s.(observers := s.observers[o := Observed(hash, s.observers[o], s.table, e, now)])
      else s
  }

  function Run(hash: Hasher, s: System, steps: seq<Step>): System {
    if steps == [] then s else Next(hash, Run(hash, s, steps[..|steps| - 1]), steps[|steps| - 1])
  }

  /** Entries are filed under their own endpoint, and a writer about to swap saw nothing newer than itself. */
  ghost predicate Consistent(s: System) {
    && (forall e <- s.table :: s.table[e].address.endpoint == e)
    && (forall p <- s.writers :: s.writers[p].Swapping? && s.writers[p].seen.Some? ==>
          s.writers[p].seen.value.address.generation <= s.writers[p].status.address.generation)
  }

  /** Nothing stored in `t` is missing from, or of a newer generation than, what is stored in `u`. */
  ghost predicate Advances(t: Table, u: Table) {
    forall e <- t :: e in u && t[e].address.generation <= u[e].address.generation
  }

  lemma {:induction false} StepAdvances(hash: Hasher, s: System, step: Step)
    requires Consistent(s)
    ensures Consistent(Next(hash, s, step)) && Advances(s.table, Next(hash, s, step).table)
  {
  }

  lemma {:induction false} RunConsistent(hash: Hasher, s: System, steps: seq<Step>)
    requires Consistent(s)
    ensures Consistent(Run(hash, s, steps))
  {
    if steps != [] {
      RunConsistent(hash, s, steps[..|steps| - 1]);
      StepAdvances(hash, Run(hash, s, steps[..|steps| - 1]), steps[|steps| - 1]);
    }
  }

  /** Under every interleaving the generation stored for an endpoint never goes down. */
  lemma {:induction false} GenerationsNeverGoBack(hash: Hasher, s: System, steps: seq<Step>, more: seq<Step>)
    requires Consistent(s)
    ensures Advances(Run(hash, s, steps).table, Run(hash, s, steps + more).table)
  {
    if more != [] {
      var init, last := more[..|more| - 1], more[|more| - 1];
      GenerationsNeverGoBack(hash, s, steps, init);
      assert (steps + more)[..|steps + more| - 1] == steps + init;
      RunConsistent(hash, s, steps + init);
      StepAdvances(hash, Run(hash, s, steps + init), last);
    } else {
      assert steps + more == steps;
    }
  }

  /** Once a newer incarnation has written its status, no write of an older one, its dead mark included,
      ever succeeds again. */
  lemma {:induction false} OldIncarnationNeverOverwrites(
    hash: Hasher, s: System, steps: seq<Step>, more: seq<Step>, p: nat)
    requires Consistent(s)
    requires
      var mid, end := Run(hash, s, steps), Run(hash, s, steps + more);
      && p in end.writers && end.writers[p].status.address.endpoint in mid.table
      && end.writers[p].status.address.generation <
           mid.table[end.writers[p].status.address.endpoint].address.generation
    ensures
      var end := Run(hash, s, steps + more);
      Next(hash, end, Swap(p)).table == end.table
  {
    GenerationsNeverGoBack(hash, s, steps, more);
    RunConsistent(hash, s, steps + more);
  }

  // ---- What the write loop achieves ----

  /** Who reports success has its status in the table, or something at least as new. */
  ghost predicate WrittenStored(s: System) {
    forall p <- s.writers :: s.writers[p].Written? ==>
      && s.writers[p].status.address.endpoint in s.table
      && s.writers[p].status.address.generation <= s.table[s.writers[p].status.address.endpoint].address.generation
  }

  lemma {:induction false} StepKeepsWritten(hash: Hasher, s: System, step: Step)
    requires Consistent(s) && WrittenStored(s)
    ensures WrittenStored(Next(hash, s, step))
  {
    StepAdvances(hash, s, step);
  }

  /** Under every interleaving that starts with no writers, every writer that reports success is stored. */
  lemma {:induction false} EveryRunWritten(hash: Hasher, s: System, steps: seq<Step>)
    requires Consistent(s) && s.writers == map[]
    ensures WrittenStored(Run(hash, s, steps))
  {
    if steps != [] {
      var init := steps[..|steps| - 1];
      EveryRunWritten(hash, s, init);
      RunConsistent(hash, s, init);
      StepKeepsWritten(hash, Run(hash, s, init), steps[|steps| - 1]);
    }
  }

  /** The step in which a writer succeeds leaves exactly its status at its endpoint and every other entry as it was;
      no other step changes the table. */
  lemma {:induction false} SuccessIsTheWrite(hash: Hasher, s: System, step: Step)
    ensures
      var s' := Next(hash, s, step);
      && (s'.table == s.table || (step.Swap? && step.writer in s'.writers && s'.writers[step.writer].Written?))
      && forall p <- s.writers :: p in s'.writers && s'.writers[p].status == s.writers[p].status
           && (!s.writers[p].Written? && s'.writers[p].Written? ==>
                 s'.table == s.table[s.writers[p].status.address.endpoint := s.writers[p].status])
  {
  }

  /** A writer that nobody disturbs between its read and its swap succeeds, and its status is stored, exactly when
      nothing newer is stored at its endpoint; otherwise it gives up and changes nothing. */
  lemma {:induction false} UndisturbedWrite(hash: Hasher, s: System, p: nat, status: NodeStatus)
    requires p !in s.writers
    ensures
      var s' := Next(hash, Next(hash, Next(hash, s, BeginWrite(p, status)), Read(p)), Swap(p));
      var e := status.address.endpoint;
      if e in s.table && s.table[e].address.generation > status.address.generation
      then s'.table == s.table && s'.writers == s.writers[p := Refused(status)]
      else s'.table == s.table[e := status] && s'.writers == s.writers[p := Written(status)]
  {
    var s1 := Next(hash, s, BeginWrite(p, status));
    assert s1 == s.(writers := s.writers[p := Reading(status)]);
    var s2 := Next(hash, s1, Read(p));
    assert s2 == s.(writers := s.writers[p := AfterRead(Reading(status), s.table)]);
  }

  // ---- Observers ----

  ghost predicate ObserversBehind(s: System) {
    forall o <- s.observers :: forall e <- s.observers[o].nodes ::
      && e in s.table
      && s.observers[o].nodes[e].address.endpoint == e
      && s.observers[o].nodes[e].address.generation <= s.table[e].address.generation
  }

  /** `n` is at least as far along as `m`: an endpoint known in both has no older generation in `n`. */
  ghost predicate NotOlder(m: Contents, n: Contents) {
    forall e <- m :: e in n ==> m[e].address.generation <= n[e].address.generation
  }

  lemma {:induction false} ObserverStep(hash: Hasher, s: System, step: Step, o: nat)
    requires Consistent(s) && ObserversBehind(s) && o in s.observers
    ensures
      var s' := Next(hash, s, step);
      && o in s'.observers
      && forall e <- s'.observers[o].nodes ::
           (e in s.observers[o].nodes && s.observers[o].nodes[e].address == s'.observers[o].nodes[e].address) ||
           (e in s.table && s'.observers[o].nodes[e].address == s.table[e].address)
  {
  }

  lemma {:induction false} StepKeepsBehind(hash: Hasher, s: System, step: Step)
    requires Consistent(s) && ObserversBehind(s)
    ensures ObserversBehind(Next(hash, s, step))
  {
    var s' := Next(hash, s, step);
    StepAdvances(hash, s, step);
    forall o | o in s'.observers
      ensures forall e <- s'.observers[o].nodes ::
        && e in s'.table
        && s'.observers[o].nodes[e].address.endpoint == e
        && s'.observers[o].nodes[e].address.generation <= s'.table[e].address.generation
    {
      ObserverStep(hash, s, step, o);
    }
  }

  lemma {:induction false} RunKeepsBehind(hash: Hasher, s: System, steps: seq<Step>)
    requires Consistent(s) && ObserversBehind(s)
    ensures Consistent(Run(hash, s, steps)) && ObserversBehind(Run(hash, s, steps))
    ensures Run(hash, s, steps).observers.Keys == s.observers.Keys
  {
    if steps != [] {
      RunKeepsBehind(hash, s, steps[..|steps| - 1]);
      StepAdvances(hash, Run(hash, s, steps[..|steps| - 1]), steps[|steps| - 1]);
      StepKeepsBehind(hash, Run(hash, s, steps[..|steps| - 1]), steps[|steps| - 1]);
    }
  }

  /** What an observer knows at the end about an endpoint was known at `steps` already or was stored in the
      table at some point no earlier. */
  lemma {:induction false} KnownOrStoredLater(
    hash: Hasher, s: System, steps: seq<Step>, more: seq<Step>, o: nat, e: Endpoint)
    requires Consistent(s) && ObserversBehind(s) && o in s.observers
    requires Run(hash, s, steps + more).observers.Keys == s.observers.Keys
    requires e in Run(hash, s, steps + more).observers[o].nodes
    requires Run(hash, s, steps).observers.Keys == s.observers.Keys
    ensures
      var mid, held := Run(hash, s, steps), Run(hash, s, steps + more).observers[o].nodes[e].address;
      (e in mid.observers[o].nodes && held == mid.observers[o].nodes[e].address) ||
      (e in mid.table ==> mid.table[e].address.generation <= held.generation)
  {
    if more == [] {
      assert steps + more == steps;
    } else {
      var init, last := more[..|more| - 1], more[|more| - 1];
      assert (steps + more)[..|steps + more| - 1] == steps + init;
      var before := Run(hash, s, steps + init);
      RunKeepsBehind(hash, s, steps + init);
      ObserverStep(hash, before, last, o);
      GenerationsNeverGoBack(hash, s, steps, init);
      var held := Run(hash, s, steps + more).observers[o].nodes[e].address;
      if e in before.observers[o].nodes && before.observers[o].nodes[e].address == held {
        KnownOrStoredLater(hash, s, steps, init, o, e);
      }
    }
  }

  /** The generation an observer holds for an endpoint never goes back, not even after it forgot the
      endpoint in between. */
  lemma {:induction false} ObserverNeverGoesBack(hash: Hasher, s: System, steps: seq<Step>, more: seq<Step>, o: nat)
    requires Consistent(s) && ObserversBehind(s) && o in s.observers
    ensures
      var mid, end := Run(hash, s, steps), Run(hash, s, steps + more);
      && o in mid.observers && o in end.observers
      && NotOlder(mid.observers[o].nodes, end.observers[o].nodes)
  {
    RunKeepsBehind(hash, s, steps);
    RunKeepsBehind(hash, s, steps + more);
    var mid, end := Run(hash, s, steps), Run(hash, s, steps + more);
    forall e | e in mid.observers[o].nodes && e in end.observers[o].nodes
      ensures mid.observers[o].nodes[e].address.generation <= end.observers[o].nodes[e].address.generation
    {
      KnownOrStoredLater(hash, s, steps, more, o, e);
    }
  }

  // ---- What an observer makes its listeners believe ----

  /** What the observer found for the endpoint, update by update. */
  function SightingsOf(hash: Hasher, s: System, steps: seq<Step>, o: nat, e: Endpoint): seq<Sighting> {
    if steps == [] then []
    else
      var init, last := steps[..|steps| - 1], steps[|steps| - 1];
      var before := Run(hash, s, init);
      SightingsOf(hash, s, init, o, e)
      + if last.Observe? && last.observer == o && last.endpoint == e && o in before.observers
        then [Sighting(VisibleTo(before.observers[o], before.table, e), last.now)] else []
  }

  lemma {:induction false} ObserverKeepsIdentity(hash: Hasher, s: System, steps: seq<Step>, o: nat)
    requires o in s.observers
    ensures
      var end := Run(hash, s, steps);
      o in end.observers && end.observers[o] == s.observers[o].(nodes := end.observers[o].nodes)
  {
    if steps != [] {
      ObserverKeepsIdentity(hash, s, steps[..|steps| - 1], o);
    }
  }

  /** An observer knows of an endpoint what watching it update by update gives. */
  lemma {:induction false} ObserverWatches(hash: Hasher, s: System, steps: seq<Step>, o: nat, e: Endpoint)
    requires o in s.observers && o in Run(hash, s, steps).observers
    ensures
      var start := s.observers[o];
      Lookup(Run(hash, s, steps).observers[o].nodes, e) ==
        Watched(hash, Lookup(start.nodes, e), start.assumeDeadAfter, SightingsOf(hash, s, steps, o, e)).0
  {
    if steps != [] {
      var init, last := steps[..|steps| - 1], steps[|steps| - 1];
      ObserverKeepsIdentity(hash, s, init, o);
      ObserverWatches(hash, s, init, o, e);
      var before, start := Run(hash, s, init), s.observers[o];
      ObserverSees(hash, before, last, o, e);
      if last.Observe? && last.observer == o && last.endpoint == e {
        var sighting := Sighting(VisibleTo(before.observers[o], before.table, e), last.now);
        WatchedOne(hash, Lookup(start.nodes, e), start.assumeDeadAfter, SightingsOf(hash, s, init, o, e), sighting);
      } else {
        assert SightingsOf(hash, s, steps, o, e) == SightingsOf(hash, s, init, o, e);
      }
    }
  }

  lemma {:induction false} ObserverSees(hash: Hasher, s: System, step: Step, o: nat, e: Endpoint)
    requires o in s.observers
    ensures
      var me, s' := s.observers[o], Next(hash, s, step);
      && o in s'.observers
      && Lookup(s'.observers[o].nodes, e) ==
        if step.Observe? && step.observer == o && step.endpoint == e
        then UpdateEndpoint(hash, Lookup(me.nodes, e), VisibleTo(me, s.table, e), me.assumeDeadAfter, step.now).0
        else Lookup(me.nodes, e)
  {
  }

  /** Sightings, and what was known at the start, are no newer than the table. */
  ghost predicate NoNewerThan(start: Option<RemoteNodeInfo>, run: seq<Sighting>, t: Table, e: Endpoint) {
    && (start.Some? ==> e in t && start.value.address.generation <= t[e].address.generation)
    && (forall x <- run :: x.status.Some? ==>
          && x.status.value.address.endpoint == e && e in t
          && x.status.value.address.generation <= t[e].address.generation)
  }

  lemma {:induction false} SightingsOfTable(hash: Hasher, s: System, steps: seq<Step>, o: nat, e: Endpoint)
    requires Consistent(s) && ObserversBehind(s) && o in s.observers
    ensures
      var start, run := Lookup(s.observers[o].nodes, e), SightingsOf(hash, s, steps, o, e);
      NeverOlder(start, run) && NoNewerThan(start, run, Run(hash, s, steps).table, e)
  {
    if steps != [] {
      var init, last := steps[..|steps| - 1], steps[|steps| - 1];
      var before, start := Run(hash, s, init), Lookup(s.observers[o].nodes, e);
      SightingsOfTable(hash, s, init, o, e);
      RunConsistent(hash, s, init);
      StepAdvances(hash, before, last);
      var run := SightingsOf(hash, s, init, o, e);
      assert NoNewerThan(start, run, Run(hash, s, steps).table, e);
      if last.Observe? && last.observer == o && last.endpoint == e && o in before.observers {
        SeenNow(start, run, before, o, e, last.now);
      } else {
        assert SightingsOf(hash, s, steps, o, e) == run;
      }
    }
  }

  lemma {:induction false} SeenNow(
    start: Option<RemoteNodeInfo>, run: seq<Sighting>, s: System, o: nat, e: Endpoint, now: int)
    requires NeverOlder(start, run) && NoNewerThan(start, run, s.table, e) && Consistent(s) && o in s.observers
    ensures
      var x := Sighting(VisibleTo(s.observers[o], s.table, e), now);
      NeverOlder(start, run + [x]) && NoNewerThan(start, run + [x], s.table, e)
  {
    NeverOlderExtended(start, run, Sighting(VisibleTo(s.observers[o], s.table, e), now));
  }

  lemma {:induction false} NeverOlderExtended(start: Option<RemoteNodeInfo>, run: seq<Sighting>, x: Sighting)
    requires NeverOlder(start, run)
    requires x.status.Some? ==> Upcoming(start, run, x.status.value.address)
    ensures NeverOlder(start, run + [x])
  {
  }

  /** All addresses in play. */
  ghost predicate From(s: System, inUse: set<NodeAddress>) {
    && (forall e <- s.table :: s.table[e].address in inUse)
    && (forall p <- s.writers :: s.writers[p].status.address in inUse)
    && (forall o <- s.observers :: KnownFrom(s.observers[o].nodes, inUse))
  }

  ghost predicate StepsFrom(steps: seq<Step>, inUse: set<NodeAddress>) {
    forall step <- steps :: step.BeginWrite? ==> step.status.address in inUse
  }

  lemma {:induction false} StepKeepsFrom(hash: Hasher, s: System, step: Step, inUse: set<NodeAddress>)
    requires From(s, inUse) && (step.BeginWrite? ==> step.status.address in inUse)
    ensures From(Next(hash, s, step), inUse)
  {
  }

  lemma {:induction false} RunFrom(hash: Hasher, s: System, steps: seq<Step>, inUse: set<NodeAddress>)
    requires From(s, inUse) && StepsFrom(steps, inUse)
    ensures From(Run(hash, s, steps), inUse)
  {
    if steps != [] {
      assert steps[|steps| - 1] in steps;
      RunFrom(hash, s, steps[..|steps| - 1], inUse);
      StepKeepsFrom(hash, Run(hash, s, steps[..|steps| - 1]), steps[|steps| - 1], inUse);
    }
  }

  lemma {:induction false} SightingsConcern(
    hash: Hasher, s: System, steps: seq<Step>, o: nat, e: Endpoint, inUse: set<NodeAddress>)
    requires Consistent(s) && ObserversBehind(s) && o in s.observers && From(s, inUse) && StepsFrom(steps, inUse)
    ensures Concerns(e, inUse, Lookup(s.observers[o].nodes, e), SightingsOf(hash, s, steps, o, e))
  {
    if steps != [] {
      var init := steps[..|steps| - 1];
      SightingsConcern(hash, s, init, o, e, inUse);
      RunFrom(hash, s, init, inUse);
      RunConsistent(hash, s, init);
    }
  }

  /** Everything the observer sent, about all endpoints. */
  function NotesOf(hash: Hasher, s: System, steps: seq<Step>, o: nat): seq<Notification> {
    if steps == [] then []
    else
      var init, last := steps[..|steps| - 1], steps[|steps| - 1];
      NotesOf(hash, s, init, o) + NotesAt(hash, Run(hash, s, init), last, o)
  }

  function NotesAt(hash: Hasher, s: System, step: Step, o: nat): seq<Notification> {
    if step.Observe? && step.observer == o && o in s.observers then
      var me, e := s.observers[o], step.endpoint;
      UpdateEndpoint(hash, Lookup(me.nodes, e), VisibleTo(me, s.table, e), me.assumeDeadAfter, step.now).1
    else []
  }

  /** What an update of another endpoint sends says nothing about this one. */
  lemma {:induction false} ElsewhereKeepsBelief(
    hash: Hasher, s: System, step: Step, o: nat, inUse: set<NodeAddress>, a: NodeAddress, belief: set<StackID>)
    requires Consistent(s) && ObserversBehind(s) && From(s, inUse) && CollisionFree(hash, inUse) && a in inUse
    requires step.Observe? && step.observer == o && o in s.observers && step.endpoint != a.endpoint
    ensures Believed(hash(a), belief, NotesAt(hash, s, step, o)) == belief
  {
    var me, e := s.observers[o], step.endpoint;
    NotesNameKnown(hash, Lookup(me.nodes, e), VisibleTo(me, s.table, e), me.assumeDeadAfter, step.now);
    OthersKeepBelief(hash(a), belief, NotesAt(hash, s, step, o));
  }

  /** Of all an observer sends, only what it sends about an address's endpoint matters for the address. */
  lemma {:induction false} OnlyOwnEndpointMatters(
    hash: Hasher, s: System, steps: seq<Step>, o: nat, inUse: set<NodeAddress>, a: NodeAddress, belief: set<StackID>)
    requires Consistent(s) && ObserversBehind(s) && From(s, inUse) && StepsFrom(steps, inUse)
    requires CollisionFree(hash, inUse) && a in inUse && o in s.observers
    ensures
      var start, run := s.observers[o], SightingsOf(hash, s, steps, o, a.endpoint);
      Believed(hash(a), belief, NotesOf(hash, s, steps, o)) ==
        Believed(hash(a), belief, Watched(hash, Lookup(start.nodes, a.endpoint), start.assumeDeadAfter, run).1)
  {
    if steps != [] {
      var init, last := steps[..|steps| - 1], steps[|steps| - 1];
      var before, start, e := Run(hash, s, init), s.observers[o], a.endpoint;
      OnlyOwnEndpointMatters(hash, s, init, o, inUse, a, belief);
      RunFrom(hash, s, init, inUse);
      RunKeepsBehind(hash, s, init);
      ObserverKeepsIdentity(hash, s, init, o);
      BelievedConcat(hash(a), belief, NotesOf(hash, s, init, o), NotesAt(hash, before, last, o));
      if last.Observe? && last.observer == o {
        if last.endpoint == e {
          OwnEndpoint(hash, s, init, last, o, a, belief);
        } else {
          ElsewhereKeepsBelief(hash, before, last, o, inUse, a, Believed(hash(a), belief, NotesOf(hash, s, init, o)));
          assert SightingsOf(hash, s, steps, o, e) == SightingsOf(hash, s, init, o, e);
        }
      } else {
        assert SightingsOf(hash, s, steps, o, e) == SightingsOf(hash, s, init, o, e);
      }
    }
  }

  lemma {:induction false} OwnEndpoint(
    hash: Hasher, s: System, init: seq<Step>, last: Step, o: nat, a: NodeAddress, belief: set<StackID>)
    requires last.Observe? && last.observer == o && last.endpoint == a.endpoint && o in s.observers
    requires o in Run(hash, s, init).observers
    ensures
      var e, before, start := a.endpoint, Run(hash, s, init), s.observers[o];
      var run := SightingsOf(hash, s, init, o, e);
      var x := Sighting(VisibleTo(before.observers[o], before.table, e), last.now);
      Believed(hash(a), belief, Watched(hash, Lookup(start.nodes, e), start.assumeDeadAfter, run + [x]).1) ==
        Believed(
          hash(a),
          Believed(hash(a), belief, Watched(hash, Lookup(start.nodes, e), start.assumeDeadAfter, run).1),
          NotesAt(hash, before, last, o))
  {
    var e, before, start := a.endpoint, Run(hash, s, init), s.observers[o];
    var run := SightingsOf(hash, s, init, o, e);
    var x := Sighting(VisibleTo(before.observers[o], before.table, e), last.now);
    ObserverWatches(hash, s, init, o, e);
    ObserverKeepsIdentity(hash, s, init, o);
    WatchedOne(hash, Lookup(start.nodes, e), start.assumeDeadAfter, run, x);
    var notes := Watched(hash, Lookup(start.nodes, e), start.assumeDeadAfter, run).1;
    BelievedConcat(hash(a), belief, notes, NotesAt(hash, before, last, o));
  }

  /** Under every interleaving of writers and observers and for every address in use: what all of an observer's
      notifications make a listener believe of it is what its entry says except the unheard stacks if the observer
      knows it, and otherwise what lingers of it. */
  lemma {:induction false} ObserverBeliefExact(
    hash: Hasher, s: System, steps: seq<Step>, o: nat, inUse: set<NodeAddress>, a: NodeAddress)
    requires Consistent(s) && ObserversBehind(s) && From(s, inUse) && StepsFrom(steps, inUse)
    requires CollisionFree(hash, inUse) && a in inUse && o in s.observers && o in Run(hash, s, steps).observers
    ensures
      var run, start := SightingsOf(hash, s, steps, o, a.endpoint), Lookup(s.observers[o].nodes, a.endpoint);
      var known, dies := Lookup(Run(hash, s, steps).observers[o].nodes, a.endpoint), s.observers[o].assumeDeadAfter;
      Believed(hash(a), BelievedAtStart(hash, start, hash(a)), NotesOf(hash, s, steps, o)) ==
        Due(known, Unheard(hash, start, dies, run), Lingering(hash, start, dies, run, a), a)
  {
    var e := a.endpoint;
    var run, start := SightingsOf(hash, s, steps, o, e), Lookup(s.observers[o].nodes, e);
    SightingsOfTable(hash, s, steps, o, e);
    SightingsConcern(hash, s, steps, o, e, inUse);
    ObserverWatches(hash, s, steps, o, e);
    OnlyOwnEndpointMatters(hash, s, steps, o, inUse, a, BelievedAtStart(hash, start, hash(a)));
    BeliefAfterUpdates(hash, e, inUse, start, s.observers[o].assumeDeadAfter, run, a);
  }

  /** From the shared table to the scheduler: a scheduler fed with everything its node's observer sends, amid anything
      except a removal of the stack, records a node as holder of the stack exactly when the stack is in the node's
      entry as last seen and not unheard of, or lingers. */
  lemma {:induction false} SchedulerFollowsTable(
    hash: Hasher, s: System, steps: seq<Step>, o: nat, inUse: set<NodeAddress>, a: NodeAddress,
    id: StackID, l: StackMachine.Local, events: seq<SchedulerRuns.Event>)
    requires Consistent(s) && ObserversBehind(s) && From(s, inUse) && StepsFrom(steps, inUse)
    requires CollisionFree(hash, inUse) && a in inUse && o in s.observers && o in Run(hash, s, steps).observers
    requires hash(a) in SchedulerRuns.Recorded(l.view) <==>
      id in BelievedAtStart(hash, Lookup(s.observers[o].nodes, a.endpoint), hash(a))
    requires Posts(hash, NotesOf(hash, s, steps, o), MembershipPart(events))
    requires forall x <- events :: !SchedulerRuns.Removes(x.msg, id)
    ensures
      var run, start := SightingsOf(hash, s, steps, o, a.endpoint), Lookup(s.observers[o].nodes, a.endpoint);
      var known, dies := Lookup(Run(hash, s, steps).observers[o].nodes, a.endpoint), s.observers[o].assumeDeadAfter;
      hash(a) in SchedulerRuns.Recorded(SchedulerRuns.Run(id, l, events).view) <==>
        id in Due(known, Unheard(hash, start, dies, run), Lingering(hash, start, dies, run, a), a)
  {
    var start := Lookup(s.observers[o].nodes, a.endpoint);
    ObserverBeliefExact(hash, s, steps, o, inUse, a);
    SchedulerRecordsBelief(
      hash, id, l, events, NotesOf(hash, s, steps, o), hash(a), BelievedAtStart(hash, start, hash(a)));
  }
}
