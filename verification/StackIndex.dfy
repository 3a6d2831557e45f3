/** The blockchain monitor's collection of stacks, with its owner entries and its two owner indexes. */
module StackIndex {
  import opened Ids

  datatype OwnerState = Active | Inactive

  datatype OwnerData = OwnerData(state: OwnerState, stacks: set<StackID>)

  type Stacks = map<StackID, StackWithMetadata>
  type Owners = map<StackOwner, OwnerData>

  datatype Index = Index(stacks: Stacks, owners: Owners, active: set<StackOwner>, inactive: set<StackOwner>) {
    function For(state: OwnerState): set<StackOwner> {
      if state.Active? then active else inactive
    }
  }

  /** Every stack is filed under its own id and listed by its own owner, and owners list nothing else. */
  ghost predicate Linked(stacks: Stacks, owners: Owners) {
    && (forall id <- stacks ::
          && stacks[id].Id() == id
          && stacks[id].Owner() in owners
          && id in owners[stacks[id].Owner()].stacks)
    && (forall o, id | o in owners && id in owners[o].stacks :: id in stacks && stacks[id].Owner() == o)
  }

  /** Being linked is what makes the stack map the disjoint union of the owners' sets. */
  lemma {:induction false} LinkedPartitions(stacks: Stacks, owners: Owners)
    requires Linked(stacks, owners)
    ensures forall id :: id in stacks <==> exists o <- owners :: id in owners[o].stacks
    ensures forall o, p | o in owners && p in owners && o != p :: owners[o].stacks !! owners[p].stacks
  {
    forall o, p | o in owners && p in owners && o != p
      ensures owners[o].stacks !! owners[p].stacks
    {
      forall id | id in owners[o].stacks
        ensures id !in owners[p].stacks
      {
        assert stacks[id].Owner() == o;
      }
    }
  }

  /** The owner indexes list exactly the owners in each state. */
  ghost predicate Exact(c: Index) {
    && (forall o :: o in c.active <==> o in c.owners && c.owners[o].state == Active)
    && (forall o :: o in c.inactive <==> o in c.owners && c.owners[o].state == Inactive)
  }

  // ---- Operations on values ----

  function Switched(c: Index, o: StackOwner, state: OwnerState): Index {
    if o !in c.owners || c.owners[o].state == state then c
    else
      var owners := c.owners[o := c.owners[o].(state := state)];
      if state.Active? then c.(owners := owners, inactive := c.inactive - {o}, active := c.active + {o})
      else c.(owners := owners, active := c.active - {o}, inactive := c.inactive + {o})
  }

  function Opened(c: Index, o: StackOwner, state: OwnerState): Index {
    var owners := c.owners[o := OwnerData(state, {})];
    if state.Active? then c.(owners := owners, active := c.active + {o})
    else c.(owners := owners, inactive := c.inactive + {o})
  }

  /** A stack of another owner is refused with a panic, which changes nothing. */
  function Added(c: Index, o: StackOwner, stack: StackWithMetadata): Index
    requires o in c.owners
  {
    var id := stack.Id();
    if stack.Owner() != o then c
    else if id in c.stacks then
      if c.stacks[id].revision >= stack.revision then c else c.(stacks := c.stacks[id := stack])
    else c.(
      stacks := c.stacks[id := stack],
      owners := c.owners[o := c.owners[o].(stacks := c.owners[o].stacks + {id})])
  }

  /** The owner goes with its last stack; the indexes are left alone. */
  function Removed(c: Index, o: StackOwner, id: StackID): Index
    requires o in c.owners
  {
    if id !in c.owners[o].stacks then c
    else
      var left := c.owners[o].stacks - {id};
      c.(
        stacks := c.stacks - {id},
        owners := if left == {} then c.owners - {o} else c.owners[o := c.owners[o].(stacks := left)])
  }

  /** What callers can do with the collection. `InsertFirst` is offered for an unknown owner only, `AddStack` and
      `RemoveStack` for a known one. */
  datatype Operation =
    | MakeActive(owner: StackOwner)
    | MakeInactive(owner: StackOwner)
    | InsertFirst(owner: StackOwner, state: OwnerState, stack: StackWithMetadata)
    | AddStack(owner: StackOwner, stack: StackWithMetadata)
    | RemoveStack(owner: StackOwner, id: StackID)

  function Step(c: Index, op: Operation): Index {
    match op
    case MakeActive(o) => Switched(c, o, Active)
    case MakeInactive(o) => Switched(c, o, Inactive)
    case InsertFirst(o, state, stack) => if o in c.owners then c else Added(Opened(c, o, state), o, stack)
    case AddStack(o, stack) => if o in c.owners then Added(c, o, stack) else c
    case RemoveStack(o, id) => if o in c.owners then Removed(c, o, id) else c
  }

  function Run(c: Index, ops: seq<Operation>): Index {
    if ops == [] then c else Step(Run(c, ops[..|ops| - 1]), ops[|ops| - 1])
  }

  // ---- Stacks and owners ----

  /** A newer revision of a known stack comes from the owner the collection knows it by. */
  predicate KeepsOwner(stacks: Stacks, stack: StackWithMetadata) {
    var id := stack.Id();
    id in stacks && stacks[id].revision < stack.revision ==> stacks[id].Owner() == stack.Owner()
  }

  /** Adding a stack keeps the maps linked exactly when no known stack changes owner. */
  lemma {:induction false} AddKeepsLinked(c: Index, o: StackOwner, stack: StackWithMetadata)
    requires Linked(c.stacks, c.owners) && o in c.owners && stack.Owner() == o
    ensures var c' := Added(c, o, stack); Linked(c'.stacks, c'.owners) <==> KeepsOwner(c.stacks, stack)
  {
    var id := stack.Id();
    var c' := Added(c, o, stack);
    if !KeepsOwner(c.stacks, stack) {
      var p := c.stacks[id].Owner();
      assert id in c'.owners[p].stacks && c'.stacks[id].Owner() != p;
    }
  }

  lemma {:induction false} RemoveKeepsLinked(c: Index, o: StackOwner, id: StackID)
    requires Linked(c.stacks, c.owners) && o in c.owners
    ensures var c' := Removed(c, o, id); Linked(c'.stacks, c'.owners)
  {
    var c' := Removed(c, o, id);
    forall p, other | p in c'.owners && other in c'.owners[p].stacks
      ensures other in c'.stacks && c'.stacks[other].Owner() == p
    {
      assert other in c.owners[p].stacks;
      assert id in c.owners[o].stacks ==> c.stacks[id].Owner() == o && other != id;
    }
  }

  predicate Adds(c: Index, op: Operation) {
    || (op.InsertFirst? && op.owner !in c.owners && op.stack.Owner() == op.owner)
    || (op.AddStack? && op.owner in c.owners && op.stack.Owner() == op.owner)
  }

  /** Every operation keeps the maps linked, unless it hands a known stack to another owner. */
  lemma {:induction false} StepKeepsLinked(c: Index, op: Operation)
    requires Linked(c.stacks, c.owners)
    ensures var c' := Step(c, op); Linked(c'.stacks, c'.owners) <==> (Adds(c, op) ==> KeepsOwner(c.stacks, op.stack))
  {
    match op
    case InsertFirst(o, state, stack) =>
      if o !in c.owners && stack.Owner() == o {
        AddKeepsLinked(Opened(c, o, state), o, stack);
      }
    case AddStack(o, stack) =>
      if o in c.owners && stack.Owner() == o {
        AddKeepsLinked(c, o, stack);
      }
    case RemoveStack(o, id) =>
      if o in c.owners {
        RemoveKeepsLinked(c, o, id);
      }
    case _ =>
  }

  ghost predicate OwnedAs(stacks: Stacks, ownerOf: StackID -> StackOwner) {
    forall id <- stacks :: stacks[id].Owner() == ownerOf(id)
  }

  predicate Agrees(op: Operation, ownerOf: StackID -> StackOwner) {
    op.InsertFirst? || op.AddStack? ==> op.stack.Owner() == ownerOf(op.stack.Id())
  }

  lemma {:induction false} StepKeepsOwners(c: Index, op: Operation, ownerOf: StackID -> StackOwner)
    requires OwnedAs(c.stacks, ownerOf) && Agrees(op, ownerOf)
    ensures OwnedAs(Step(c, op).stacks, ownerOf)
    ensures Adds(c, op) ==> KeepsOwner(c.stacks, op.stack)
  {
  }

  /** In every run in which a stack id always comes with the same owner, the maps stay linked. */
  lemma {:induction false} EveryRunLinked(c: Index, ops: seq<Operation>, ownerOf: StackID -> StackOwner)
    requires Linked(c.stacks, c.owners) && OwnedAs(c.stacks, ownerOf)
    requires forall op <- ops :: Agrees(op, ownerOf)
    ensures Linked(Run(c, ops).stacks, Run(c, ops).owners) && OwnedAs(Run(c, ops).stacks, ownerOf)
  {
    if ops != [] {
      var init, last := ops[..|ops| - 1], ops[|ops| - 1];
      EveryRunLinked(c, init, ownerOf);
      StepKeepsOwners(Run(c, init), last, ownerOf);
      StepKeepsLinked(Run(c, init), last);
    }
  }

  // ---- Revisions ----

  /** The operation takes the stack out of the collection. */
  predicate TakesOut(c: Index, op: Operation, id: StackID) {
    op.RemoveStack? && op.id == id && op.owner in c.owners && id in c.owners[op.owner].stacks
  }

  /** The definitions received under an id since it was last taken out. */
  function ReceivedSince(c: Index, ops: seq<Operation>, id: StackID): set<StackWithMetadata> {
    if ops == [] then if id in c.stacks then {c.stacks[id]} else {}
    else
      var init, last := ops[..|ops| - 1], ops[|ops| - 1];
      var before := ReceivedSince(c, init, id);
      if Adds(Run(c, init), last) && last.stack.Id() == id then before + {last.stack}
      else if TakesOut(Run(c, init), last, id) then {}
      else before
  }

  /** After every run a stack is held exactly when one was received under its id since it was last taken out, and the
      one held is one of those, with the highest revision. */
  lemma {:induction false} EveryRunHoldsNewest(c: Index, ops: seq<Operation>, id: StackID)
    ensures
      var stacks, received := Run(c, ops).stacks, ReceivedSince(c, ops, id);
      && (id in stacks <==> received != {})
      && (id in stacks ==> stacks[id] in received && forall r <- received :: r.revision <= stacks[id].revision)
  {
    if ops != [] {
      var init, last := ops[..|ops| - 1], ops[|ops| - 1];
      EveryRunHoldsNewest(c, init, id);
      var before := Run(c, init);
      if Adds(before, last) && last.stack.Id() == id {
        NewestAdded(before, last, id);
        assert last.stack in ReceivedSince(c, ops, id);
      } else {
        OtherOperations(before, last, id);
      }
    }
  }

  lemma {:induction false} NewestAdded(c: Index, op: Operation, id: StackID)
    requires Adds(c, op) && op.stack.Id() == id
    ensures id in Step(c, op).stacks
    ensures Step(c, op).stacks[id] ==
      if id in c.stacks && c.stacks[id].revision >= op.stack.revision then c.stacks[id] else op.stack
  {
  }

  lemma {:induction false} OtherOperations(c: Index, op: Operation, id: StackID)
    requires !(Adds(c, op) && op.stack.Id() == id)
    ensures TakesOut(c, op, id) ==> id !in Step(c, op).stacks
    ensures !TakesOut(c, op, id) ==> (id in Step(c, op).stacks <==> id in c.stacks)
    ensures !TakesOut(c, op, id) && id in c.stacks ==> Step(c, op).stacks[id] == c.stacks[id]
  {
  }

  // ---- Owner indexes ----

  /** Owners left behind in an index: an owner lingers in the state in which its last stack was removed, until
      it comes back in that state or is switched. */
  function LingerAfter(
    owners: Owners, lingering: set<(StackOwner, OwnerState)>, op: Operation): set<(StackOwner, OwnerState)>
  {
    var o := op.owner;
    match op
    case RemoveStack(_, id) =>
      if o in owners && owners[o].stacks == {id} then lingering + {(o, owners[o].state)} else lingering
    case InsertFirst(_, state, _) => if o in owners then lingering else lingering - {(o, state)}
    case MakeActive(_) =>
      if o in owners && owners[o].state.Inactive? then lingering - {(o, Active), (o, Inactive)} else lingering
    case MakeInactive(_) =>
      if o in owners && owners[o].state.Active? then lingering - {(o, Active), (o, Inactive)} else lingering
    case AddStack(_, _) => lingering
  }

  function Lingering(c: Index, ops: seq<Operation>): set<(StackOwner, OwnerState)> {
    if ops == [] then {}
    else LingerAfter(Run(c, ops[..|ops| - 1]).owners, Lingering(c, ops[..|ops| - 1]), ops[|ops| - 1])
  }

  /** The indexes hold the owners in each state and the lingering ones. */
  ghost predicate IndexedUpTo(c: Index, lingering: set<(StackOwner, OwnerState)>) {
    forall o, state ::
      && (o in c.For(state) <==> (o in c.owners && c.owners[o].state == state) || (o, state) in lingering)
      && !(o in c.owners && c.owners[o].state == state && (o, state) in lingering)
  }

  lemma {:induction false} RemovalIndexed(
    c: Index, lingering: set<(StackOwner, OwnerState)>, o: StackOwner, id: StackID)
    requires IndexedUpTo(c, lingering) && o in c.owners
    ensures IndexedUpTo(Removed(c, o, id), LingerAfter(c.owners, lingering, RemoveStack(o, id)))
  {
    var stacks := c.owners[o].stacks;
    assert id in stacks && stacks - {id} == {} <==> stacks == {id};
    var c', lingering' := Removed(c, o, id), LingerAfter(c.owners, lingering, RemoveStack(o, id));
    forall p, state
      ensures p in c'.For(state) <==> p in c.For(state)
      ensures (p in c'.owners && c'.owners[p].state == state) || (p, state) in lingering' <==>
        (p in c.owners && c.owners[p].state == state) || (p, state) in lingering
      ensures !(p in c'.owners && c'.owners[p].state == state && (p, state) in lingering')
    {
    }
  }

  lemma {:induction false} SwitchIndexed(
    c: Index, lingering: set<(StackOwner, OwnerState)>, o: StackOwner, state: OwnerState)
    requires IndexedUpTo(c, lingering) && o in c.owners && c.owners[o].state != state
    ensures IndexedUpTo(Switched(c, o, state), lingering - {(o, Active), (o, Inactive)})
  {
  }

  lemma {:induction false} OpeningIndexed(
    c: Index, lingering: set<(StackOwner, OwnerState)>, o: StackOwner, state: OwnerState)
    requires IndexedUpTo(c, lingering) && o !in c.owners
    ensures IndexedUpTo(Opened(c, o, state), lingering - {(o, state)})
  {
  }

  lemma {:induction false} AdditionIndexed(
    c: Index, lingering: set<(StackOwner, OwnerState)>, o: StackOwner, stack: StackWithMetadata)
    requires IndexedUpTo(c, lingering) && o in c.owners
    ensures IndexedUpTo(Added(c, o, stack), lingering)
  {
    var c' := Added(c, o, stack);
    assert c'.owners.Keys == c.owners.Keys && forall p <- c.owners :: c'.owners[p].state == c.owners[p].state;
    forall p, state
      ensures p in c'.For(state) <==> p in c.For(state)
    {
    }
  }

  lemma {:induction false} StepIndexed(c: Index, lingering: set<(StackOwner, OwnerState)>, op: Operation)
    requires IndexedUpTo(c, lingering)
    ensures IndexedUpTo(Step(c, op), LingerAfter(c.owners, lingering, op))
  {
    match op
    case MakeActive(o) =>
      if o in c.owners && c.owners[o].state.Inactive? {
        SwitchIndexed(c, lingering, o, Active);
      }
    case MakeInactive(o) =>
      if o in c.owners && c.owners[o].state.Active? {
        SwitchIndexed(c, lingering, o, Inactive);
      }
    case InsertFirst(o, state, stack) =>
      if o !in c.owners {
        OpeningIndexed(c, lingering, o, state);
        AdditionIndexed(Opened(c, o, state), lingering - {(o, state)}, o, stack);
      }
    case AddStack(o, stack) =>
      if o in c.owners {
        AdditionIndexed(c, lingering, o, stack);
      }
    case RemoveStack(o, id) =>
      if o in c.owners {
        RemovalIndexed(c, lingering, o, id);
      }
  }

  /** After every run, whoever owns what: each owner is in the index for its state, and what else is there is
      exactly what lingers. So the indexes are exact if and only if nothing lingers. */
  lemma {:induction false} EveryRunIndexed(c: Index, ops: seq<Operation>)
    requires Exact(c)
    ensures IndexedUpTo(Run(c, ops), Lingering(c, ops))
    ensures Exact(Run(c, ops)) <==> Lingering(c, ops) == {}
  {
    if ops != [] {
      EveryRunIndexed(c, ops[..|ops| - 1]);
      StepIndexed(Run(c, ops[..|ops| - 1]), Lingering(c, ops[..|ops| - 1]), ops[|ops| - 1]);
    }
    ExactIffNothingLingers(Run(c, ops), Lingering(c, ops));
  }

  lemma {:induction false} ExactIffNothingLingers(c: Index, lingering: set<(StackOwner, OwnerState)>)
    requires IndexedUpTo(c, lingering)
    ensures Exact(c) <==> lingering == {}
  {
    assert forall o :: (o in c.active <==> o in c.For(Active)) && (o in c.inactive <==> o in c.For(Inactive));
    if lingering != {} {
      var p :| p in lingering;
      assert p == (p.0, p.1) && p.0 in c.For(p.1);
    }
  }

  /** Until an owner's last stack is removed, nothing lingers. */
  lemma {:induction false} ExactUntilLastRemoval(c: Index, ops: seq<Operation>)
    requires Exact(c)
    requires forall i :: 0 <= i < |ops| && ops[i].RemoveStack? && ops[i].owner in Run(c, ops[..i]).owners ==>
      Run(c, ops[..i]).owners[ops[i].owner].stacks != {ops[i].id}
    ensures Lingering(c, ops) == {} && Exact(Run(c, ops))
  {
    if ops != [] {
      var init := ops[..|ops| - 1];
      assert forall i :: 0 <= i < |init| ==> init[..i] == ops[..i];
      ExactUntilLastRemoval(c, init);
    }
    EveryRunIndexed(c, ops);
  }

  // ---- Listing ----

  ghost predicate Distinct(list: seq<StackWithMetadata>) {
    forall i, j :: 0 <= i < j < |list| ==> list[i].Id() != list[j].Id()
  }

  /** Each of the given stacks once. */
  ghost predicate Lists(list: seq<StackWithMetadata>, stacks: Stacks, ids: set<StackID>) {
    && Distinct(list)
    && (forall s <- list :: s.Id() in ids && s.Id() in stacks && stacks[s.Id()] == s)
    && (forall id <- ids :: id in stacks && stacks[id] in list)
  }

  function Tagged(c: Index, owners: set<StackOwner>): set<StackID> {
    set id | id in c.stacks && c.stacks[id].Owner() in owners
  }

  function ActiveIds(c: Index): set<StackID> {
    set id | id in c.stacks && c.stacks[id].Owner() in c.owners && c.owners[c.stacks[id].Owner()].state.Active?
  }

  /** Walking the active index fails exactly when somebody who lingers there is gone, and lists exactly the
      stacks of active owners unless somebody who lingers there is back, inactive, with stacks. */
  lemma {:induction false} ActiveListing(c: Index, lingering: set<(StackOwner, OwnerState)>)
    requires Linked(c.stacks, c.owners) && IndexedUpTo(c, lingering)
    ensures c.active <= c.owners.Keys <==> forall o | (o, Active) in lingering :: o in c.owners
    ensures Tagged(c, c.active) == ActiveIds(c) <==>
      forall o | (o, Active) in lingering && o in c.owners :: c.owners[o].stacks == {}
  {
    assert forall o :: o in c.active <==> o in c.For(Active);
    forall o | (o, Active) in lingering && o in c.owners
      ensures c.owners[o].state.Inactive?
      ensures forall id <- c.owners[o].stacks :: id in Tagged(c, c.active) && id !in ActiveIds(c)
    {
      assert o in c.For(Active);
    }
    if forall o | (o, Active) in lingering && o in c.owners :: c.owners[o].stacks == {} {
      assert Tagged(c, c.active) == ActiveIds(c);
    }
  }

  /** One stack received and deleted is enough for the walk to fail; received again under an inactive owner, it
      is listed as active. */
  lemma {:induction false} LastRemovalLeavesStaleIndex(stack: StackWithMetadata)
    ensures
      var o, empty := stack.Owner(), Index(map[], map[], {}, {});
      var gone := Run(empty, [InsertFirst(o, Active, stack), RemoveStack(o, stack.Id())]);
      var back := Step(gone, InsertFirst(o, Inactive, stack));
      && !(gone.active <= gone.owners.Keys)
      && Tagged(back, back.active) == {stack.Id()} && ActiveIds(back) == {}
  {
    var o, empty := stack.Owner(), Index(map[], map[], {}, {});
    var first, second := InsertFirst(o, Active, stack), RemoveStack(o, stack.Id());
    assert [first, second][..1] == [first] && [first][..0] == [];
    assert Run(empty, [first]) == Step(empty, first);
    var one := Step(empty, first);
    assert one.owners[o].stacks - {stack.Id()} == {};
    var gone := Step(one, second);
    assert gone == Run(empty, [first, second]);
    assert o in gone.active && o !in gone.owners;
    var back := Step(gone, InsertFirst(o, Inactive, stack));
    assert back.stacks == map[stack.Id() := stack];
  }

  datatype Entry = Vacant | ActiveEntry(stack: StackWithMetadata) | InactiveEntry(stack: StackWithMetadata)

  datatype Known = Known(owner: StackOwner, state: OwnerState, stacks: seq<StackWithMetadata>)

  function Listed(known: seq<Known>): seq<StackWithMetadata> {
    if known == [] then [] else Listed(known[..|known| - 1]) + known[|known| - 1].stacks
  }

  ghost predicate DistinctOwners(known: seq<Known>) {
    forall i, j :: 0 <= i < j < |known| ==> known[i].owner != known[j].owner
  }

  function IdsOf(list: seq<StackWithMetadata>): set<StackID> {
    set s | s in list :: s.Id()
  }

  /** Every stack filed under its id. */
  ghost predicate Filed(list: seq<StackWithMetadata>, stacks: Stacks) {
    && (forall s <- list :: s.Id() in stacks && stacks[s.Id()] == s)
    && (forall id <- stacks :: stacks[id].Id() == id && stacks[id] in list)
  }

  lemma {:induction false} ListedMember(known: seq<Known>, s: StackWithMetadata)
    ensures s in Listed(known) <==> exists e <- known :: s in e.stacks
  {
    if known != [] {
      var init := known[..|known| - 1];
      ListedMember(init, s);
      assert known == init + [known[|known| - 1]];
    }
  }

  lemma {:induction false} ListedPrefix(known: seq<Known>, i: nat)
    requires i <= |known|
    ensures Listed(known[..i]) <= Listed(known)
  {
    if i < |known| {
      ListedPrefix(known[..|known| - 1], i);
      assert known[..|known| - 1][..i] == known[..i];
    } else {
      assert known[..i] == known;
    }
  }

  /** Owners as the entries give them. */
  ghost predicate Owned(known: seq<Known>, owners: Owners) {
    && (forall e <- known :: e.owner in owners && owners[e.owner] == OwnerData(e.state, IdsOf(e.stacks)))
    && (forall o <- owners :: exists e <- known :: e.owner == o)
  }

  lemma {:induction false} OwnedExtended(known: seq<Known>, i: nat, owners: Owners)
    requires DistinctOwners(known) && i < |known| && Owned(known[..i], owners)
    ensures known[i].owner !in owners
    ensures Owned(known[..i + 1], owners[known[i].owner := OwnerData(known[i].state, IdsOf(known[i].stacks))])
  {
    assert known[..i + 1] == known[..i] + [known[i]];
  }

  /** Maps filled from distinct entries are linked exactly when every stack is given under its own owner. */
  lemma {:induction false} LinkedIffOwnStacks(known: seq<Known>, stacks: Stacks, owners: Owners)
    requires Filed(Listed(known), stacks) && Owned(known, owners)
    ensures Linked(stacks, owners) <==> forall e, s | e in known && s in e.stacks :: s.Owner() == e.owner
  {
    forall s
      ensures s in Listed(known) <==> exists e <- known :: s in e.stacks
    {
      ListedMember(known, s);
    }
    forall e, s | e in known && s in e.stacks
      ensures s.Id() in owners[e.owner].stacks && s.Id() in stacks && stacks[s.Id()] == s
    {
      assert s in Listed(known);
    }
    if Linked(stacks, owners) {
      forall e, s | e in known && s in e.stacks
        ensures s.Owner() == e.owner
      {
        assert s.Id() in owners[e.owner].stacks;
      }
    }
    if forall e, s | e in known && s in e.stacks :: s.Owner() == e.owner {
      forall id | id in stacks
        ensures stacks[id].Owner() in owners && id in owners[stacks[id].Owner()].stacks
      {
        var e :| e in known && stacks[id] in e.stacks;
      }
      forall o, id | o in owners && id in owners[o].stacks
        ensures id in stacks && stacks[id].Owner() == o
      {
        var e :| e in known && e.owner == o;
        var s :| s in e.stacks && s.Id() == id;
      }
    }
  }

  lemma {:induction false} FiledExtended(done: seq<StackWithMetadata>, stacks: Stacks, stack: StackWithMetadata)
    requires Distinct(done) && Filed(done, stacks)
    ensures Distinct(done + [stack]) <==> stack.Id() !in stacks
    ensures stack.Id() !in stacks ==> Filed(done + [stack], stacks[stack.Id() := stack])
  {
    if stack.Id() in stacks {
      var k :| 0 <= k < |done| && done[k] == stacks[stack.Id()];
      assert (done + [stack])[k].Id() == (done + [stack])[|done|].Id();
    }
  }

  lemma {:induction false} DistinctPrefix(list: seq<StackWithMetadata>, n: nat)
    requires n <= |list|
    ensures Distinct(list) ==> Distinct(list[..n])
  {
  }

  /** One entry's stacks, filed one by one; false is the panic on a stack id that is already there. */
  method FileStacks(stacks: Stacks, list: seq<StackWithMetadata>, ghost before: seq<StackWithMetadata>)
    returns (ok: bool, stacks': Stacks, ids: set<StackID>)
    requires Distinct(before) && Filed(before, stacks)
    ensures ok <==> Distinct(before + list)
    ensures ok ==> Filed(before + list, stacks') && ids == IdsOf(list)
  {
    stacks', ids := stacks, {};
    assert before + list[..0] == before;
    for i := 0 to |list|
      invariant Distinct(before + list[..i]) && Filed(before + list[..i], stacks')
      invariant ids == IdsOf(list[..i])
    {
      var stack := list[i];
      ghost var done := before + list[..i];
      FiledExtended(done, stacks', stack);
      assert list[..i + 1] == list[..i] + [stack];
      assert before + list[..i + 1] == done + [stack];
      if stack.Id() in stacks' {
        assert (before + list)[..|done| + 1] == done + [stack];
        DistinctPrefix(before + list, |done| + 1);
        return false, stacks', ids;
      }
      stacks' := stacks'[stack.Id() := stack];
      ids := ids + {stack.Id()};
    }
    assert list[..|list|] == list;
    ok := true;
  }

  class StackCollection {
    var stacks: Stacks
    var owners: Owners
    var activeOwners: set<StackOwner>
    var inactiveOwners: set<StackOwner>

    ghost function Snapshot(): Index
      reads this
    {
      Index(stacks, owners, activeOwners, inactiveOwners)
    }

    constructor ()
      ensures Snapshot() == Index(map[], map[], {}, {})
      ensures Linked(stacks, owners) && Exact(Snapshot())
    {
      stacks, owners, activeOwners, inactiveOwners := map[], map[], {}, {};
    }

    /** One entry of `FromKnown`; false is its panic. */
    method FileEntry(e: Known, ghost before: seq<StackWithMetadata>) returns (ok: bool)
      requires Distinct(before) && Filed(before, stacks)
      modifies this
      ensures ok <==> Distinct(before + e.stacks)
      ensures ok ==> Filed(before + e.stacks, stacks)
      ensures ok ==> owners == old(owners)[e.owner := OwnerData(e.state, IdsOf(e.stacks))]
      ensures ok && old(Exact(Snapshot()) && e.owner !in owners) ==> Exact(Snapshot())
    {
      var filed, ids;
      ok, filed, ids := FileStacks(stacks, e.stacks, before);
      if ok {
        stacks := filed;
        owners := owners[e.owner := OwnerData(e.state, ids)];
        match e.state {
          case Active => activeOwners := activeOwners + {e.owner};
          case Inactive => inactiveOwners := inactiveOwners + {e.owner};
        }
      }
    }

    /** A known owner ends up in one index only, even if it lingered in the other. */
    method MakeInactive(o: StackOwner)
      modifies this`owners, this`activeOwners, this`inactiveOwners
      ensures Snapshot() == Step(old(Snapshot()), Operation.MakeInactive(o))
      ensures owners.Keys == old(owners.Keys) && forall p <- owners :: owners[p].stacks == old(owners)[p].stacks
      ensures o in owners ==> owners[o].state.Inactive?
      ensures o in owners && old(owners)[o].state.Active? ==> o in inactiveOwners && o !in activeOwners
      ensures old(Linked(stacks, owners)) ==> Linked(stacks, owners)
      ensures old(Exact(Snapshot())) ==> Exact(Snapshot())
    {
      if o in owners && owners[o].state.Active? {
        owners := owners[o := owners[o].(state := Inactive)];
        activeOwners := activeOwners - {o};
        inactiveOwners := inactiveOwners + {o};
      }
    }

    /** A known owner ends up in one index only, even if it lingered in the other. */
    method MakeActive(o: StackOwner)
      modifies this`owners, this`activeOwners, this`inactiveOwners
      ensures Snapshot() == Step(old(Snapshot()), Operation.MakeActive(o))
      ensures owners.Keys == old(owners.Keys) && forall p <- owners :: owners[p].stacks == old(owners)[p].stacks
      ensures o in owners ==> owners[o].state.Active?
      ensures o in owners && old(owners)[o].state.Inactive? ==> o in activeOwners && o !in inactiveOwners
      ensures old(Linked(stacks, owners)) ==> Linked(stacks, owners)
      ensures old(Exact(Snapshot())) ==> Exact(Snapshot())
    {
      if o in owners && owners[o].state.Inactive? {
        owners := owners[o := owners[o].(state := Active)];
        inactiveOwners := inactiveOwners - {o};
        activeOwners := activeOwners + {o};
      }
    }

    /** None is the panic on a stack of another owner. Otherwise: was the stack unknown, or newer than the
        known one? */
    method AddStack(o: StackOwner, stack: StackWithMetadata) returns (added: Option<bool>)
      requires o in owners
      modifies this`stacks, this`owners
      ensures Snapshot() == Step(old(Snapshot()), Operation.AddStack(o, stack))
      ensures added.None? <==> stack.Owner() != o
      ensures added == Some(true) <==>
        added.Some? && (stack.Id() in old(stacks) ==> old(stacks)[stack.Id()].revision < stack.revision)
    {
      var id := stack.Id();
      if stack.Owner() != o {
        return None;
      }
      if id in stacks {
        if stacks[id].revision >= stack.revision {
          return Some(false);
        }
        stacks := stacks[id := stack];
      } else {
        stacks := stacks[id := stack];
        owners := owners[o := owners[o].(stacks := owners[o].stacks + {id})];
      }
      return Some(true);
    }

    method InsertFirst(o: StackOwner, state: OwnerState, stack: StackWithMetadata) returns (ok: bool)
      requires o !in owners
      modifies this
      ensures Snapshot() == Step(old(Snapshot()), Operation.InsertFirst(o, state, stack))
      ensures ok <==> stack.Owner() == o
    {
      owners := owners[o := OwnerData(state, {})];
      match state {
        case Active => activeOwners := activeOwners + {o};
        case Inactive => inactiveOwners := inactiveOwners + {o};
      }
      var added := AddStack(o, stack);
      ok := added.Some?;
    }

    /** True only when the owner's last stack goes, and the owner with it. */
    method RemoveStack(o: StackOwner, id: StackID) returns (last: bool)
      requires o in owners
      modifies this`stacks, this`owners
      ensures Snapshot() == Step(old(Snapshot()), Operation.RemoveStack(o, id))
      ensures last <==> old(owners)[o].stacks == {id}
      ensures last <==> o !in owners
    {
      if id !in owners[o].stacks {
        return false;
      }
      var left := owners[o].stacks - {id};
      assert left == {} <==> owners[o].stacks == {id};
      stacks := stacks - {id};
      if left == {} {
        owners := owners - {o};
        return true;
      }
      owners := owners[o := owners[o].(stacks := left)];
      return false;
    }

    /** The owner lookup inside cannot fail. */
    method EntryOf(id: StackID) returns (e: Entry)
      requires Linked(stacks, owners)
      ensures e.Vacant? <==> id !in stacks
      ensures !e.Vacant? ==> e.stack == stacks[id]
      ensures e.ActiveEntry? <==> exists o <- owners :: owners[o].state.Active? && id in owners[o].stacks
      ensures e.InactiveEntry? <==> exists o <- owners :: owners[o].state.Inactive? && id in owners[o].stacks
    {
      if id !in stacks {
        return Vacant;
      }
      var o := stacks[id].Owner();
      match owners[o].state
      case Active => return ActiveEntry(stacks[id]);
      case Inactive => return InactiveEntry(stacks[id]);
    }

    /** An owner's stacks; no lookup can fail. */
    method OwnerStacks(o: StackOwner) returns (list: seq<StackWithMetadata>)
      requires Linked(stacks, owners) && o in owners
      ensures Lists(list, stacks, owners[o].stacks)
      ensures forall s <- list :: s.Owner() == o
    {
      list := [];
      var left := owners[o].stacks;
      while left != {}
        invariant left <= owners[o].stacks
        invariant Lists(list, stacks, owners[o].stacks - left)
        decreases left
      {
        var id :| id in left;
        assert stacks[id].Id() == id && stacks[id] !in list;
        left := left - {id};
        list := list + [stacks[id]];
      }
    }

    /** The stacks of the owners in an index; none when an owner lookup fails, which happens exactly when the
        index holds an owner that is gone. */
    method AllByOwners(index: set<StackOwner>) returns (list: Option<seq<StackWithMetadata>>)
      requires Linked(stacks, owners)
      ensures list.Some? <==> index <= owners.Keys
      ensures list.Some? ==> Lists(list.value, stacks, Tagged(Snapshot(), index))
    {
      var all := [];
      var left := index;
      while left != {}
        invariant left <= index && index - left <= owners.Keys
        invariant Lists(all, stacks, Tagged(Snapshot(), index - left))
        decreases left
      {
        var o :| o in left;
        if o !in owners {
          return None;
        }
        var list := OwnerStacks(o);
        left := left - {o};
        all := all + list;
      }
      assert index - left == index;
      return Some(all);
    }
  }

  /** Builds a collection, or panics when two stacks have the same id. With no owner listed twice (the callers
      iterate over a map), the indexes are exact, and everything is linked exactly when each stack is listed
      under its own owner, which is not checked. */
  method FromKnown(known: seq<Known>) returns (c: Option<StackCollection>)
    ensures c.None? <==> !Distinct(Listed(known))
    ensures c.Some? ==> fresh(c.value) && Filed(Listed(known), c.value.stacks)
    ensures c.Some? && DistinctOwners(known) ==> Owned(known, c.value.owners) && Exact(c.value.Snapshot())
    ensures c.Some? && DistinctOwners(known) ==>
      (Linked(c.value.stacks, c.value.owners) <==> forall e, s | e in known && s in e.stacks :: s.Owner() == e.owner)
  {
    var r := new StackCollection();
    for i := 0 to |known|
      invariant fresh(r)
      invariant Distinct(Listed(known[..i])) && Filed(Listed(known[..i]), r.stacks)
      invariant DistinctOwners(known) ==> Owned(known[..i], r.owners) && Exact(r.Snapshot())
    {
      ListedPrefix(known, i + 1);
      assert known[..i + 1][..i] == known[..i];
      if DistinctOwners(known) {
        OwnedExtended(known, i, r.owners);
      }
      var ok := r.FileEntry(known[i], Listed(known[..i]));
      if !ok {
        return None;
      }
    }
    assert known[..|known|] == known;
    if DistinctOwners(known) {
      LinkedIffOwnStacks(known, r.stacks, r.owners);
    }
    return Some(r);
  }
}
