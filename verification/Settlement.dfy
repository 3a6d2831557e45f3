/** From usage registered on a node to tokens leaving an escrow: what a user can be made to pay for a stack. */
module Settlement {
  import opened Ids
  import Billing
  import opened Ledger
  import LedgerHistory

  predicate Bills(i: Instruction, stack: Address, region: Address) {
    i.UpdateUsage? && i.stack == stack && i.region == region
  }

  /** What a usage update of the stack takes out of the escrow it is paid from. */
  function Debit(l: Ledger, i: Instruction, stack: Address, region: Address): int {
    if Bills(i, stack, region) && Apply(l, i).Some? then
      var escrow := EscrowPda(l.stacks[stack].user, l.regions[region].provider);
      Amount(l.tokens, escrow) - Amount(Exec(l, i).tokens, escrow)
    else 0
  }

  function TotalDebit(l: Ledger, instructions: seq<Instruction>, stack: Address, region: Address): int {
    if instructions == [] then 0
    else
      var init := instructions[..|instructions| - 1];
      TotalDebit(l, init, stack, region) + Debit(Run(l, init), instructions[|instructions| - 1], stack, region)
  }

  // ---- Every instruction ----

  lemma {:induction false} OthersKeepUpdates(l: Ledger, i: Instruction)
    requires !i.UpdateUsage?
    ensures Exec(l, i).updates == l.updates
  {
    if i.CreateStack? || i.UpdateStack? || i.DeleteStack? {
      assert Exec(l, i) == (if ApplyStack(l, i).Some? then ApplyStack(l, i).value else l);
    } else if i.CreateProvider? {
      assert Exec(l, i).updates == l.updates;
    }
  }

  lemma {:induction false} DebitAtMostTaken(l: Ledger, i: Instruction, stack: Address, region: Address)
    requires Sound(l) && Bills(i, stack, region) && Apply(l, i).Some?
    ensures region in l.regions
    ensures Debit(l, i, stack, region) <= Billing.Taken(l.regions[region].rates, i.usage)
    ensures UpdatePda(stack, region, i.updateSeed) !in l.updates
    ensures Exec(l, i).updates == l.updates[UpdatePda(stack, region, i.updateSeed) := i.usage]
  {
    UsagePayment(l, i, EscrowPda(l.stacks[stack].user, l.regions[region].provider));
  }

  // ---- Every run ----

  type Updates = map<Address, Billing.ServiceUsage>

  /** The updates of the stack recorded in `after` and not in `before`. */
  function NewUpdates(before: Updates, after: Updates, stack: Address, region: Address): Updates {
    map a | a in after && a !in before && IsUpdateOf(a, stack, region) :: after[a]
  }

  predicate IsUpdateOf(a: Address, stack: Address, region: Address) {
    a.UpdatePda? && a.stack == stack && a.region == region
  }

  /** What each of them took. */
  function ChargesFor(updates: Updates, rates: Billing.ServiceRates): map<Address, nat> {
    map a | a in updates :: Billing.Taken(rates, updates[a])
  }

  function NewCharges(before: Updates, after: Updates, rates: Billing.ServiceRates, stack: Address, region: Address)
    : map<Address, nat>
  {
    ChargesFor(NewUpdates(before, after, stack, region), rates)
  }

  lemma {:induction false} RunKeepsRegions(l: Ledger, instructions: seq<Instruction>, region: Address)
    requires region in l.regions
    ensures region in Run(l, instructions).regions && Run(l, instructions).regions[region] == l.regions[region]
  {
    if instructions != [] {
      RunKeepsRegions(l, instructions[..|instructions| - 1], region);
      LedgerHistory.ExecKeepsRegions(Run(l, instructions[..|instructions| - 1]), instructions[|instructions| - 1]);
    }
  }

  /** Over every run, what left escrows for a stack is at most what its newly recorded updates took, each counted
      once. */
  lemma {:induction false} DebitsAreRecorded(l: Ledger, instructions: seq<Instruction>, stack: Address, region: Address)
    requires Sound(l) && region in l.regions
    ensures TotalDebit(l, instructions, stack, region) <=
      Sum(NewCharges(l.updates, Run(l, instructions).updates, l.regions[region].rates, stack, region))
  {
    var rates := l.regions[region].rates;
    if instructions == [] {
      assert NewCharges(l.updates, l.updates, rates, stack, region) == map[];
    } else {
      var init, last := instructions[..|instructions| - 1], instructions[|instructions| - 1];
      var before, after := Run(l, init), Run(l, instructions);
      DebitsAreRecorded(l, init, stack, region);
      RunKeepsSound(l, init);
      RunKeepsRegions(l, init, region);
      UpdatesPersist(l, init);
      if last.UpdateUsage? && Apply(before, last).Some? {
        RecordedCharge(l, before, last, rates, stack, region);
      } else {
        NothingRecorded(before, last);
      }
    }
  }

  lemma {:induction false} NothingRecorded(l: Ledger, i: Instruction)
    requires !(i.UpdateUsage? && Apply(l, i).Some?)
    ensures Exec(l, i).updates == l.updates
  {
    if !i.UpdateUsage? {
      OthersKeepUpdates(l, i);
    }
  }

  lemma {:induction false} RecordedCharge(
    l: Ledger, before: Ledger, i: Instruction, rates: Billing.ServiceRates, stack: Address, region: Address)
    requires Sound(before) && i.UpdateUsage? && Apply(before, i).Some? && l.updates.Keys <= before.updates.Keys
    requires region in before.regions && before.regions[region].rates == rates
    ensures Sum(NewCharges(l.updates, Exec(before, i).updates, rates, stack, region)) >=
      Sum(NewCharges(l.updates, before.updates, rates, stack, region)) + Debit(before, i, stack, region)
  {
    var pda := UpdatePda(i.stack, i.region, i.updateSeed);
    DebitAtMostTaken(before, i, i.stack, i.region);
    ChargesExtended(l.updates, before.updates, pda, i.usage, rates, stack, region);
    if Bills(i, stack, region) {
      SumChanged(NewCharges(l.updates, before.updates, rates, stack, region), pda, Billing.Taken(rates, i.usage));
    }
  }

  lemma {:induction false} ChargesExtended(
    start: Updates, before: Updates, pda: Address, usage: Billing.ServiceUsage,
    rates: Billing.ServiceRates, stack: Address, region: Address)
    requires pda !in before && start.Keys <= before.Keys
    ensures
      var charges := NewCharges(start, before, rates, stack, region);
      && pda !in charges
      && NewCharges(start, before[pda := usage], rates, stack, region) ==
           if IsUpdateOf(pda, stack, region) then charges[pda := Billing.Taken(rates, usage)] else charges
  {
    UpdatesExtended(start, before, pda, usage, stack, region);
    ChargesForExtended(NewUpdates(start, before, stack, region), pda, usage, rates);
  }

  lemma {:induction false} UpdatesExtended(
    start: Updates, before: Updates, pda: Address, usage: Billing.ServiceUsage, stack: Address, region: Address)
    requires pda !in before && start.Keys <= before.Keys
    ensures
      var updates := NewUpdates(start, before, stack, region);
      && pda !in updates
      && NewUpdates(start, before[pda := usage], stack, region) ==
           if IsUpdateOf(pda, stack, region) then updates[pda := usage] else updates
  {
    var updates, extended := NewUpdates(start, before, stack, region),
      NewUpdates(start, before[pda := usage], stack, region);
    var expected := if IsUpdateOf(pda, stack, region) then updates[pda := usage] else updates;
    forall a
      ensures a in extended <==> a in expected
      ensures a in extended ==> extended[a] == expected[a]
    {
    }
  }

  lemma {:induction false} ChargesForExtended(
    updates: Updates, pda: Address, usage: Billing.ServiceUsage, rates: Billing.ServiceRates)
    ensures ChargesFor(updates[pda := usage], rates) == ChargesFor(updates, rates)[pda := Billing.Taken(rates, usage)]
    ensures ChargesFor(updates, rates).Keys == updates.Keys
  {
  }

  // ---- Reports ----

  /** Every usage update of the stack in the run is one of the reports, sent under that report's own seed, however
      often and in whatever order. */
  ghost predicate OnlyReports(
    instructions: seq<Instruction>, stack: Address, region: Address, seeds: seq<nat>,
    reports: seq<Billing.ServiceUsage>)
  {
    forall i <- instructions :: Bills(i, stack, region) ==>
      exists k :: 0 <= k < |seeds| && k < |reports| && i.updateSeed == seeds[k] && i.usage == reports[k]
  }

  /** A recorded charge and the report it was made for. */
  datatype Billed = Billed(seed: nat, taken: nat)

  function BilledBy(rates: Billing.ServiceRates, seeds: seq<nat>, reports: seq<Billing.ServiceUsage>): set<Billed>
    requires |seeds| == |reports|
  {
    set k | 0 <= k < |seeds| :: Billed(seeds[k], Billing.Taken(rates, reports[k]))
  }

  ghost predicate FromReports(charges: map<Address, nat>, stack: Address, region: Address, billed: set<Billed>) {
    forall a <- charges :: IsUpdateOf(a, stack, region) && Billed(a.updateSeed, charges[a]) in billed
  }

  /** Charges, each recorded once, add up to at most what all the reports take. */
  lemma {:induction false} SumOfReports(
    charges: map<Address, nat>, rates: Billing.ServiceRates, stack: Address, region: Address,
    seeds: seq<nat>, reports: seq<Billing.ServiceUsage>)
    requires |seeds| == |reports| && FromReports(charges, stack, region, BilledBy(rates, seeds, reports))
    ensures Sum(charges) <= Billing.TotalTaken(rates, reports)
    decreases |seeds|
  {
    if charges != map[] {
      var n := |seeds| - 1;
      assert n >= 0 by {
        var a :| a in charges;
        assert BilledBy(rates, seeds, reports) != {};
      }
      var a, taken := UpdatePda(stack, region, seeds[n]), Billing.Taken(rates, reports[n]);
      var rest := if a in charges && charges[a] == taken then charges - {a} else charges;
      LastReport(rates, seeds, reports);
      assert FromReports(rest, stack, region, BilledBy(rates, seeds[..n], reports[..n])) by {
        forall x | x in rest
          ensures Billed(x.updateSeed, rest[x]) in BilledBy(rates, seeds[..n], reports[..n])
        {
          assert x == UpdatePda(stack, region, x.updateSeed);
          assert Billed(x.updateSeed, rest[x]) != Billed(seeds[n], taken);
        }
      }
      SumOfReports(rest, rates, stack, region, seeds[..n], reports[..n]);
      if rest != charges {
        SumWithout(charges, a);
      }
    }
  }

  lemma {:induction false} LastReport(rates: Billing.ServiceRates, seeds: seq<nat>, reports: seq<Billing.ServiceUsage>)
    requires |seeds| == |reports| > 0
    ensures
      var n := |seeds| - 1;
      BilledBy(rates, seeds, reports) ==
        BilledBy(rates, seeds[..n], reports[..n]) + {Billed(seeds[n], Billing.Taken(rates, reports[n]))}
  {
    var n := |seeds| - 1;
    var all, fewer := BilledBy(rates, seeds, reports), BilledBy(rates, seeds[..n], reports[..n]);
    forall x | x in all
      ensures x in fewer + {Billed(seeds[n], Billing.Taken(rates, reports[n]))}
    {
      var k :| 0 <= k < |seeds| && x == Billed(seeds[k], Billing.Taken(rates, reports[k]));
      assert k < n ==> seeds[..n][k] == seeds[k] && reports[..n][k] == reports[k];
    }
    forall x | x in fewer
      ensures x in all
    {
      var k :| 0 <= k < n && x == Billed(seeds[..n][k], Billing.Taken(rates, reports[..n][k]));
      assert seeds[..n][k] == seeds[k] && reports[..n][k] == reports[k];
    }
  }

  /** What is newly recorded for the stack comes from the reports. */
  lemma {:induction false} RecordedAreReports(
    l: Ledger, instructions: seq<Instruction>, stack: Address, region: Address,
    seeds: seq<nat>, reports: seq<Billing.ServiceUsage>, a: Address)
    requires |seeds| == |reports| && OnlyReports(instructions, stack, region, seeds, reports)
    requires a in Run(l, instructions).updates && a !in l.updates
    requires IsUpdateOf(a, stack, region)
    ensures exists k ::
      0 <= k < |seeds| && a == UpdatePda(stack, region, seeds[k]) && Run(l, instructions).updates[a] == reports[k]
  {
    if instructions != [] {
      var init, last := instructions[..|instructions| - 1], instructions[|instructions| - 1];
      var before := Run(l, init);
      assert last in instructions && forall i <- init :: i in instructions;
      if last.UpdateUsage? && Apply(before, last).Some? {
        var pda := UpdatePda(last.stack, last.region, last.updateSeed);
        assert Exec(before, last).updates == before.updates[pda := last.usage];
        if a == pda {
          var k :| 0 <= k < |seeds| && last.updateSeed == seeds[k] && last.usage == reports[k];
        } else {
          RecordedAreReports(l, init, stack, region, seeds, reports, a);
        }
      } else {
        NothingRecorded(before, last);
        RecordedAreReports(l, init, stack, region, seeds, reports, a);
      }
    }
  }

  /** `id` is the stack's id on the node, `stack` its account on the chain. Whatever else happens on the chain, and
      however often a report is repeated: if the only usage updates for a
      stack are reports of its drains, each under the seed chosen for it, then no more tokens leave escrows for the
      stack than the price of everything drained. */
  lemma {:induction false} EscrowBound(
    l: Ledger, instructions: seq<Instruction>, stack: Address, region: Address,
    seeds: seq<nat>, drains: seq<Billing.Usages>, id: StackID)
    requires Sound(l) && region in l.regions && |seeds| == |drains|
    requires OnlyReports(instructions, stack, region, seeds, Billing.AllReported(drains, id))
    ensures TotalDebit(l, instructions, stack, region) <=
      Billing.Price(l.regions[region].rates, Billing.DrainedUsage(drains, id))
  {
    var rates, reports := l.regions[region].rates, Billing.AllReported(drains, id);
    var charges := NewCharges(l.updates, Run(l, instructions).updates, rates, stack, region);
    Billing.ReportedAt(drains, id);
    DebitsAreRecorded(l, instructions, stack, region);
    forall a | a in charges
      ensures Billed(a.updateSeed, charges[a]) in BilledBy(rates, seeds, reports)
    {
      RecordedAreReports(l, instructions, stack, region, seeds, reports, a);
    }
    SumOfReports(charges, rates, stack, region, seeds, reports);
    Billing.NeverOvercharged(rates, drains, id);
  }

  /** And no more than the price of everything ever registered for it on the node. */
  lemma {:induction false} RegisteredBound(
    l: Ledger, instructions: seq<Instruction>, stack: Address, region: Address, seeds: seq<nat>,
    events: seq<Billing.Event>, drains: seq<Billing.Usages>, pending: Billing.Usages, id: StackID)
    requires Sound(l) && region in l.regions && |seeds| == |drains|
    requires OnlyReports(instructions, stack, region, seeds, Billing.AllReported(drains, id))
    requires Billing.Accounted(events, drains, pending, id)
    ensures TotalDebit(l, instructions, stack, region) <=
      Billing.Price(l.regions[region].rates, Billing.RegisteredUsage(events, id))
  {
    EscrowBound(l, instructions, stack, region, seeds, drains, id);
    Billing.DrainedAtMostRegistered(events, drains, pending, id);
    Billing.PriceMonotone(l.regions[region].rates, Billing.DrainedUsage(drains, id),
      Billing.RegisteredUsage(events, id));
  }
}
