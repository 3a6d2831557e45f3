/** The program's instructions carried out step by step on the accounts. An instruction that fails half way is
    rolled back by the chain. */
module Marketplace {
  import opened Ids
  import Billing
  import opened Ledger
  import opened LedgerHistory

  function Before(tokens: Tokens): Ledger {
    Ledger(tokens, None, {}, map[], map[], map[], map[], map[])
  }

  class Marketplace {
    var tokens: Tokens
    var state: Option<MuState>
    var authorizers: set<Address>
    var providers: map<Address, Provider>
    var regions: map<Address, Region>
    var stacks: map<Address, Stack>
    var signers: map<Address, UsageSigner>
    var updates: map<Address, Billing.ServiceUsage>

    ghost function Snapshot(): Ledger
      reads this
    {
      Ledger(tokens, state, authorizers, providers, regions, stacks, signers, updates)
    }

    /** Before the program is initialized there are only accounts of others. */
    constructor (tokens: Tokens)
      requires forall a <- tokens :: a.Key?
      ensures Snapshot() == Before(tokens) && Sound(Snapshot())
    {
      this.tokens := tokens;
      state, authorizers, providers, regions, stacks, signers, updates := None, {}, map[], map[], map[], map[], map[];
    }

    method MoveTokens(from: Address, to: Address, authority: Address, amount: nat) returns (ok: bool)
      modifies this`tokens
      ensures ok <==> Transfer(old(tokens), from, to, authority, amount).Some?
      ensures tokens == if ok then Transfer(old(tokens), from, to, authority, amount).value else old(tokens)
    {
      if from !in tokens || to !in tokens || tokens[from].mint != tokens[to].mint
        || tokens[from].authority != authority || tokens[from].amount < amount {
        return false;
      }
      if from != to {
        if tokens[to].amount + amount >= TWO_64 {
          return false;
        }
        tokens := tokens[from := tokens[from].(amount := tokens[from].amount - amount)];
        tokens := tokens[to := tokens[to].(amount := tokens[to].amount + amount)];
      }
      return true;
    }

    /** The provider's share and then the commission, both from the escrow; neither when one fails. */
    method PayBoth(escrow: Address, tokenAccount: Address, price: nat, commission: nat) returns (ok: bool)
      modifies this`tokens
      ensures ok <==> PayUsage(old(tokens), escrow, tokenAccount, price, commission).Some?
      ensures tokens == if ok then PayUsage(old(tokens), escrow, tokenAccount, price, commission).value else old(tokens)
    {
      if commission > price {
        return false;
      }
      var before := tokens;
      ok := MoveTokens(escrow, tokenAccount, StatePda, price - commission);
      if ok {
        ok := MoveTokens(escrow, CommissionPda, StatePda, commission);
        if !ok {
          tokens := before;
        }
      }
    }

    /** Prices the usage, splits the price, pays both parts from the escrow and records the update. */
    method UpdateUsage(
      signer: Address, region: Address, stack: Address, tokenAccount: Address, updateSeed: nat,
      usage: Billing.ServiceUsage)
      returns (ok: bool)
      modifies this`tokens, this`updates
      ensures
        var i := Instruction.UpdateUsage(signer, region, stack, tokenAccount, updateSeed, usage);
        var r := ApplyUpdateUsage(old(Snapshot()), i);
        ok == r.Some? && Snapshot() == if ok then r.value else old(Snapshot())
    {
      var pda := UpdatePda(stack, region, updateSeed);
      if state.None? || !signer.Key? || region !in regions || stack !in stacks || pda in updates {
        return false;
      }
      if SignerPda(region) !in signers || signers[SignerPda(region)] != UsageSigner(signer, tokenAccount)
        || stacks[stack].region != region {
        return false;
      }
      var usageTokens := Billing.CalcUsage(regions[region].rates, usage);
      if usageTokens.None? {
        return false;
      }
      var commissionTokens := Commission(usageTokens.value, state.value.commissionRateMicros);
      if commissionTokens.None? {
        return false;
      }
      var escrow := EscrowPda(stacks[stack].user, regions[region].provider);
      ok := PayBoth(escrow, tokenAccount, usageTokens.value, commissionTokens.value);
      if ok {
        updates := updates[pda := usage];
      }
    }

    method CreateProvider(owner: Address, ownerToken: Address, name: string) returns (ok: bool)
      modifies this`tokens, this`providers
      ensures Snapshot() == Exec(old(Snapshot()), Instruction.CreateProvider(owner, ownerToken, name))
      ensures ok <==> Apply(old(Snapshot()), Instruction.CreateProvider(owner, ownerToken, name)).Some?
    {
      if state.None? || !owner.Key? || ProviderPda(owner) in providers {
        return false;
      }
      ok := MoveTokens(ownerToken, DepositPda, owner, state.value.providerDeposit);
      if ok {
        providers := providers[ProviderPda(owner) := Provider(owner, false, name, state.value.providerDeposit)];
      }
    }

    method WithdrawEscrow(user: Address, provider: Address, to: Address, amount: U64) returns (ok: bool)
      modifies this`tokens
      ensures Snapshot() == Exec(old(Snapshot()), Instruction.WithdrawEscrow(user, provider, to, amount))
      ensures ok <==> Apply(old(Snapshot()), Instruction.WithdrawEscrow(user, provider, to, amount)).Some?
    {
      if state.None? || !user.Key? || provider !in providers {
        return false;
      }
      ok := MoveTokens(EscrowPda(user, provider), to, StatePda, amount);
    }

    method UpdateStack(user: Address, region: Address, seed: U64, data: Blob, name: string) returns (ok: bool)
      modifies this`stacks
      ensures Snapshot() == Exec(old(Snapshot()), Instruction.UpdateStack(user, region, seed, data, name))
      ensures ok <==> Apply(old(Snapshot()), Instruction.UpdateStack(user, region, seed, data, name)).Some?
    {
      var pda := StackPda(user, region, seed);
      if !user.Key? || region !in regions || pda !in stacks {
        return false;
      }
      match stacks[pda].state
      case Deleted => return false;
      case Active(revision, _, _) =>
        if revision + 1 >= 0x1_0000_0000 {
          return false;
        }
        stacks := stacks[pda := stacks[pda].(state := Active(revision + 1, name, data))];
        return true;
    }

    method DeleteStack(user: Address, region: Address, seed: U64) returns (ok: bool)
      modifies this`stacks
      ensures Snapshot() == Exec(old(Snapshot()), Instruction.DeleteStack(user, region, seed))
      ensures ok <==> Apply(old(Snapshot()), Instruction.DeleteStack(user, region, seed)).Some?
    {
      var pda := StackPda(user, region, seed);
      if !user.Key? || region !in regions || pda !in stacks || stacks[pda].state.Deleted? {
        return false;
      }
      stacks := stacks[pda := stacks[pda].(state := Deleted)];
      return true;
    }

    method Initialize(authority: Address, mint: Address, rate: U32, deposit: U64) returns (ok: bool)
      modifies this`tokens, this`state
      ensures Snapshot() == Exec(old(Snapshot()), Instruction.Initialize(authority, mint, rate, deposit))
      ensures ok <==> Apply(old(Snapshot()), Instruction.Initialize(authority, mint, rate, deposit)).Some?
    {
      if rate > MAX_RATE || state.Some? || !authority.Key? || DepositPda in tokens || CommissionPda in tokens {
        return false;
      }
      tokens := tokens[DepositPda := TokenAccount(mint, StatePda, 0)];
      tokens := tokens[CommissionPda := TokenAccount(mint, authority, 0)];
      state := Some(MuState(authority, mint, rate, deposit));
      return true;
    }

    method UpdateProviderDeposit(deposit: U64) returns (ok: bool)
      modifies this`state
      ensures Snapshot() == Exec(old(Snapshot()), Instruction.UpdateProviderDeposit(deposit))
      ensures ok <==> Apply(old(Snapshot()), Instruction.UpdateProviderDeposit(deposit)).Some?
    {
      if state.None? {
        return false;
      }
      state := Some(state.value.(providerDeposit := deposit));
      return true;
    }

    method CreateProviderAuthorizer(authority: Address, authorizer: Address) returns (ok: bool)
      modifies this`authorizers
      ensures Snapshot() == Exec(old(Snapshot()), Instruction.CreateProviderAuthorizer(authority, authorizer))
      ensures ok <==> Apply(old(Snapshot()), Instruction.CreateProviderAuthorizer(authority, authorizer)).Some?
    {
      if state.None? || state.value.authority != authority || !authorizer.Key?
        || AuthorizerPda(authorizer) in authorizers {
        return false;
      }
      authorizers := authorizers + {AuthorizerPda(authorizer)};
      return true;
    }

    method AuthorizeProvider(authorizer: Address, owner: Address) returns (ok: bool)
      modifies this`providers
      ensures Snapshot() == Exec(old(Snapshot()), Instruction.AuthorizeProvider(authorizer, owner))
      ensures ok <==> Apply(old(Snapshot()), Instruction.AuthorizeProvider(authorizer, owner)).Some?
    {
      if AuthorizerPda(authorizer) !in authorizers || ProviderPda(owner) !in providers {
        return false;
      }
      providers := providers[ProviderPda(owner) := providers[ProviderPda(owner)].(authorized := true)];
      return true;
    }

    method CreateRegion(owner: Address, provider: Address, num: U32, rates: Billing.ServiceRates) returns (ok: bool)
      modifies this`regions
      ensures Snapshot() == Exec(old(Snapshot()), Instruction.CreateRegion(owner, provider, num, rates))
      ensures ok <==> Apply(old(Snapshot()), Instruction.CreateRegion(owner, provider, num, rates)).Some?
    {
      if !owner.Key? || provider !in providers || providers[provider].owner != owner || !providers[provider].authorized
        || RegionPda(owner, num) in regions {
        return false;
      }
      regions := regions[RegionPda(owner, num) := Region(provider, rates)];
      return true;
    }

    method CreateStack(user: Address, provider: Address, region: Address, seed: U64, data: Blob, name: string)
      returns (ok: bool)
      modifies this`stacks
      ensures Snapshot() == Exec(old(Snapshot()), Instruction.CreateStack(user, provider, region, seed, data, name))
      ensures ok <==> Apply(old(Snapshot()), Instruction.CreateStack(user, provider, region, seed, data, name)).Some?
    {
      var pda := StackPda(user, region, seed);
      if !user.Key? || region !in regions || provider !in providers || !providers[provider].authorized
        || regions[region].provider != provider || pda in stacks {
        return false;
      }
      stacks := stacks[pda := Stack(user, region, seed, Active(1, name, data))];
      return true;
    }

    method CreateUsageSigner(
      owner: Address, provider: Address, region: Address, signer: Address, tokenAccount: Address) returns (ok: bool)
      modifies this`signers
      ensures
        var i := Instruction.CreateUsageSigner(owner, provider, region, signer, tokenAccount);
        Snapshot() == Exec(old(Snapshot()), i) && (ok <==> Apply(old(Snapshot()), i).Some?)
    {
      if provider !in providers || providers[provider].owner != owner || region !in regions
        || regions[region].provider != provider || SignerPda(region) in signers {
        return false;
      }
      signers := signers[SignerPda(region) := UsageSigner(signer, tokenAccount)];
      return true;
    }

    method CreateEscrow(user: Address, provider: Address) returns (ok: bool)
      modifies this`tokens
      ensures Snapshot() == Exec(old(Snapshot()), Instruction.CreateEscrow(user, provider))
      ensures ok <==> Apply(old(Snapshot()), Instruction.CreateEscrow(user, provider)).Some?
    {
      if state.None? || !user.Key? || provider !in providers || EscrowPda(user, provider) in tokens {
        return false;
      }
      tokens := tokens[EscrowPda(user, provider) := TokenAccount(state.value.mint, StatePda, 0)];
      return true;
    }

    // ---- The token program's own instructions ----

    method OpenTokenAccount(account: Address, mint: Address, authority: Address) returns (ok: bool)
      modifies this`tokens
      ensures Snapshot() == Exec(old(Snapshot()), Instruction.OpenTokenAccount(account, mint, authority))
      ensures ok <==> Apply(old(Snapshot()), Instruction.OpenTokenAccount(account, mint, authority)).Some?
    {
      if !account.Key? || account in tokens {
        return false;
      }
      tokens := tokens[account := TokenAccount(mint, authority, 0)];
      return true;
    }

    method TransferTokens(authority: Address, from: Address, to: Address, amount: U64) returns (ok: bool)
      modifies this`tokens
      ensures Snapshot() == Exec(old(Snapshot()), Instruction.TransferTokens(authority, from, to, amount))
      ensures ok <==> Apply(old(Snapshot()), Instruction.TransferTokens(authority, from, to, amount)).Some?
    {
      if !authority.Key? {
        return false;
      }
      ok := MoveTokens(from, to, authority, amount);
    }

    method SetAuthority(authority: Address, account: Address, newAuthority: Address) returns (ok: bool)
      modifies this`tokens
      ensures Snapshot() == Exec(old(Snapshot()), Instruction.SetAuthority(authority, account, newAuthority))
      ensures ok <==> Apply(old(Snapshot()), Instruction.SetAuthority(authority, account, newAuthority)).Some?
    {
      if !authority.Key? || account !in tokens || tokens[account].authority != authority {
        return false;
      }
      tokens := tokens[account := tokens[account].(authority := newAuthority)];
      return true;
    }

    /** Any instruction. Whatever it is, the object stays sound, no token of any mint appears or disappears, no
        recorded usage update is forgotten, and stacks only move forward. */
    method Execute(i: Instruction) returns (ok: bool)
      modifies this
      ensures Snapshot() == Exec(old(Snapshot()), i)
      ensures ok <==> Apply(old(Snapshot()), i).Some?
      ensures old(Sound(Snapshot())) ==> Sound(Snapshot())
      ensures forall mint :: Supply(tokens, mint) == old(Supply(tokens, mint))
      ensures old(updates.Keys) <= updates.Keys
      ensures StacksAdvance(old(stacks), stacks)
    {
      ghost var before := Snapshot();
      ok := Dispatch(i);
      forall mint
        ensures Supply(tokens, mint) == Supply(before.tokens, mint)
      {
        ExecConserves(before, i, mint);
      }
      if Sound(before) {
        ExecKeepsSound(before, i);
      }
      ExecKeepsUpdates(before, i);
      ExecAdvancesStacks(before, i);
    }

    method Dispatch(i: Instruction) returns (ok: bool)
      modifies this
      ensures Snapshot() == Exec(old(Snapshot()), i)
      ensures ok <==> Apply(old(Snapshot()), i).Some?
    {
      match i
      case Initialize(authority, mint, rate, deposit) => ok := Initialize(authority, mint, rate, deposit);
      case UpdateProviderDeposit(deposit) => ok := UpdateProviderDeposit(deposit);
      case CreateProviderAuthorizer(authority, authorizer) => ok := CreateProviderAuthorizer(authority, authorizer);
      case CreateProvider(owner, ownerToken, name) => ok := CreateProvider(owner, ownerToken, name);
      case AuthorizeProvider(authorizer, owner) => ok := AuthorizeProvider(authorizer, owner);
      case CreateRegion(owner, provider, num, rates) => ok := CreateRegion(owner, provider, num, rates);
      case CreateStack(user, provider, region, seed, data, name) =>
        ok := CreateStack(user, provider, region, seed, data, name);
      case UpdateStack(user, region, seed, data, name) => ok := UpdateStack(user, region, seed, data, name);
      case DeleteStack(user, region, seed) => ok := DeleteStack(user, region, seed);
      case CreateUsageSigner(owner, provider, region, signer, tokenAccount) =>
        ok := CreateUsageSigner(owner, provider, region, signer, tokenAccount);
      case CreateEscrow(user, provider) => ok := CreateEscrow(user, provider);
      case WithdrawEscrow(user, provider, to, amount) => ok := WithdrawEscrow(user, provider, to, amount);
      case UpdateUsage(signer, region, stack, tokenAccount, updateSeed, usage) =>
        ok := UpdateUsage(signer, region, stack, tokenAccount, updateSeed, usage);
      case OpenTokenAccount(account, mint, authority) => ok := OpenTokenAccount(account, mint, authority);
      case TransferTokens(authority, from, to, amount) => ok := TransferTokens(authority, from, to, amount);
      case SetAuthority(authority, account, newAuthority) => ok := SetAuthority(authority, account, newAuthority);
    }
  }

  predicate SameCharge(a: Instruction, b: Instruction) {
    a.UpdateUsage? && b.UpdateUsage? && a.stack == b.stack && a.region == b.region && a.updateSeed == b.updateSeed
  }

  /** The whole life of the program, from any token accounts of others and through any instructions: the object is
      what the ledger's run gives, sound, with every mint's supply unchanged, and of all usage updates for one
      stack, region and seed at most one succeeded. */
  method RunInstructions(tokens: Tokens, instructions: seq<Instruction>) returns (m: Marketplace, results: seq<bool>)
    requires forall a <- tokens :: a.Key?
    ensures fresh(m) && m.Snapshot() == Run(Before(tokens), instructions)
    ensures Sound(m.Snapshot()) && EscrowsHeld(m.Snapshot())
    ensures forall mint :: Supply(m.tokens, mint) == Supply(tokens, mint)
    ensures |results| == |instructions|
    ensures forall i :: 0 <= i < |instructions| ==> (results[i] <==> Succeeds(Before(tokens), instructions, i))
    ensures forall pda: Address :: StackAsTold(
      m.stacks, pda, Created(Before(tokens), instructions, pda), WasDeleted(Before(tokens), instructions, pda),
      UpdatesDone(Before(tokens), instructions, pda), LatestContent(Before(tokens), instructions, pda))
    ensures forall i, j :: 0 <= i < j < |instructions| && SameCharge(instructions[i], instructions[j]) ==>
      !(results[i] && results[j])
  {
    m := new Marketplace(tokens);
    results := [];
    for k := 0 to |instructions|
      invariant fresh(m) && m.Snapshot() == Run(Before(tokens), instructions[..k])
      invariant |results| == k
      invariant forall i :: 0 <= i < k ==> (results[i] <==> Succeeds(Before(tokens), instructions, i))
    {
      assert instructions[..k + 1][..k] == instructions[..k];
      var ok := m.Execute(instructions[k]);
      results := results + [ok];
    }
    assert instructions[..|instructions|] == instructions;
    LifeOf(tokens, instructions);
  }

  lemma {:induction false} LifeOf(tokens: Tokens, instructions: seq<Instruction>)
    requires forall a <- tokens :: a.Key?
    ensures Sound(Run(Before(tokens), instructions)) && EscrowsHeld(Run(Before(tokens), instructions))
    ensures forall pda: Address :: StackAsTold(
      Run(Before(tokens), instructions).stacks, pda, Created(Before(tokens), instructions, pda),
      WasDeleted(Before(tokens), instructions, pda), UpdatesDone(Before(tokens), instructions, pda),
      LatestContent(Before(tokens), instructions, pda))
    ensures forall mint :: Supply(Run(Before(tokens), instructions).tokens, mint) == Supply(tokens, mint)
    ensures forall i, j :: 0 <= i < j < |instructions| && SameCharge(instructions[i], instructions[j]) ==>
      !(Succeeds(Before(tokens), instructions, i) && Succeeds(Before(tokens), instructions, j))
  {
    RunKeepsSound(Before(tokens), instructions);
    RunKeepsEscrows(Before(tokens), instructions);
    forall pda: Address
      ensures StackAsTold(
        Run(Before(tokens), instructions).stacks, pda, Created(Before(tokens), instructions, pda),
        WasDeleted(Before(tokens), instructions, pda), UpdatesDone(Before(tokens), instructions, pda),
        LatestContent(Before(tokens), instructions, pda))
    {
      StackHistory(Before(tokens), instructions, pda);
    }
    forall mint
      ensures Supply(Run(Before(tokens), instructions).tokens, mint) == Supply(tokens, mint)
    {
      RunConserves(Before(tokens), instructions, mint);
    }
    forall i, j | 0 <= i < j < |instructions| && SameCharge(instructions[i], instructions[j])
      ensures !(Succeeds(Before(tokens), instructions, i) && Succeeds(Before(tokens), instructions, j))
    {
      OneOfTwoCharges(Before(tokens), instructions, i, j);
    }
  }

  lemma {:induction false} OneOfTwoCharges(l: Ledger, instructions: seq<Instruction>, i: nat, j: nat)
    requires i < j < |instructions| && SameCharge(instructions[i], instructions[j])
    ensures !(Succeeds(l, instructions, i) && Succeeds(l, instructions, j))
  {
    var at := Run(l, instructions[..i]);
    assert instructions[..i + 1][..i] == instructions[..i];
    assert instructions[..j] == instructions[..i + 1] + instructions[i + 1..j];
    RunConcat(l, instructions[..i + 1], instructions[i + 1..j]);
    if Succeeds(l, instructions, i) {
      ChargedAtMostOnce(at, instructions[i], instructions[i + 1..j], instructions[j]);
    }
  }
}
