/** The ledger told from its history: what exists now is what the instructions that succeeded made of it. */
module LedgerHistory {
  import opened Ids
  import Billing
  import opened Ledger

  /** The `i`th instruction of a run succeeds. */
  predicate Succeeds(l: Ledger, instructions: seq<Instruction>, i: nat)
    requires i < |instructions|
  {
    Apply(Run(l, instructions[..i]), instructions[i]).Some?
  }

  predicate LastSucceeds(l: Ledger, instructions: seq<Instruction>)
    requires instructions != []
  {
    Apply(Run(l, instructions[..|instructions| - 1]), instructions[|instructions| - 1]).Some?
  }

  // ---- Stacks ----

  predicate IsAbout(i: Instruction, pda: Address) {
    (i.CreateStack? || i.UpdateStack? || i.DeleteStack?) && StackPda(i.user, i.region, i.seed) == pda
  }

  /** A creation of the stack succeeded. */
  predicate Created(l: Ledger, instructions: seq<Instruction>, pda: Address) {
    instructions != [] &&
    var init, last := instructions[..|instructions| - 1], instructions[|instructions| - 1];
    Created(l, init, pda) || (IsAbout(last, pda) && last.CreateStack? && LastSucceeds(l, instructions))
  }

  /** A deletion of the stack succeeded. */
  predicate WasDeleted(l: Ledger, instructions: seq<Instruction>, pda: Address) {
    instructions != [] &&
    var init, last := instructions[..|instructions| - 1], instructions[|instructions| - 1];
    WasDeleted(l, init, pda) || (IsAbout(last, pda) && last.DeleteStack? && LastSucceeds(l, instructions))
  }

  /** How many updates of the stack succeeded. */
  function UpdatesDone(l: Ledger, instructions: seq<Instruction>, pda: Address): nat {
    if instructions == [] then 0
    else
      var init, last := instructions[..|instructions| - 1], instructions[|instructions| - 1];
      UpdatesDone(l, init, pda)
      + if IsAbout(last, pda) && last.UpdateStack? && LastSucceeds(l, instructions) then 1 else 0
  }

  datatype Content = Content(name: string, data: Blob)

  /** What the latest successful creation or update brought. */
  function LatestContent(l: Ledger, instructions: seq<Instruction>, pda: Address): Content {
    if instructions == [] then Content("", [])
    else
      var init, last := instructions[..|instructions| - 1], instructions[|instructions| - 1];
      if IsAbout(last, pda) && (last.CreateStack? || last.UpdateStack?) && LastSucceeds(l, instructions)
      then Content(last.name, last.data) else LatestContent(l, init, pda)
  }

  /** An instruction changes no stack but the one it is about. */
  lemma {:induction false} OthersKeepStack(l: Ledger, i: Instruction, pda: Address)
    requires !(IsAbout(i, pda) && Apply(l, i).Some?)
    ensures pda in Exec(l, i).stacks <==> pda in l.stacks
    ensures pda in l.stacks ==> Exec(l, i).stacks[pda] == l.stacks[pda]
  {
    if i.CreateStack? || i.UpdateStack? || i.DeleteStack? {
      assert Exec(l, i) == (if ApplyStack(l, i).Some? then ApplyStack(l, i).value else l);
    } else {
      OtherInstructionsKeepStacks(l, i);
    }
  }

  /** The account of a stack is what this history says. */
  ghost predicate StackAsTold(
    stacks: map<Address, Stack>, pda: Address, created: bool, deleted: bool, updates: nat, content: Content)
  {
    && (pda in stacks <==> created)
    && (deleted ==> created)
    && (pda in stacks ==>
          && pda == StackPda(stacks[pda].user, stacks[pda].region, stacks[pda].seed)
          && (stacks[pda].state.Deleted? <==> deleted)
          && (!deleted ==>
                && 1 + updates < 0x1_0000_0000
                && stacks[pda].state == Active(1 + updates, content.name, content.data)))
  }

  /** After every run: a stack exists exactly when it was created, it is deleted exactly when a deletion succeeded, and
      otherwise its revision is one plus the number of its updates, and its content that of the latest one. */
  lemma {:induction false} StackHistory(l: Ledger, instructions: seq<Instruction>, pda: Address)
    requires pda !in l.stacks
    ensures StackAsTold(
      Run(l, instructions).stacks, pda, Created(l, instructions, pda), WasDeleted(l, instructions, pda),
      UpdatesDone(l, instructions, pda), LatestContent(l, instructions, pda))
    ensures !Created(l, instructions, pda) ==> UpdatesDone(l, instructions, pda) == 0
  {
    if instructions != [] {
      var init, last := instructions[..|instructions| - 1], instructions[|instructions| - 1];
      StackHistory(l, init, pda);
      if IsAbout(last, pda) && LastSucceeds(l, instructions) {
        StackStep(Run(l, init), last, pda);
      } else {
        OthersKeepStack(Run(l, init), last, pda);
      }
    }
  }

  /** What a successful instruction does to its stack. */
  lemma {:induction false} StackStep(l: Ledger, i: Instruction, pda: Address)
    requires IsAbout(i, pda) && Apply(l, i).Some?
    ensures pda in Exec(l, i).stacks
    ensures i.CreateStack? ==>
      pda !in l.stacks && Exec(l, i).stacks[pda] == Stack(i.user, i.region, i.seed, Active(1, i.name, i.data))
    ensures !i.CreateStack? ==> pda in l.stacks && l.stacks[pda].state.Active?
    ensures i.DeleteStack? ==> Exec(l, i).stacks[pda] == l.stacks[pda].(state := Deleted)
    ensures i.UpdateStack? ==>
      && l.stacks[pda].state.revision + 1 < 0x1_0000_0000
      && Exec(l, i).stacks[pda] == l.stacks[pda].(state := Active(l.stacks[pda].state.revision + 1, i.name, i.data))
  {
    assert Exec(l, i) == ApplyStack(l, i).value;
  }

  // ---- Which instructions succeed ----

  /** Every stack belongs to a user and a region that exist. */
  ghost predicate Founded(l: Ledger) {
    forall a <- l.stacks :: l.stacks[a].user.Key? && l.stacks[a].region in l.regions
  }

  /** Regions are never removed or changed. */
  lemma {:induction false} ExecKeepsRegions(l: Ledger, i: Instruction)
    ensures forall a <- l.regions :: a in Exec(l, i).regions && Exec(l, i).regions[a] == l.regions[a]
  {
    if i.UpdateUsage? {
      assert Exec(l, i) == (if ApplyUpdateUsage(l, i).Some? then ApplyUpdateUsage(l, i).value else l);
    } else if i.CreateStack? || i.UpdateStack? || i.DeleteStack? {
      assert Exec(l, i) == (if ApplyStack(l, i).Some? then ApplyStack(l, i).value else l);
    } else if i.CreateProvider? {
      assert Exec(l, i).regions == l.regions;
    }
  }

  lemma {:induction false} ExecKeepsFounded(l: Ledger, i: Instruction)
    requires Founded(l)
    ensures Founded(Exec(l, i))
  {
    ExecKeepsRegions(l, i);
    if i.CreateStack? || i.UpdateStack? || i.DeleteStack? {
      assert Exec(l, i) == (if ApplyStack(l, i).Some? then ApplyStack(l, i).value else l);
    } else {
      OtherInstructionsKeepStacks(l, i);
    }
  }

  lemma {:induction false} RunFounded(l: Ledger, instructions: seq<Instruction>)
    requires Founded(l)
    ensures Founded(Run(l, instructions))
  {
    if instructions != [] {
      RunFounded(l, instructions[..|instructions| - 1]);
      ExecKeepsFounded(Run(l, instructions[..|instructions| - 1]), instructions[|instructions| - 1]);
    }
  }

  /** After every run: the user can delete a stack exactly when it was created and not yet deleted, and can update it
      unless its revision has run out. */
  lemma {:induction false} StackInstructionsSucceedIff(
    l: Ledger, instructions: seq<Instruction>, user: Address, region: Address, seed: U64, data: Blob, name: string)
    requires l.stacks == map[]
    ensures
      var pda, now := StackPda(user, region, seed), Run(l, instructions);
      var active := Created(l, instructions, pda) && !WasDeleted(l, instructions, pda);
      && (Apply(now, DeleteStack(user, region, seed)).Some? <==> active)
      && (Apply(now, UpdateStack(user, region, seed, data, name)).Some? <==>
            active && UpdatesDone(l, instructions, pda) < 0xFFFF_FFFE)
  {
    var pda := StackPda(user, region, seed);
    StackHistory(l, instructions, pda);
    RunFounded(l, instructions);
  }

  /** And a stack can be created exactly once, in a region of an authorized provider. */
  lemma {:induction false} CreationSucceedsIff(
    l: Ledger, instructions: seq<Instruction>, user: Address, provider: Address, region: Address, seed: U64, data: Blob,
    name: string)
    requires l.stacks == map[]
    ensures
      var now := Run(l, instructions);
      Apply(now, CreateStack(user, provider, region, seed, data, name)).Some? <==>
        && !Created(l, instructions, StackPda(user, region, seed)) && user.Key?
        && region in now.regions && now.regions[region].provider == provider
        && provider in now.providers && now.providers[provider].authorized
  {
    StackHistory(l, instructions, StackPda(user, region, seed));
  }

  // ---- Settings and permissions ----

  /** What a successful instruction other than on stacks proves about who sent it and what it leaves. */
  lemma {:induction false} Permissions(l: Ledger, i: Instruction)
    requires Apply(l, i).Some?
    ensures i.Initialize? ==> l.state.None? && i.rate <= 1_000_000
    ensures i.Initialize? ==> Exec(l, i).state == Some(MuState(i.authority, i.mint, i.rate, i.deposit))
    ensures i.CreateProviderAuthorizer? ==>
      l.state.Some? && i.authority == l.state.value.authority && AuthorizerPda(i.authorizer) in Exec(l, i).authorizers
    ensures i.AuthorizeProvider? ==>
      && AuthorizerPda(i.authorizer) in l.authorizers && ProviderPda(i.owner) in Exec(l, i).providers
      && Exec(l, i).providers[ProviderPda(i.owner)].authorized
    ensures i.CreateRegion? ==>
      && i.provider in l.providers && l.providers[i.provider].owner == i.owner && l.providers[i.provider].authorized
      && RegionPda(i.owner, i.num) !in l.regions && RegionPda(i.owner, i.num) in Exec(l, i).regions
      && Exec(l, i).regions[RegionPda(i.owner, i.num)] == Region(i.provider, i.rates)
    ensures i.CreateUsageSigner? ==>
      && i.provider in l.providers && l.providers[i.provider].owner == i.owner
      && i.region in l.regions && l.regions[i.region].provider == i.provider
      && SignerPda(i.region) !in l.signers && SignerPda(i.region) in Exec(l, i).signers
      && Exec(l, i).signers[SignerPda(i.region)] == UsageSigner(i.signer, i.tokenAccount)
  {
  }

  predicate IsAuthorized(l: Ledger, provider: Address) {
    provider in l.providers && l.providers[provider].authorized
  }

  /** Nobody becomes an authorizer, and no setting changes, in any other way. */
  lemma {:induction false} OnlyByPermission(l: Ledger, i: Instruction, a: Address)
    ensures Exec(l, i).state != l.state ==> Apply(l, i).Some? && (i.Initialize? || i.UpdateProviderDeposit?)
    ensures l.state.Some? ==>
      && Exec(l, i).state.Some?
      && Exec(l, i).state.value == l.state.value.(providerDeposit := Exec(l, i).state.value.providerDeposit)
    ensures a in Exec(l, i).authorizers && a !in l.authorizers ==>
      Apply(l, i).Some? && i.CreateProviderAuthorizer? && a == AuthorizerPda(i.authorizer)
  {
    if i.UpdateUsage? {
      assert Exec(l, i) == (if ApplyUpdateUsage(l, i).Some? then ApplyUpdateUsage(l, i).value else l);
    } else if i.CreateStack? || i.UpdateStack? || i.DeleteStack? {
      assert Exec(l, i) == (if ApplyStack(l, i).Some? then ApplyStack(l, i).value else l);
    } else if i.CreateProvider? {
      assert Exec(l, i).state == l.state && Exec(l, i).authorizers == l.authorizers;
    }
  }

  lemma {:induction false} OthersKeepProviders(l: Ledger, i: Instruction)
    requires !i.CreateProvider? && !i.AuthorizeProvider?
    ensures Exec(l, i).providers == l.providers
  {
    if i.UpdateUsage? {
      assert Exec(l, i) == (if ApplyUpdateUsage(l, i).Some? then ApplyUpdateUsage(l, i).value else l);
    } else if i.CreateStack? || i.UpdateStack? || i.DeleteStack? {
      assert Exec(l, i) == (if ApplyStack(l, i).Some? then ApplyStack(l, i).value else l);
    }
  }

  lemma {:induction false} OthersKeepSigners(l: Ledger, i: Instruction)
    requires !i.CreateUsageSigner?
    ensures Exec(l, i).signers == l.signers
  {
    if i.UpdateUsage? {
      assert Exec(l, i) == (if ApplyUpdateUsage(l, i).Some? then ApplyUpdateUsage(l, i).value else l);
    } else if i.CreateStack? || i.UpdateStack? || i.DeleteStack? {
      assert Exec(l, i) == (if ApplyStack(l, i).Some? then ApplyStack(l, i).value else l);
    } else if i.CreateProvider? {
      assert Exec(l, i) ==
        (if ApplyCreateProvider(l, i.owner, i.ownerToken, i.name).Some?
         then ApplyCreateProvider(l, i.owner, i.ownerToken, i.name).value else l);
    }
  }

  /** Nor does anybody become an authorized provider or an authorized signer in any other way. */
  lemma {:induction false} AuthorizedOnlyByPermission(l: Ledger, i: Instruction, a: Address)
    ensures IsAuthorized(Exec(l, i), a) && !IsAuthorized(l, a) ==>
      Apply(l, i).Some? && i.AuthorizeProvider? && a == ProviderPda(i.owner)
    ensures a in Exec(l, i).signers && a !in l.signers ==>
      Apply(l, i).Some? && i.CreateUsageSigner? && a == SignerPda(i.region)
    ensures a in l.signers ==> a in Exec(l, i).signers && Exec(l, i).signers[a] == l.signers[a]
  {
    if !i.CreateProvider? && !i.AuthorizeProvider? {
      OthersKeepProviders(l, i);
    }
    if !i.CreateUsageSigner? {
      OthersKeepSigners(l, i);
    }
  }

  /** Setting things up: which instructions succeed. */
  lemma {:induction false} SetupSucceedsIff(l: Ledger, i: Instruction)
    ensures i.Initialize? ==> (Apply(l, i).Some? <==>
      l.state.None? && i.authority.Key? && i.rate <= 1_000_000 && DepositPda !in l.tokens && CommissionPda !in l.tokens)
    ensures i.UpdateProviderDeposit? ==> (Apply(l, i).Some? <==> l.state.Some?)
    ensures i.CreateProviderAuthorizer? ==> (Apply(l, i).Some? <==>
      && l.state.Some? && l.state.value.authority == i.authority && i.authorizer.Key?
      && AuthorizerPda(i.authorizer) !in l.authorizers)
    ensures i.AuthorizeProvider? ==> (Apply(l, i).Some? <==>
      AuthorizerPda(i.authorizer) in l.authorizers && ProviderPda(i.owner) in l.providers)
    ensures i.CreateRegion? ==> (Apply(l, i).Some? <==>
      && i.owner.Key? && IsAuthorized(l, i.provider) && l.providers[i.provider].owner == i.owner
      && RegionPda(i.owner, i.num) !in l.regions)
    ensures i.CreateUsageSigner? ==> (Apply(l, i).Some? <==>
      && i.provider in l.providers && l.providers[i.provider].owner == i.owner
      && i.region in l.regions && l.regions[i.region].provider == i.provider && SignerPda(i.region) !in l.signers)
    ensures i.CreateEscrow? ==> (Apply(l, i).Some? <==>
      l.state.Some? && i.user.Key? && i.provider in l.providers && EscrowPda(i.user, i.provider) !in l.tokens)
  {
  }

  /** A provider comes into being unauthorized, and pays the deposit that is recorded for it. */
  lemma {:induction false} ProviderPays(l: Ledger, i: Instruction, a: Address)
    requires i.CreateProvider? && Apply(l, i).Some?
    ensures l.state.Some? && ProviderPda(i.owner) !in l.providers && ProviderPda(i.owner) in Exec(l, i).providers
    ensures
      var deposit := l.state.value.providerDeposit;
      && Exec(l, i).providers[ProviderPda(i.owner)] == Provider(i.owner, false, i.name, deposit)
      && Amount(Exec(l, i).tokens, a) ==
        Amount(l.tokens, a) - (if a == i.ownerToken then deposit else 0) + (if a == DepositPda then deposit else 0)
  {
    TransferMoves(l.tokens, i.ownerToken, DepositPda, i.owner, l.state.value.providerDeposit, a);
  }

  /** A withdrawal moves exactly its amount. */
  lemma {:induction false} WithdrawalMoves(l: Ledger, i: Instruction, a: Address)
    requires i.WithdrawEscrow? && Apply(l, i).Some?
    ensures Amount(Exec(l, i).tokens, a) == Amount(l.tokens, a)
      - (if a == EscrowPda(i.user, i.provider) then i.amount else 0) + (if a == i.to then i.amount else 0)
  {
    TransferMoves(l.tokens, EscrowPda(i.user, i.provider), i.to, StatePda, i.amount, a);
  }

  // ---- Escrows ----

  /** Every escrow is an account of the program's mint that only the program can debit, for a known provider. */
  ghost predicate EscrowsHeld(l: Ledger) {
    forall a <- l.tokens :: a.EscrowPda? ==>
      && l.state.Some? && l.tokens[a].authority == StatePda && l.tokens[a].mint == l.state.value.mint
      && a.user.Key? && a.provider in l.providers
  }

  /** A transfer moves amounts and nothing else. */
  lemma {:induction false} TransferKeepsShape(
    t: Tokens, from: Address, to: Address, authority: Address, amount: nat, a: Address)
    requires Transfer(t, from, to, authority, amount).Some?
    ensures
      var t' := Transfer(t, from, to, authority, amount).value;
      && (a in t' <==> a in t)
      && (a in t ==> t'[a].authority == t[a].authority && t'[a].mint == t[a].mint)
  {
  }

  lemma {:induction false} PaymentKeepsShape(
    t: Tokens, escrow: Address, tokenAccount: Address, price: nat, commission: nat, a: Address)
    requires PayUsage(t, escrow, tokenAccount, price, commission).Some?
    ensures
      var t' := PayUsage(t, escrow, tokenAccount, price, commission).value;
      && (a in t' <==> a in t)
      && (a in t ==> t'[a].authority == t[a].authority && t'[a].mint == t[a].mint)
      && (a in t && a != escrow ==> t'[a].amount >= t[a].amount)
  {
    TransferKeepsShape(t, escrow, tokenAccount, StatePda, price - commission, a);
    TransferMoves(t, escrow, tokenAccount, StatePda, price - commission, a);
    var paid := Transfer(t, escrow, tokenAccount, StatePda, price - commission).value;
    TransferKeepsShape(paid, escrow, CommissionPda, StatePda, commission, a);
    TransferMoves(paid, escrow, CommissionPda, StatePda, commission, a);
  }

  /** Who may make an escrow fall: its user by withdrawing, or the authorized signer of a region by an update of a
      stack of that user, where the region is the provider's. */
  predicate MayDebit(l: Ledger, i: Instruction, escrow: Address) {
    || (i.WithdrawEscrow? && escrow == EscrowPda(i.user, i.provider))
    || (i.UpdateUsage? && i.stack in l.stacks && i.region in l.regions && l.stacks[i.stack].region == i.region
        && escrow == EscrowPda(l.stacks[i.stack].user, l.regions[i.region].provider)
        && SignerPda(i.region) in l.signers && l.signers[SignerPda(i.region)].signer == i.signer)
  }

  /** One instruction: an escrow stays what it is, and falls only if its user or an authorized signer says so. */
  lemma {:induction false} EscrowStep(l: Ledger, i: Instruction, a: Address)
    requires EscrowsHeld(l) && a.EscrowPda? && a in l.tokens
    ensures a in Exec(l, i).tokens
    ensures Exec(l, i).tokens[a].authority == l.tokens[a].authority && Exec(l, i).tokens[a].mint == l.tokens[a].mint
    ensures Exec(l, i).tokens[a].amount < l.tokens[a].amount ==> MayDebit(l, i, a)
  {
    if !TouchesTokens(i) {
      OthersKeepTokens(l, i);
    } else if Apply(l, i).Some? {
      match i
      case CreateProvider(owner, ownerToken, _) =>
        EscrowUnderTransfer(l.tokens, ownerToken, DepositPda, owner, l.state.value.providerDeposit, a);
      case WithdrawEscrow(user, provider, to, amount) =>
        EscrowUnderTransfer(l.tokens, EscrowPda(user, provider), to, StatePda, amount, a);
      case UpdateUsage(_, _, _, _, _, _) => EscrowUnderUpdate(l, i, a);
      case TransferTokens(authority, from, to, amount) =>
        EscrowUnderTransfer(l.tokens, from, to, authority, amount, a);
      case _ =>
    }
  }

  lemma {:induction false} EscrowUnderTransfer(
    t: Tokens, from: Address, to: Address, authority: Address, amount: nat, a: Address)
    requires Transfer(t, from, to, authority, amount).Some? && a in t && t[a].authority == StatePda
    ensures
      var t' := Transfer(t, from, to, authority, amount).value;
      && a in t' && t'[a].authority == t[a].authority && t'[a].mint == t[a].mint
      && (t'[a].amount < t[a].amount ==> a == from && authority == StatePda)
  {
    TransferKeepsShape(t, from, to, authority, amount, a);
    TransferMoves(t, from, to, authority, amount, a);
  }

  lemma {:induction false} EscrowUnderUpdate(l: Ledger, i: Instruction, a: Address)
    requires i.UpdateUsage? && ApplyUpdateUsage(l, i).Some? && a in l.tokens
    ensures
      var t' := ApplyUpdateUsage(l, i).value.tokens;
      && a in t' && t'[a].authority == l.tokens[a].authority && t'[a].mint == l.tokens[a].mint
      && (t'[a].amount < l.tokens[a].amount ==> MayDebit(l, i, a))
  {
    var price := Billing.CalcUsage(l.regions[i.region].rates, i.usage).value;
    var commission := Commission(price, l.state.value.commissionRateMicros).value;
    var escrow := EscrowPda(l.stacks[i.stack].user, l.regions[i.region].provider);
    PaymentKeepsShape(l.tokens, escrow, i.tokenAccount, price, commission, a);
  }

  lemma {:induction false} ProvidersStay(l: Ledger, i: Instruction)
    ensures l.providers.Keys <= Exec(l, i).providers.Keys
    ensures l.state.Some? ==> Exec(l, i).state.Some? && Exec(l, i).state.value.mint == l.state.value.mint
  {
    OnlyByPermission(l, i, StatePda);
    if i.UpdateUsage? {
      assert Exec(l, i) == (if ApplyUpdateUsage(l, i).Some? then ApplyUpdateUsage(l, i).value else l);
    } else if i.CreateStack? || i.UpdateStack? || i.DeleteStack? {
      assert Exec(l, i) == (if ApplyStack(l, i).Some? then ApplyStack(l, i).value else l);
    } else if i.CreateProvider? {
      assert Exec(l, i) ==
        (if ApplyCreateProvider(l, i.owner, i.ownerToken, i.name).Some?
         then ApplyCreateProvider(l, i.owner, i.ownerToken, i.name).value else l);
    }
  }

  lemma {:induction false} NewEscrow(l: Ledger, i: Instruction, a: Address)
    requires a.EscrowPda? && a !in l.tokens && a in Exec(l, i).tokens
    ensures
      && i.CreateEscrow? && a == EscrowPda(i.user, i.provider) && l.state.Some? && i.user.Key?
      && i.provider in l.providers && Exec(l, i).tokens[a] == TokenAccount(l.state.value.mint, StatePda, 0)
  {
    if !TouchesTokens(i) {
      OthersKeepTokens(l, i);
    } else if Apply(l, i).Some? {
      match i
      case CreateProvider(owner, ownerToken, _) =>
        TransferKeepsShape(l.tokens, ownerToken, DepositPda, owner, l.state.value.providerDeposit, a);
      case WithdrawEscrow(user, provider, to, amount) =>
        TransferKeepsShape(l.tokens, EscrowPda(user, provider), to, StatePda, amount, a);
      case UpdateUsage(_, _, _, _, _, _) =>
        var price := Billing.CalcUsage(l.regions[i.region].rates, i.usage).value;
        var commission := Commission(price, l.state.value.commissionRateMicros).value;
        var escrow := EscrowPda(l.stacks[i.stack].user, l.regions[i.region].provider);
        PaymentKeepsShape(l.tokens, escrow, i.tokenAccount, price, commission, a);
      case TransferTokens(authority, from, to, amount) =>
        TransferKeepsShape(l.tokens, from, to, authority, amount, a);
      case _ =>
    }
  }

  lemma {:induction false} ExecKeepsEscrows(l: Ledger, i: Instruction)
    requires EscrowsHeld(l)
    ensures EscrowsHeld(Exec(l, i))
  {
    ProvidersStay(l, i);
    forall a | a in Exec(l, i).tokens && a.EscrowPda?
      ensures
        && Exec(l, i).state.Some? && Exec(l, i).tokens[a].authority == StatePda
        && Exec(l, i).tokens[a].mint == Exec(l, i).state.value.mint && a.user.Key? && a.provider in Exec(l, i).providers
    {
      if a in l.tokens {
        EscrowStep(l, i, a);
      } else {
        NewEscrow(l, i, a);
      }
    }
  }

  lemma {:induction false} RunKeepsEscrows(l: Ledger, instructions: seq<Instruction>)
    requires EscrowsHeld(l)
    ensures EscrowsHeld(Run(l, instructions))
  {
    if instructions != [] {
      RunKeepsEscrows(l, instructions[..|instructions| - 1]);
      ExecKeepsEscrows(Run(l, instructions[..|instructions| - 1]), instructions[|instructions| - 1]);
    }
  }

  /** Over every run, wherever an escrow holds less after an instruction than before it, the instruction is a
      withdrawal by the escrow's user or an update signed by the region's authorized signer. */
  lemma {:induction false} EscrowFallsOnlyWithPermission(
    l: Ledger, instructions: seq<Instruction>, k: nat, user: Address, provider: Address)
    requires EscrowsHeld(l) && k < |instructions|
    requires EscrowPda(user, provider) in Run(l, instructions[..k]).tokens
    ensures
      var before, a := Run(l, instructions[..k]), EscrowPda(user, provider);
      && a in Run(l, instructions[..k + 1]).tokens
      && (Run(l, instructions[..k + 1]).tokens[a].amount < before.tokens[a].amount ==>
            Apply(before, instructions[k]).Some? && MayDebit(before, instructions[k], a))
  {
    RunKeepsEscrows(l, instructions[..k]);
    assert instructions[..k + 1][..k] == instructions[..k];
    EscrowStep(Run(l, instructions[..k]), instructions[k], EscrowPda(user, provider));
  }

  /** And the user can always withdraw what is there. */
  lemma {:induction false} WithdrawalSucceedsIff(
    l: Ledger, instructions: seq<Instruction>, user: Address, provider: Address, to: Address, amount: U64)
    requires EscrowsHeld(l)
    ensures
      var now, a := Run(l, instructions), EscrowPda(user, provider);
      Apply(now, WithdrawEscrow(user, provider, to, amount)).Some? <==>
        && a in now.tokens && amount <= now.tokens[a].amount
        && to in now.tokens && now.tokens[to].mint == now.tokens[a].mint
        && (to != a ==> now.tokens[to].amount + amount < TWO_64)
  {
    RunKeepsEscrows(l, instructions);
  }

  // ---- Commission and payment ----

  /** The commission is the rate's share of the price, rounded down: everything at a rate of one, nothing at zero. */
  lemma {:induction false} CommissionExact(price: nat, rate: U32)
    requires Commission(price, rate).Some?
    ensures
      var c := Commission(price, rate).value;
      && c * 1_000_000 <= price * rate < (c + 1) * 1_000_000
      && (rate == 1_000_000 ==> c == price)
      && (rate == 0 ==> c == 0)
  {
  }

  /** A usage update whose accounts are three different ones goes through exactly when the escrow covers the price and
      the receiving accounts have room. */
  lemma {:induction false} PaymentSucceedsIff(
    t: Tokens, escrow: Address, tokenAccount: Address, price: nat, commission: nat)
    requires escrow in t && tokenAccount in t && CommissionPda in t && commission <= price
    requires t[escrow].authority == StatePda && t[tokenAccount].mint == t[escrow].mint == t[CommissionPda].mint
    requires escrow != tokenAccount && escrow != CommissionPda && tokenAccount != CommissionPda
    ensures PayUsage(t, escrow, tokenAccount, price, commission).Some? <==>
      && price <= t[escrow].amount
      && t[tokenAccount].amount + price - commission < TWO_64 && t[CommissionPda].amount + commission < TWO_64
  {
  }

  /** A usage update succeeds exactly when its seed is new, the region's authorized signer sends it for a stack of the
      region with the registered token account, the price and its commission can be computed, and the payment goes
      through. */
  lemma {:induction false} UsageSucceedsIff(l: Ledger, i: Instruction)
    requires i.UpdateUsage? && i.signer.Key? && Sound(l)
    requires l.state.Some? && i.region in l.regions && i.stack in l.stacks
    ensures
      var price := Billing.CalcUsage(l.regions[i.region].rates, i.usage);
      var commission := if price.Some? then Commission(price.value, l.state.value.commissionRateMicros) else None;
      var escrow := EscrowPda(l.stacks[i.stack].user, l.regions[i.region].provider);
      ApplyUpdateUsage(l, i).Some? <==>
        && UpdatePda(i.stack, i.region, i.updateSeed) !in l.updates && l.stacks[i.stack].region == i.region
        && SignerPda(i.region) in l.signers
        && l.signers[SignerPda(i.region)].signer == i.signer
        && l.signers[SignerPda(i.region)].tokenAccount == i.tokenAccount
        && price.Some? && commission.Some?
        && PayUsage(l.tokens, escrow, i.tokenAccount, price.value, commission.value).Some?
  {
  }
}
