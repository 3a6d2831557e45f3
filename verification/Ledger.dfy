/** The marketplace program: accounts, token movement and stack lifecycle, instruction by instruction. */
module Ledger {
  import opened Ids
  import Billing

  /** Addresses. A program-derived address is determined by its seeds, differs for different seeds, and is
      never the address of a key pair; `Key` is any address this program does not derive. */
  datatype Address =
    | Key(n: nat)
    | StatePda
    | DepositPda
    | CommissionPda
    | AuthorizerPda(authorizer: Address)
    | ProviderPda(owner: Address)
    | RegionPda(owner: Address, num: U32)
    | EscrowPda(user: Address, provider: Address)
    | StackPda(user: Address, region: Address, seed: U64)
    | SignerPda(region: Address)
    | UpdatePda(stack: Address, region: Address, updateSeed: nat)

  datatype TokenAccount = TokenAccount(mint: Address, authority: Address, amount: nat)

  datatype MuState = MuState(authority: Address, mint: Address, commissionRateMicros: U32, providerDeposit: U64)

  datatype Provider = Provider(owner: Address, authorized: bool, name: string, deposit: U64)

  datatype Region = Region(provider: Address, rates: Billing.ServiceRates)

  datatype StackState = Active(revision: U32, name: string, stackData: Blob) | Deleted

  datatype Stack = Stack(user: Address, region: Address, seed: U64, state: StackState)

  datatype UsageSigner = UsageSigner(signer: Address, tokenAccount: Address)

  type Tokens = map<Address, TokenAccount>

  datatype Ledger = Ledger(
    tokens: Tokens, state: Option<MuState>, authorizers: set<Address>, providers: map<Address, Provider>,
    regions: map<Address, Region>, stacks: map<Address, Stack>, signers: map<Address, UsageSigner>,
    updates: map<Address, Billing.ServiceUsage>)

  /** The program's instructions with the accounts that matter, and the token program's own instructions that
      anybody can send for accounts whose authority they hold. */
  datatype Instruction =
    | Initialize(authority: Address, mint: Address, rate: U32, deposit: U64)
    | UpdateProviderDeposit(deposit: U64)
    | CreateProviderAuthorizer(authority: Address, authorizer: Address)
    | CreateProvider(owner: Address, ownerToken: Address, name: string)
    | AuthorizeProvider(authorizer: Address, owner: Address)
    | CreateRegion(owner: Address, provider: Address, num: U32, rates: Billing.ServiceRates)
    | CreateStack(user: Address, provider: Address, region: Address, seed: U64, data: Blob, name: string)
    | UpdateStack(user: Address, region: Address, seed: U64, data: Blob, name: string)
    | DeleteStack(user: Address, region: Address, seed: U64)
    | CreateUsageSigner(owner: Address, provider: Address, region: Address, signer: Address, tokenAccount: Address)
    | CreateEscrow(user: Address, provider: Address)
    | WithdrawEscrow(user: Address, provider: Address, to: Address, amount: U64)
    | UpdateUsage(
        signer: Address, region: Address, stack: Address, tokenAccount: Address, updateSeed: nat,
        usage: Billing.ServiceUsage)
    | OpenTokenAccount(account: Address, mint: Address, authority: Address)
    | TransferTokens(authority: Address, from: Address, to: Address, amount: U64)
    | SetAuthority(authority: Address, account: Address, newAuthority: Address)

  const MAX_RATE := 1_000_000

  // ---- Token movement ----

  /** The token program's transfer. A transfer of an account to itself moves nothing. */
  function Transfer(t: Tokens, from: Address, to: Address, authority: Address, amount: nat): Option<Tokens> {
    if from !in t || to !in t || t[from].mint != t[to].mint || t[from].authority != authority || t[from].amount < amount
    then None
    else if from == to then Some(t)
    else if t[to].amount + amount >= TWO_64 then None
    else Some(t[from := t[from].(amount := t[from].amount - amount)][to := t[to].(amount := t[to].amount + amount)])
  }

  /** Commission of a price, rounded down; none when the multiplication overflows 64 bits. */
  function Commission(price: nat, rate: U32): Option<nat> {
    if price * rate < TWO_64 then Some(price * rate / MAX_RATE) else None
  }

  /** The two transfers of a usage update: the provider's share first, then the commission. */
  function PayUsage(t: Tokens, escrow: Address, tokenAccount: Address, price: nat, commission: nat): Option<Tokens> {
    if commission > price then None
    else
      var paid := Transfer(t, escrow, tokenAccount, StatePda, price - commission);
      if paid.None? then None else Transfer(paid.value, escrow, CommissionPda, StatePda, commission)
  }

  // ---- Instructions ----

  function ApplyUpdateUsage(l: Ledger, i: Instruction): Option<Ledger>
    requires i.UpdateUsage?
  {
    var pda := UpdatePda(i.stack, i.region, i.updateSeed);
    if l.state.None? || !i.signer.Key? || i.region !in l.regions || i.stack !in l.stacks || pda in l.updates then None
    else if SignerPda(i.region) !in l.signers
      || l.signers[SignerPda(i.region)] != UsageSigner(i.signer, i.tokenAccount)
    then None
    else if l.stacks[i.stack].region != i.region then None
    else
      var price := Billing.CalcUsage(l.regions[i.region].rates, i.usage);
      if price.None? then None
      else
        var commission := Commission(price.value, l.state.value.commissionRateMicros);
        if commission.None? then None
        else
          var escrow := EscrowPda(l.stacks[i.stack].user, l.regions[i.region].provider);
          var tokens := PayUsage(l.tokens, escrow, i.tokenAccount, price.value, commission.value);
          if tokens.None? then None
          else Some(l.(tokens := tokens.value, updates := l.updates[pda := i.usage]))
  }

  function ApplyStack(l: Ledger, i: Instruction): Option<Ledger>
    requires i.CreateStack? || i.UpdateStack? || i.DeleteStack?
  {
    if !i.user.Key? || i.region !in l.regions then None
    else
      var pda := StackPda(i.user, i.region, i.seed);
      if i.CreateStack? then
        if i.provider !in l.providers || !l.providers[i.provider].authorized then None
        else if l.regions[i.region].provider != i.provider || pda in l.stacks then None
        else Some(l.(stacks := l.stacks[pda := Stack(i.user, i.region, i.seed, Active(1, i.name, i.data))]))
      else if pda !in l.stacks || l.stacks[pda].state.Deleted? then None
      else if i.DeleteStack? then Some(l.(stacks := l.stacks[pda := l.stacks[pda].(state := Deleted)]))
      else
        var revision := l.stacks[pda].state.revision;
        if revision + 1 >= 0x1_0000_0000 then None
        else Some(l.(stacks := l.stacks[pda := l.stacks[pda].(state := Active(revision + 1, i.name, i.data))]))
  }

  function ApplyCreateProvider(l: Ledger, owner: Address, ownerToken: Address, name: string): Option<Ledger> {
    if l.state.None? || !owner.Key? || ProviderPda(owner) in l.providers then None
    else
      var deposit := l.state.value.providerDeposit;
      var tokens := Transfer(l.tokens, ownerToken, DepositPda, owner, deposit);
      if tokens.None? then None
      else Some(l.(
        tokens := tokens.value,
        providers := l.providers[ProviderPda(owner) := Provider(owner, false, name, deposit)]))
  }

  /** The accounts opened when the program is initialized. */
  function WithProgramAccounts(t: Tokens, authority: Address, mint: Address): Tokens {
    t[DepositPda := TokenAccount(mint, StatePda, 0)][CommissionPda := TokenAccount(mint, authority, 0)]
  }

  /** One instruction; none when a constraint, a check or a transfer fails. */
  function Apply(l: Ledger, i: Instruction): Option<Ledger> {
    match i
    case Initialize(authority, mint, rate, deposit) =>
      if l.state.Some? || !authority.Key? || rate > MAX_RATE || DepositPda in l.tokens
        || CommissionPda in l.tokens
      then None
      else Some(l.(
        state := Some(MuState(authority, mint, rate, deposit)),
        tokens := WithProgramAccounts(l.tokens, authority, mint)))
    case UpdateProviderDeposit(deposit) =>
      if l.state.None? then None else Some(l.(state := Some(l.state.value.(providerDeposit := deposit))))
    case CreateProviderAuthorizer(authority, authorizer) =>
      if l.state.None? || l.state.value.authority != authority || !authorizer.Key?
        || AuthorizerPda(authorizer) in l.authorizers
      then None
      else Some(l.(authorizers := l.authorizers + {AuthorizerPda(authorizer)}))
    case CreateProvider(owner, ownerToken, name) => ApplyCreateProvider(l, owner, ownerToken, name)
    case AuthorizeProvider(authorizer, owner) =>
      if AuthorizerPda(authorizer) !in l.authorizers || ProviderPda(owner) !in l.providers then None
      else
        var provider := l.providers[ProviderPda(owner)];
        Some(l.(providers := l.providers[ProviderPda(owner) := provider.(authorized := true)]))
    case CreateRegion(owner, provider, num, rates) =>
      if !owner.Key? || provider !in l.providers || l.providers[provider].owner != owner
        || !l.providers[provider].authorized
        || RegionPda(owner, num) in l.regions
      then None
      else Some(l.(regions := l.regions[RegionPda(owner, num) := Region(provider, rates)]))
    case CreateStack(_, _, _, _, _, _) => ApplyStack(l, i)
    case UpdateStack(_, _, _, _, _) => ApplyStack(l, i)
    case DeleteStack(_, _, _) => ApplyStack(l, i)
    case CreateUsageSigner(owner, provider, region, signer, tokenAccount) =>
      if provider !in l.providers || l.providers[provider].owner != owner || region !in l.regions
        || l.regions[region].provider != provider || SignerPda(region) in l.signers
      then None
      else Some(l.(signers := l.signers[SignerPda(region) := UsageSigner(signer, tokenAccount)]))
    case CreateEscrow(user, provider) =>
      if l.state.None? || !user.Key? || provider !in l.providers || EscrowPda(user, provider) in l.tokens then None
      else Some(l.(tokens := l.tokens[EscrowPda(user, provider) := TokenAccount(l.state.value.mint, StatePda, 0)]))
    case WithdrawEscrow(user, provider, to, amount) =>
      if l.state.None? || !user.Key? || provider !in l.providers then None
      else
        var tokens := Transfer(l.tokens, EscrowPda(user, provider), to, StatePda, amount);
        if tokens.None? then None else Some(l.(tokens := tokens.value))
    case UpdateUsage(_, _, _, _, _, _) => ApplyUpdateUsage(l, i)
    case OpenTokenAccount(account, mint, authority) =>
      if !account.Key? || account in l.tokens then None
      else Some(l.(tokens := l.tokens[account := TokenAccount(mint, authority, 0)]))
    case TransferTokens(authority, from, to, amount) =>
      var tokens := Transfer(l.tokens, from, to, authority, amount);
      if !authority.Key? || tokens.None? then None else Some(l.(tokens := tokens.value))
    case SetAuthority(authority, account, newAuthority) =>
      if !authority.Key? || account !in l.tokens || l.tokens[account].authority != authority then None
      else Some(l.(tokens := l.tokens[account := l.tokens[account].(authority := newAuthority)]))
  }

  /** A failed instruction leaves everything as it was. */
  function Exec(l: Ledger, i: Instruction): Ledger {
    var r := Apply(l, i);
    if r.Some? then r.value else l
  }

  function Run(l: Ledger, instructions: seq<Instruction>): Ledger {
    if instructions == [] then l
    else Exec(Run(l, instructions[..|instructions| - 1]), instructions[|instructions| - 1])
  }

  lemma {:induction false} RunConcat(l: Ledger, first: seq<Instruction>, second: seq<Instruction>)
    ensures Run(l, first + second) == Run(Run(l, first), second)
    decreases |second|
  {
    if second == [] {
      assert first + second == first;
    } else {
      assert (first + second)[..|first + second| - 1] == first + second[..|second| - 1];
      RunConcat(l, first, second[..|second| - 1]);
    }
  }

  // ---- Sums over accounts ----

  ghost function Sum(m: map<Address, nat>): nat
    decreases |m|
  {
    if m == map[] then 0 else var a :| a in m; m[a] + Sum(m - {a})
  }

  /** The sum does not depend on which account is taken first. */
  lemma {:induction false} SumWithout(m: map<Address, nat>, a: Address)
    requires a in m
    ensures Sum(m) == m[a] + Sum(m - {a})
    decreases |m|
  {
    var b :| b in m && Sum(m) == m[b] + Sum(m - {b});
    if b != a {
      var rest := m - {a} - {b};
      SumWithout(m - {b}, a);
      assert m - {b} - {a} == rest;
      SumWithout(m - {a}, b);
      assert Sum(m - {b}) == m[a] + Sum(rest) && Sum(m - {a}) == m[b] + Sum(rest);
    }
  }

  lemma {:induction false} SumChanged(m: map<Address, nat>, a: Address, n: nat)
    ensures Sum(m[a := n]) + (if a in m then m[a] else 0) == Sum(m) + n
  {
    SumWithout(m[a := n], a);
    assert m[a := n] - {a} == m - {a};
    if a in m {
      SumWithout(m, a);
    } else {
      assert m - {a} == m;
    }
  }

  function Balances(t: Tokens, mint: Address): map<Address, nat> {
    map a | a in t && t[a].mint == mint :: t[a].amount
  }

  /** All tokens of a mint. */
  ghost function Supply(t: Tokens, mint: Address): nat {
    Sum(Balances(t, mint))
  }

  lemma {:induction false} SupplyAfterAmount(t: Tokens, a: Address, n: nat, mint: Address)
    requires a in t
    ensures Supply(t[a := t[a].(amount := n)], mint) + (if t[a].mint == mint then t[a].amount else 0) ==
      Supply(t, mint) + (if t[a].mint == mint then n else 0)
  {
    var t' := t[a := t[a].(amount := n)];
    if t[a].mint == mint {
      SumChanged(Balances(t, mint), a, n);
      assert Balances(t', mint) == Balances(t, mint)[a := n];
    } else {
      assert Balances(t', mint) == Balances(t, mint);
    }
  }

  lemma {:induction false} TransferConserves(
    t: Tokens, from: Address, to: Address, authority: Address, amount: nat, mint: Address)
    requires Transfer(t, from, to, authority, amount).Some?
    ensures Supply(Transfer(t, from, to, authority, amount).value, mint) == Supply(t, mint)
  {
    if from != to {
      var mid := t[from := t[from].(amount := t[from].amount - amount)];
      SupplyAfterAmount(t, from, t[from].amount - amount, mint);
      SupplyAfterAmount(mid, to, t[to].amount + amount, mint);
    }
  }

  lemma {:induction false} SupplyAfterOpening(t: Tokens, a: Address, account: TokenAccount, mint: Address)
    requires a !in t && account.amount == 0
    ensures Supply(t[a := account], mint) == Supply(t, mint)
  {
    var t' := t[a := account];
    if account.mint == mint {
      SumChanged(Balances(t, mint), a, 0);
      assert Balances(t', mint) == Balances(t, mint)[a := 0];
    } else {
      assert Balances(t', mint) == Balances(t, mint);
    }
  }

  // ---- Conservation ----

  lemma {:induction false} PayConserves(
    t: Tokens, escrow: Address, tokenAccount: Address, price: nat, commission: nat, mint: Address)
    requires PayUsage(t, escrow, tokenAccount, price, commission).Some?
    ensures Supply(PayUsage(t, escrow, tokenAccount, price, commission).value, mint) == Supply(t, mint)
  {
    var paid := Transfer(t, escrow, tokenAccount, StatePda, price - commission).value;
    TransferConserves(t, escrow, tokenAccount, StatePda, price - commission, mint);
    TransferConserves(paid, escrow, CommissionPda, StatePda, commission, mint);
  }

  lemma {:induction false} UpdateUsageConserves(l: Ledger, i: Instruction, mint: Address)
    requires i.UpdateUsage? && ApplyUpdateUsage(l, i).Some?
    ensures Supply(ApplyUpdateUsage(l, i).value.tokens, mint) == Supply(l.tokens, mint)
  {
    var price := Billing.CalcUsage(l.regions[i.region].rates, i.usage).value;
    var commission := Commission(price, l.state.value.commissionRateMicros).value;
    var escrow := EscrowPda(l.stacks[i.stack].user, l.regions[i.region].provider);
    PayConserves(l.tokens, escrow, i.tokenAccount, price, commission, mint);
  }

  lemma {:induction false} SupplyAfterInitialize(t: Tokens, authority: Address, m: Address, mint: Address)
    requires DepositPda !in t && CommissionPda !in t
    ensures Supply(WithProgramAccounts(t, authority, m), mint) == Supply(t, mint)
  {
    SupplyAfterOpening(t, DepositPda, TokenAccount(m, StatePda, 0), mint);
    var t' := t[DepositPda := TokenAccount(m, StatePda, 0)];
    SupplyAfterOpening(t', CommissionPda, TokenAccount(m, authority, 0), mint);
  }

  predicate TouchesTokens(i: Instruction) {
    || i.Initialize? || i.CreateProvider? || i.CreateEscrow? || i.WithdrawEscrow?
    || i.UpdateUsage? || i.OpenTokenAccount? || i.TransferTokens? || i.SetAuthority?
  }

  lemma {:induction false} OthersKeepTokens(l: Ledger, i: Instruction)
    requires !TouchesTokens(i)
    ensures Exec(l, i).tokens == l.tokens
  {
    if i.CreateStack? || i.UpdateStack? || i.DeleteStack? {
      assert Exec(l, i) == (if ApplyStack(l, i).Some? then ApplyStack(l, i).value else l);
    }
  }

  lemma {:induction false} AuthorityKeepsSupply(t: Tokens, account: Address, authority: Address, mint: Address)
    requires account in t
    ensures Supply(t[account := t[account].(authority := authority)], mint) == Supply(t, mint)
  {
    assert Balances(t[account := t[account].(authority := authority)], mint) == Balances(t, mint);
  }

  /** No instruction creates or destroys tokens of any mint, whichever accounts coincide. */
  lemma {:induction false} ExecConserves(l: Ledger, i: Instruction, mint: Address)
    ensures Supply(Exec(l, i).tokens, mint) == Supply(l.tokens, mint)
  {
    if !TouchesTokens(i) {
      OthersKeepTokens(l, i);
    } else if Apply(l, i).Some? {
      match i
      case Initialize(authority, m, _, _) => SupplyAfterInitialize(l.tokens, authority, m, mint);
      case CreateProvider(owner, ownerToken, _) =>
        TransferConserves(l.tokens, ownerToken, DepositPda, owner, l.state.value.providerDeposit, mint);
      case CreateEscrow(user, provider) =>
        SupplyAfterOpening(l.tokens, EscrowPda(user, provider), TokenAccount(l.state.value.mint, StatePda, 0), mint);
      case WithdrawEscrow(user, provider, to, amount) =>
        TransferConserves(l.tokens, EscrowPda(user, provider), to, StatePda, amount, mint);
      case UpdateUsage(_, _, _, _, _, _) => UpdateUsageConserves(l, i, mint);
      case OpenTokenAccount(account, m, authority) =>
        SupplyAfterOpening(l.tokens, account, TokenAccount(m, authority, 0), mint);
      case TransferTokens(authority, from, to, amount) =>
        TransferConserves(l.tokens, from, to, authority, amount, mint);
      case SetAuthority(_, account, newAuthority) => AuthorityKeepsSupply(l.tokens, account, newAuthority, mint);
    }
  }

  lemma {:induction false} RunConserves(l: Ledger, instructions: seq<Instruction>, mint: Address)
    ensures Supply(Run(l, instructions).tokens, mint) == Supply(l.tokens, mint)
  {
    if instructions != [] {
      RunConserves(l, instructions[..|instructions| - 1], mint);
      ExecConserves(Run(l, instructions[..|instructions| - 1]), instructions[|instructions| - 1], mint);
    }
  }

  // ---- Deposits and commission ----

  function Deposits(providers: map<Address, Provider>): map<Address, nat> {
    map a | a in providers :: providers[a].deposit
  }

  /** The commission rate is at most one, and the deposit account, which only the program can debit, covers
      every recorded provider deposit. */
  ghost predicate Sound(l: Ledger) {
    && (l.state.Some? ==>
          && l.state.value.commissionRateMicros <= MAX_RATE
          && DepositPda in l.tokens && l.tokens[DepositPda].authority == StatePda
          && Sum(Deposits(l.providers)) <= l.tokens[DepositPda].amount)
    && (l.state.None? ==> l.providers == map[])
  }

  /** A transfer leaves the deposit account's authority alone and lowers its balance only on the program's
      own signature from that very account. */
  lemma {:induction false} DepositAfterTransfer(t: Tokens, from: Address, to: Address, authority: Address, amount: nat)
    requires DepositPda in t && t[DepositPda].authority == StatePda
    requires from != DepositPda || authority != StatePda
    requires Transfer(t, from, to, authority, amount).Some?
    ensures
      var t' := Transfer(t, from, to, authority, amount).value;
      && DepositPda in t' && t'[DepositPda].authority == StatePda
      && t'[DepositPda].amount == t[DepositPda].amount + if to == DepositPda then amount else 0
  {
  }

  lemma {:induction false} DepositAfterPayment(
    t: Tokens, escrow: Address, tokenAccount: Address, price: nat, commission: nat)
    requires DepositPda in t && t[DepositPda].authority == StatePda && escrow != DepositPda
    requires PayUsage(t, escrow, tokenAccount, price, commission).Some?
    ensures
      var t' := PayUsage(t, escrow, tokenAccount, price, commission).value;
      DepositPda in t' && t'[DepositPda].authority == StatePda && t'[DepositPda].amount >= t[DepositPda].amount
  {
    DepositAfterTransfer(t, escrow, tokenAccount, StatePda, price - commission);
    var paid := Transfer(t, escrow, tokenAccount, StatePda, price - commission).value;
    DepositAfterTransfer(paid, escrow, CommissionPda, StatePda, commission);
  }

  lemma {:induction false} DepositsAfterAuthorizing(providers: map<Address, Provider>, a: Address)
    requires a in providers
    ensures Deposits(providers[a := providers[a].(authorized := true)]) == Deposits(providers)
  {
  }

  lemma {:induction false} CreateProviderKeepsSound(l: Ledger, owner: Address, ownerToken: Address, name: string)
    requires Sound(l) && ApplyCreateProvider(l, owner, ownerToken, name).Some?
    ensures Sound(ApplyCreateProvider(l, owner, ownerToken, name).value)
  {
    var deposit := l.state.value.providerDeposit;
    DepositAfterTransfer(l.tokens, ownerToken, DepositPda, owner, deposit);
    var provider := Provider(owner, false, name, deposit);
    SumChanged(Deposits(l.providers), ProviderPda(owner), deposit);
    assert Deposits(l.providers[ProviderPda(owner) := provider]) ==
      Deposits(l.providers)[ProviderPda(owner) := deposit];
  }

  lemma {:induction false} UpdateUsageKeepsSound(l: Ledger, i: Instruction)
    requires Sound(l) && i.UpdateUsage? && ApplyUpdateUsage(l, i).Some?
    ensures Sound(ApplyUpdateUsage(l, i).value)
  {
    var price := Billing.CalcUsage(l.regions[i.region].rates, i.usage).value;
    var commission := Commission(price, l.state.value.commissionRateMicros).value;
    var escrow := EscrowPda(l.stacks[i.stack].user, l.regions[i.region].provider);
    DepositAfterPayment(l.tokens, escrow, i.tokenAccount, price, commission);
  }

  lemma {:induction false} OthersKeepDeposits(l: Ledger, i: Instruction)
    requires !i.Initialize? && !i.CreateProvider? && !i.AuthorizeProvider?
    ensures
      var l' := Exec(l, i);
      && l'.providers == l.providers
      && (l'.state == l.state || (l.state.Some? && l'.state.Some?
            && l'.state.value.commissionRateMicros == l.state.value.commissionRateMicros))
  {
    if i.UpdateUsage? {
      assert Exec(l, i) == (if ApplyUpdateUsage(l, i).Some? then ApplyUpdateUsage(l, i).value else l);
    } else if i.CreateStack? || i.UpdateStack? || i.DeleteStack? {
      assert Exec(l, i) == (if ApplyStack(l, i).Some? then ApplyStack(l, i).value else l);
    }
  }

  lemma {:induction false} ExecKeepsSound(l: Ledger, i: Instruction)
    requires Sound(l)
    ensures Sound(Exec(l, i))
  {
    if !TouchesTokens(i) && !i.AuthorizeProvider? {
      OthersKeepTokens(l, i);
      OthersKeepDeposits(l, i);
    } else if Apply(l, i).Some? {
      match i
      case CreateProvider(owner, ownerToken, name) => CreateProviderKeepsSound(l, owner, ownerToken, name);
      case AuthorizeProvider(_, owner) =>
        DepositsAfterAuthorizing(l.providers, ProviderPda(owner));
      case WithdrawEscrow(user, provider, to, amount) =>
        DepositAfterTransfer(l.tokens, EscrowPda(user, provider), to, StatePda, amount);
      case UpdateUsage(_, _, _, _, _, _) => UpdateUsageKeepsSound(l, i);
      case TransferTokens(authority, from, to, amount) =>
        if l.state.Some? {
          DepositAfterTransfer(l.tokens, from, to, authority, amount);
        }
      case _ =>
    }
  }

  /** Over every run from the empty ledger the rate stays in bounds and the deposits stay covered. */
  lemma {:induction false} RunKeepsSound(l: Ledger, instructions: seq<Instruction>)
    requires Sound(l)
    ensures Sound(Run(l, instructions))
  {
    if instructions != [] {
      RunKeepsSound(l, instructions[..|instructions| - 1]);
      ExecKeepsSound(Run(l, instructions[..|instructions| - 1]), instructions[|instructions| - 1]);
    }
  }

  // ---- Paying for usage ----

  lemma {:induction false} CommissionAtMostPrice(price: nat, rate: U32)
    requires rate <= MAX_RATE && Commission(price, rate).Some?
    ensures Commission(price, rate).value <= price
  {
    assert price * rate <= price * MAX_RATE;
    assert price * MAX_RATE / MAX_RATE == price;
  }

  function Amount(t: Tokens, a: Address): int {
    if a in t then t[a].amount else 0
  }

  /** What a successful usage update moves, even when the provider's token account is the escrow or the
      commission account: the escrow pays the price, the provider gets its share, and the commission account
      gets the rest; no subtraction can underflow. */
  lemma {:induction false} UsagePayment(l: Ledger, i: Instruction, a: Address)
    requires Sound(l) && i.UpdateUsage? && ApplyUpdateUsage(l, i).Some?
    ensures
      var price := Billing.CalcUsage(l.regions[i.region].rates, i.usage).value;
      var commission := Commission(price, l.state.value.commissionRateMicros).value;
      var escrow := EscrowPda(l.stacks[i.stack].user, l.regions[i.region].provider);
      && commission <= price
      && Amount(ApplyUpdateUsage(l, i).value.tokens, a) == Amount(l.tokens, a)
        - (if a == escrow then price else 0)
        + (if a == i.tokenAccount then price - commission else 0)
        + (if a == CommissionPda then commission else 0)
  {
    var price := Billing.CalcUsage(l.regions[i.region].rates, i.usage).value;
    CommissionAtMostPrice(price, l.state.value.commissionRateMicros);
    var commission := Commission(price, l.state.value.commissionRateMicros).value;
    var escrow := EscrowPda(l.stacks[i.stack].user, l.regions[i.region].provider);
    TransferMoves(l.tokens, escrow, i.tokenAccount, StatePda, price - commission, a);
    var paid := Transfer(l.tokens, escrow, i.tokenAccount, StatePda, price - commission).value;
    TransferMoves(paid, escrow, CommissionPda, StatePda, commission, a);
  }

  lemma {:induction false} TransferMoves(
    t: Tokens, from: Address, to: Address, authority: Address, amount: nat, a: Address)
    requires Transfer(t, from, to, authority, amount).Some?
    ensures Amount(Transfer(t, from, to, authority, amount).value, a) ==
      Amount(t, a) - (if a == from then amount else 0) + (if a == to then amount else 0)
  {
  }

  /** Each usage update of a stack, region and seed is charged at most once: once one has succeeded, every
      later one with the same three fails, whatever happens in between. */
  lemma {:induction false} ChargedAtMostOnce(
    l: Ledger, first: Instruction, between: seq<Instruction>, second: Instruction)
    requires first.UpdateUsage? && second.UpdateUsage? && Apply(l, first).Some?
    requires first.stack == second.stack && first.region == second.region && first.updateSeed == second.updateSeed
    ensures Apply(Run(Exec(l, first), between), second).None?
  {
    UpdatesPersist(Exec(l, first), between);
  }

  lemma {:induction false} UpdatesPersist(l: Ledger, instructions: seq<Instruction>)
    ensures l.updates.Keys <= Run(l, instructions).updates.Keys
  {
    if instructions != [] {
      UpdatesPersist(l, instructions[..|instructions| - 1]);
      ExecKeepsUpdates(Run(l, instructions[..|instructions| - 1]), instructions[|instructions| - 1]);
    }
  }

  lemma {:induction false} ExecKeepsUpdates(l: Ledger, i: Instruction)
    ensures l.updates.Keys <= Exec(l, i).updates.Keys
  {
    if i.UpdateUsage? {
      assert Exec(l, i) == (if ApplyUpdateUsage(l, i).Some? then ApplyUpdateUsage(l, i).value else l);
    } else {
      match i
      case CreateProvider(owner, ownerToken, name) =>
      case _ =>
    }
  }

  // ---- Stack lifecycle ----

  /** A stack account never disappears or changes hands, a deleted stack stays deleted, and the revision of an
      active one never goes down. */
  ghost predicate StacksAdvance(before: map<Address, Stack>, after: map<Address, Stack>) {
    forall a <- before ::
      && a in after
      && after[a].user == before[a].user && after[a].region == before[a].region && after[a].seed == before[a].seed
      && (before[a].state.Deleted? ==> after[a].state.Deleted?)
      && (before[a].state.Active? && after[a].state.Active? ==> before[a].state.revision <= after[a].state.revision)
  }

  lemma {:induction false} StackLifecycle(l: Ledger, instructions: seq<Instruction>)
    ensures StacksAdvance(l.stacks, Run(l, instructions).stacks)
  {
    if instructions != [] {
      var before := Run(l, instructions[..|instructions| - 1]);
      StackLifecycle(l, instructions[..|instructions| - 1]);
      ExecAdvancesStacks(before, instructions[|instructions| - 1]);
    }
  }

  lemma {:induction false} ExecAdvancesStacks(l: Ledger, i: Instruction)
    ensures StacksAdvance(l.stacks, Exec(l, i).stacks)
  {
    if i.CreateStack? || i.UpdateStack? || i.DeleteStack? {
      assert Exec(l, i) == (if ApplyStack(l, i).Some? then ApplyStack(l, i).value else l);
    } else {
      OtherInstructionsKeepStacks(l, i);
    }
  }

  lemma {:induction false} OtherInstructionsKeepStacks(l: Ledger, i: Instruction)
    requires !(i.CreateStack? || i.UpdateStack? || i.DeleteStack?)
    ensures Exec(l, i).stacks == l.stacks
  {
    match i
    case CreateProvider(owner, ownerToken, name) =>
    case UpdateUsage(_, _, _, _, _, _) =>
    case _ =>
  }
}
