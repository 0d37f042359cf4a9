/**
 * Sequences of transactions. Each transaction carries one instruction; a
 * transaction that fails is discarded, so the ledger it ran against is kept.
 * The lemmas here hold for every sequence of instructions any signer may
 * submit.
 */
module Transactions {
  import opened Results
  import opened Keys
  import opened Token
  import I = Instructions
  import opened Invariants

  datatype Instruction =
    | Initialize(signer: Wallet, fee: U64, feeScalar: U64)
    | CreateVault(signer: Wallet, vault: Address, mint: Address)
    | List(signer: Wallet, listing: Address, sellerNft: Address, vault: Address, nftMint: Address,
           escrow: Address, contract: Address, askMint: Address, ask: U64)
    | Buy(signer: Wallet, seller: Address, source: Address, listing: Address, escrow: Address,
          destination: Address, nftMint: Address, vault: Address)
    | Sell(sellerNft: Address, nftVault: Address, nftMint: Address, vault: Address, mint: Address, askMint: Address)

  function Step(s: I.Ledger, ix: Instruction): Result<I.Ledger, I.Error> {
    match ix
    case Initialize(signer, fee, feeScalar) => Ok(I.Initialize(s, signer, fee, feeScalar))
    case CreateVault(signer, vault, mint) => I.CreateVault(s, signer, vault, mint)
    case List(signer, listing, sellerNft, vault, nftMint, escrow, contract, askMint, ask) =>
      I.List(s, signer, listing, sellerNft, vault, nftMint, escrow, contract, askMint, ask)
    case Buy(signer, seller, source, listing, escrow, destination, nftMint, vault) =>
      I.Buy(s, signer, seller, source, listing, escrow, destination, nftMint, vault)
    case Sell(sellerNft, nftVault, nftMint, vault, mint, askMint) =>
      I.Sell(s, sellerNft, nftVault, nftMint, vault, mint, askMint)
  }

  /** The ledger after one transaction: its result if it succeeded, the old ledger otherwise. */
  function Apply(s: I.Ledger, ix: Instruction): I.Ledger {
    var r := Step(s, ix);
    if r.Ok? then r.value else s
  }

  function Run(s: I.Ledger, ixs: seq<Instruction>): I.Ledger
    decreases |ixs|
  {
    if ixs == [] then s else Run(Apply(s, ixs[0]), ixs[1..])
  }

  lemma StepPreservesValid(s: I.Ledger, ix: Instruction)
    requires Valid(s)
    ensures Valid(Apply(s, ix))
  {
    if Step(s, ix).Ok? {
      match ix
      case Initialize(signer, fee, feeScalar) =>
        InitializePreservesValid(s, signer, fee, feeScalar);
      case CreateVault(signer, vault, mint) =>
        CreateVaultPreservesValid(s, signer, vault, mint);
      case List(signer, listing, sellerNft, vault, nftMint, escrow, contract, askMint, ask) =>
        ListPreservesValid(s, signer, listing, sellerNft, vault, nftMint, escrow, contract, askMint, ask);
      case Buy(signer, seller, source, listing, escrow, destination, nftMint, vault) =>
        BuyPreservesValid(s, signer, seller, source, listing, escrow, destination, nftMint, vault);
      case Sell(sellerNft, nftVault, nftMint, vault, mint, askMint) =>
        SellPreservesValid(s, sellerNft, nftVault, nftMint, vault, mint, askMint);
    }
  }

  /** Every reachable ledger satisfies the invariant: custody, backing and supply. */
  lemma {:induction false} RunPreservesValid(s: I.Ledger, ixs: seq<Instruction>)
    requires Valid(s)
    ensures Valid(Run(s, ixs))
    decreases |ixs|
  {
    if ixs != [] {
      StepPreservesValid(s, ixs[0]);
      RunPreservesValid(Apply(s, ixs[0]), ixs[1..]);
    }
  }

  /** One transaction, on any ledger, keeps every supply and every circulating total. */
  lemma StepConservesSupply(s: I.Ledger, ix: Instruction)
    ensures Apply(s, ix).supply == s.supply
    ensures forall m :: Circulating(Apply(s, ix).accounts, m) == Circulating(s.accounts, m)
  {
    if Step(s, ix).Ok? {
      forall m ensures Circulating(Apply(s, ix).accounts, m) == Circulating(s.accounts, m) {
        match ix
        case Initialize(signer, fee, feeScalar) =>
        case CreateVault(signer, vault, mint) =>
          CreateVaultConservesSupply(s, signer, vault, mint, m);
        case List(signer, listing, sellerNft, vault, nftMint, escrow, contract, askMint, ask) =>
          ListConservesSupply(s, signer, listing, sellerNft, vault, nftMint, escrow, contract, askMint, ask, m);
        case Buy(signer, seller, source, listing, escrow, destination, nftMint, vault) =>
          BuyConservesSupply(s, signer, seller, source, listing, escrow, destination, nftMint, vault, m);
        case Sell(sellerNft, nftVault, nftMint, vault, mint, askMint) =>
          SellConservesSupply(s, sellerNft, nftVault, nftMint, vault, mint, askMint, m);
      }
    }
  }

  /** No instruction mints or burns: supplies, and so circulating totals, never change. */
  lemma {:induction false} RunConservesSupply(s: I.Ledger, ixs: seq<Instruction>)
    ensures Run(s, ixs).supply == s.supply
    ensures forall m | m in s.supply :: Circulating(Run(s, ixs).accounts, m) == Circulating(s.accounts, m)
    decreases |ixs|
  {
    if ixs != [] {
      StepConservesSupply(s, ixs[0]);
      RunConservesSupply(Apply(s, ixs[0]), ixs[1..]);
    }
  }

  /**
   * An escrow is its own authority and no instruction signs for it, so no
   * transaction ever takes anything out of an escrow.
   */
  lemma EscrowNeverDebited(s: I.Ledger, ix: Instruction, a: Address)
    requires Valid(s) && a.Pda? && a.seed.EscrowSeed?
    ensures Balance(Apply(s, ix).accounts, a) >= Balance(s.accounts, a)
  {
    if Step(s, ix).Ok? {
      match ix
      case Initialize(_, _, _) =>
      case CreateVault(_, _, _) =>
      case List(signer, listing, sellerNft, vault, nftMint, escrow, contract, askMint, ask) =>
        WalletOwnedIsNotDerived(s.accounts, sellerNft);
      case Buy(signer, seller, source, listing, escrow, destination, nftMint, vault) =>
        WalletOwnedIsNotDerived(s.accounts, source);
      case Sell(_, _, _, _, _, _) =>
    }
  }

  lemma {:induction false} RunEscrowNeverDebited(s: I.Ledger, ixs: seq<Instruction>, a: Address)
    requires Valid(s) && a.Pda? && a.seed.EscrowSeed?
    ensures Balance(Run(s, ixs).accounts, a) >= Balance(s.accounts, a)
    decreases |ixs|
  {
    if ixs != [] {
      EscrowNeverDebited(s, ixs[0], a);
      StepPreservesValid(s, ixs[0]);
      RunEscrowNeverDebited(Apply(s, ixs[0]), ixs[1..], a);
    }
  }

  /**
   * The only transaction that takes anything out of a vault is a `buy` of a
   * listing of that vault's mint; it closes the listing and, in the same
   * step, credits the seller's escrow with the ask.
   */
  lemma CustodyReleasedOnlyBySale(s: I.Ledger, ix: Instruction, m: Address)
    requires Valid(s)
    requires Balance(Apply(s, ix).accounts, VaultAddress(m)) < Balance(s.accounts, VaultAddress(m))
    ensures ix.Buy? && Step(s, ix).Ok? && ix.listing in s.listings && s.listings[ix.listing].mint == m
    ensures ix.listing !in Apply(s, ix).listings
    ensures
      var x := s.listings[ix.listing];
      Balance(Apply(s, ix).accounts, EscrowAddress(x.seller, x.askMint)) ==
      Balance(s.accounts, EscrowAddress(x.seller, x.askMint)) + x.ask
  {
    match ix
    case Initialize(_, _, _) =>
    case CreateVault(_, _, _) =>
    case List(signer, listing, sellerNft, vault, nftMint, escrow, contract, askMint, ask) =>
      WalletOwnedIsNotDerived(s.accounts, sellerNft);
    case Buy(signer, seller, source, listing, escrow, destination, nftMint, vault) =>
      WalletOwnedIsNotDerived(s.accounts, source);
      var x := s.listings[listing];
      assert VaultAddress(m) == vault && escrow == EscrowAddress(x.seller, x.askMint);
      var t := Apply(s, ix).accounts;
      assert Balance(t, escrow) == Balance(s.accounts, escrow) + x.ask;
    case Sell(_, _, _, _, _, _) =>
  }
}
