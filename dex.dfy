/**
 * The program as a stateful object. Each method is one instruction run as one
 * transaction: it checks the accounts, stages every effect (account creation,
 * then each token transfer) on a local copy of the token accounts, and writes
 * the object only when every step succeeded. Any failure returns before a field
 * is written, which is the all-or-nothing commit the runtime gives a transaction.
 */
module Program {
  import opened Results
  import opened Keys
  import opened Token
  import I = Instructions
  import opened Invariants

  datatype Outcome = Pass | Fail(error: I.Error)

  function Status(r: Result<I.Ledger, I.Error>): Outcome {
    if r.Ok? then Pass else Fail(r.error)
  }

  /** The ledger a transaction leaves behind: its result on success, the old ledger on failure. */
  function Committed(s: I.Ledger, r: Result<I.Ledger, I.Error>): I.Ledger {
    if r.Ok? then r.value else s
  }

  class Dex {
    var state: Option<I.State>
    var listings: map<Address, I.Listing>
    var accounts: Accounts
    /** Mint supplies: no instruction of the program mints or burns. */
    const supply: map<Address, U64>

    function Snapshot(): I.Ledger
      reads this
    {
      I.Ledger(state, listings, accounts, supply)
    }

    ghost predicate Valid()
      reads this
    {
      Invariants.Valid(Snapshot())
    }

    /** A deployed program: no configuration and no listings yet, over existing token accounts and mints. */
    constructor (initialAccounts: Accounts, mints: map<Address, U64>)
      ensures Snapshot() == I.Ledger(None, map[], initialAccounts, mints)
      /** A ledger whose accounts are well formed and whose mints' supplies match their circulation starts valid. */
      ensures (WellFormed(initialAccounts) && (forall a | a in initialAccounts :: initialAccounts[a].mint in mints) &&
               (forall m | m in mints :: Circulating(initialAccounts, m) == mints[m])) ==> Valid()
    {
      state := None;
      listings := map[];
      accounts := initialAccounts;
      supply := mints;
    }

    method Initialize(signer: Wallet, fee: U64, feeScalar: U64)
      modifies this
      ensures state == Some(I.State(signer, fee, feeScalar))
      ensures listings == old(listings) && accounts == old(accounts)
      ensures Snapshot() == I.Initialize(old(Snapshot()), signer, fee, feeScalar)
      ensures old(Valid()) ==> Valid()
    {
      ghost var before := Snapshot();
      state := Some(I.State(signer, fee, feeScalar));
      if Invariants.Valid(before) {
        InitializePreservesValid(before, signer, fee, feeScalar);
      }
    }

    method CreateVault(signer: Wallet, vault: Address, mint: Address) returns (r: Outcome)
      modifies this
      ensures r == Status(I.CreateVault(old(Snapshot()), signer, vault, mint))
      ensures Snapshot() == Committed(old(Snapshot()), I.CreateVault(old(Snapshot()), signer, vault, mint))
      ensures r.Fail? ==> Snapshot() == old(Snapshot())
      ensures old(Valid()) ==> Valid()
    {
      ghost var before := Snapshot();
      if state.None? { return Fail(I.AccountNotInitialized); }
      if signer != state.value.admin { return Fail(I.ConstraintRaw); }
      if mint !in supply { return Fail(I.AccountNotInitialized); }
      if vault != VaultAddress(mint) { return Fail(I.ConstraintSeeds); }
      var created := I.InitIfNeeded(accounts, vault, mint, vault);
      if created.Err? { return Fail(created.error); }
      accounts := created.value;
      if Invariants.Valid(before) {
        CreateVaultPreservesValid(before, signer, vault, mint);
      }
      r := Pass;
    }

    method List(signer: Wallet, listing: Address, sellerNft: Address, vault: Address, nftMint: Address,
                escrow: Address, contract: Address, askMint: Address, ask: U64) returns (r: Outcome)
      modifies this
      ensures r == Status(I.List(old(Snapshot()), signer, listing, sellerNft, vault, nftMint, escrow, contract, askMint, ask))
      ensures Snapshot() ==
        Committed(old(Snapshot()), I.List(old(Snapshot()), signer, listing, sellerNft, vault, nftMint, escrow, contract, askMint, ask))
      ensures r.Fail? ==> Snapshot() == old(Snapshot())
      ensures old(Valid()) ==> Valid()
    {
      ghost var before := Snapshot();
      // The account constraints of `List`.
      if nftMint !in supply { return Fail(I.AccountNotInitialized); }
      if listing != ListingAddress(nftMint, signer) { return Fail(I.ConstraintSeeds); }
      if listing in listings { return Fail(I.AccountAlreadyInUse); }
      if sellerNft !in accounts { return Fail(I.AccountNotInitialized); }
      if accounts[sellerNft].mint != nftMint { return Fail(I.ConstraintRaw); }
      if supply[nftMint] != 1 { return Fail(I.ConstraintRaw); }
      if askMint !in supply { return Fail(I.AccountNotInitialized); }
      if vault != VaultAddress(nftMint) { return Fail(I.ConstraintSeeds); }
      if escrow != EscrowAddress(signer, askMint) { return Fail(I.ConstraintSeeds); }
      // Staged effects: the vault and the escrow exist, then the unit moves into custody.
      var withVault := I.InitIfNeeded(accounts, vault, nftMint, vault);
      if withVault.Err? { return Fail(withVault.error); }
      var withEscrow := I.InitIfNeeded(withVault.value, escrow, askMint, escrow);
      if withEscrow.Err? { return Fail(withEscrow.error); }
      var deposited := Transfer(withEscrow.value, sellerNft, vault, signer, 1);
      if deposited.Err? { return Fail(I.TokenProgram(deposited.error)); }
      // Commit.
      listings := listings[listing := I.Listing(true, signer, nftMint, contract, askMint, ask)];
      accounts := deposited.value;
      if Invariants.Valid(before) {
        ListPreservesValid(before, signer, listing, sellerNft, vault, nftMint, escrow, contract, askMint, ask);
      }
      r := Pass;
    }

    method Buy(signer: Wallet, seller: Address, source: Address, listing: Address, escrow: Address,
               destination: Address, nftMint: Address, vault: Address) returns (r: Outcome)
      modifies this
      ensures r == Status(I.Buy(old(Snapshot()), signer, seller, source, listing, escrow, destination, nftMint, vault))
      ensures Snapshot() ==
        Committed(old(Snapshot()), I.Buy(old(Snapshot()), signer, seller, source, listing, escrow, destination, nftMint, vault))
      ensures r.Fail? ==> Snapshot() == old(Snapshot())
      ensures old(Valid()) ==> Valid()
    {
      ghost var before := Snapshot();
      // The account constraints of `Buy`.
      if listing !in listings { return Fail(I.AccountNotInitialized); }
      var l := listings[listing];
      if seller != l.seller { return Fail(I.ConstraintRaw); }
      if source !in accounts { return Fail(I.AccountNotInitialized); }
      if accounts[source].mint != l.askMint { return Fail(I.ConstraintRaw); }
      if escrow != EscrowAddress(l.seller, l.askMint) { return Fail(I.ConstraintSeeds); }
      if escrow !in accounts { return Fail(I.AccountNotInitialized); }
      if nftMint !in supply { return Fail(I.AccountNotInitialized); }
      if nftMint != l.mint { return Fail(I.ConstraintRaw); }
      if vault != VaultAddress(nftMint) { return Fail(I.ConstraintSeeds); }
      if vault !in accounts { return Fail(I.AccountNotInitialized); }
      if destination != AssociatedAddress(signer, nftMint) { return Fail(I.ConstraintAssociated); }
      // Staged effects: the buyer's associated account exists, the payment leg, then the release leg.
      var withDestination := I.InitIfNeeded(accounts, destination, nftMint, signer);
      if withDestination.Err? { return Fail(withDestination.error); }
      var paid := Transfer(withDestination.value, source, escrow, signer, l.ask);
      if paid.Err? { return Fail(I.TokenProgram(paid.error)); }
      var released := Transfer(paid.value, vault, destination, vault, 1);
      if released.Err? { return Fail(I.TokenProgram(released.error)); }
      // Commit; `close = seller` removes the listing account.
      accounts := released.value;
      listings := listings - {listing};
      if Invariants.Valid(before) {
        BuyPreservesValid(before, signer, seller, source, listing, escrow, destination, nftMint, vault);
      }
      r := Pass;
    }

    method Sell(sellerNft: Address, nftVault: Address, nftMint: Address, vault: Address,
                mint: Address, askMint: Address) returns (r: Outcome)
      modifies this
      ensures r == Status(I.Sell(old(Snapshot()), sellerNft, nftVault, nftMint, vault, mint, askMint))
      ensures Snapshot() == Committed(old(Snapshot()), I.Sell(old(Snapshot()), sellerNft, nftVault, nftMint, vault, mint, askMint))
      ensures listings == old(listings) && state == old(state)
      ensures old(Valid()) ==> Valid()
    {
      ghost var before := Snapshot();
      if sellerNft !in accounts || nftMint !in supply { return Fail(I.AccountNotInitialized); }
      if accounts[sellerNft].mint != nftMint { return Fail(I.ConstraintRaw); }
      if nftVault != VaultAddress(nftMint) { return Fail(I.ConstraintSeeds); }
      if supply[nftMint] != 1 { return Fail(I.ConstraintRaw); }
      if mint !in supply || askMint !in supply { return Fail(I.AccountNotInitialized); }
      if vault != VaultAddress(mint) { return Fail(I.ConstraintSeeds); }
      if vault !in accounts { return Fail(I.AccountNotInitialized); }
      var withVault := I.InitIfNeeded(accounts, nftVault, nftMint, nftVault);
      if withVault.Err? { return Fail(withVault.error); }
      // The handler itself does nothing; only the account creation is committed.
      accounts := withVault.value;
      if Invariants.Valid(before) {
        SellPreservesValid(before, sellerNft, nftVault, nftMint, vault, mint, askMint);
      }
      r := Pass;
    }
  }
}
