/**
 * The invariant the marketplace keeps between transactions, and what it
 * guarantees about custody: every listing is backed by the one unit of its
 * mint sitting in the mint's vault, total supply is conserved, and each
 * instruction succeeds exactly when its account constraints and its token
 * transfers' own checks pass.
 */
module Invariants {
  import opened Results
  import opened Keys
  import opened Token
  import opened Instructions

  /**
   * Where a token account may live: a vault or escrow PDA holds the mint in its
   * seeds under its own authority; an associated account holds its mint for its
   * wallet; an address with a private key may hold anything.
   */
  predicate AccountFits(a: Address, acct: TokenAccount) {
    match a
    case Key(_) => true
    case Pda(seed) =>
      (seed.VaultSeed? && acct.mint == seed.mint && acct.owner == a) ||
      (seed.EscrowSeed? && acct.mint == seed.askMint && acct.owner == a)
    case Associated(wallet, mint) => acct.mint == mint && acct.owner == wallet
  }

  predicate WellFormed(accts: Accounts) {
    forall a | a in accts :: AccountFits(a, accts[a])
  }

  /** Every token account belongs to a mint, and each mint's accounts add up to its supply. */
  ghost predicate SupplyMatches(s: Ledger) {
    (forall a | a in s.accounts :: s.accounts[a].mint in s.supply) &&
    (forall m | m in s.supply :: Circulating(s.accounts, m) == s.supply[m])
  }

  /** A listing lives at its derived address, is active, and its supply-1 mint sits in its vault. */
  predicate Backed(s: Ledger, l: Address)
    requires l in s.listings
  {
    var x := s.listings[l];
    x.active && l == ListingAddress(x.mint, x.seller) &&
    x.mint in s.supply && s.supply[x.mint] == 1 &&
    VaultAddress(x.mint) in s.accounts && s.accounts[VaultAddress(x.mint)].amount == 1 &&
    EscrowAddress(x.seller, x.askMint) in s.accounts
  }

  predicate OneListingPerMint(s: Ledger) {
    forall l1, l2 | l1 in s.listings && l2 in s.listings && s.listings[l1].mint == s.listings[l2].mint :: l1 == l2
  }

  ghost predicate Valid(s: Ledger) {
    SupplyMatches(s) && WellFormed(s.accounts) &&
    (forall l | l in s.listings :: Backed(s, l)) &&
    OneListingPerMint(s)
  }

  /** The account constraints of `list`, as Anchor checks them. */
  predicate ListAccepted(s: Ledger, signer: Wallet, listing: Address, sellerNft: Address, vault: Address,
                         nftMint: Address, escrow: Address, askMint: Address)
  {
    nftMint in s.supply && s.supply[nftMint] == 1 && askMint in s.supply &&
    listing == ListingAddress(nftMint, signer) && listing !in s.listings &&
    sellerNft in s.accounts && s.accounts[sellerNft].mint == nftMint &&
    vault == VaultAddress(nftMint) && escrow == EscrowAddress(signer, askMint)
  }

  /** The account constraints of `buy`, as Anchor checks them. */
  predicate BuyAccepted(s: Ledger, signer: Wallet, seller: Address, source: Address, listing: Address,
                        escrow: Address, destination: Address, nftMint: Address, vault: Address)
  {
    listing in s.listings &&
    var l := s.listings[listing];
    seller == l.seller &&
    source in s.accounts && s.accounts[source].mint == l.askMint &&
    escrow == EscrowAddress(l.seller, l.askMint) &&
    nftMint == l.mint && vault == VaultAddress(nftMint) &&
    destination == AssociatedAddress(signer, nftMint)
  }

  // ---------------------------------------------------------------------------
  // Supply conservation, instruction by instruction

  lemma InitConserves(accts: Accounts, addr: Address, mint: Address, owner: Address, m: Address)
    requires InitIfNeeded(accts, addr, mint, owner).Ok?
    ensures Circulating(InitIfNeeded(accts, addr, mint, owner).value, m) == Circulating(accts, m)
  {
    if addr !in accts {
      OpenConserves(accts, addr, mint, owner, m);
    }
  }

  lemma ListConservesSupply(s: Ledger, signer: Wallet, listing: Address, sellerNft: Address, vault: Address,
                            nftMint: Address, escrow: Address, contract: Address, askMint: Address, ask: U64, m: Address)
    requires List(s, signer, listing, sellerNft, vault, nftMint, escrow, contract, askMint, ask).Ok?
    ensures Circulating(List(s, signer, listing, sellerNft, vault, nftMint, escrow, contract, askMint, ask).value.accounts, m)
         == Circulating(s.accounts, m)
  {
    var withVault := InitIfNeeded(s.accounts, vault, nftMint, vault).value;
    var withEscrow := InitIfNeeded(withVault, escrow, askMint, escrow).value;
    InitConserves(s.accounts, vault, nftMint, vault, m);
    InitConserves(withVault, escrow, askMint, escrow, m);
    TransferConserves(withEscrow, sellerNft, vault, signer, 1, m);
  }

  lemma BuyConservesSupply(s: Ledger, signer: Wallet, seller: Address, source: Address, listing: Address,
                           escrow: Address, destination: Address, nftMint: Address, vault: Address, m: Address)
    requires Buy(s, signer, seller, source, listing, escrow, destination, nftMint, vault).Ok?
    ensures Circulating(Buy(s, signer, seller, source, listing, escrow, destination, nftMint, vault).value.accounts, m)
         == Circulating(s.accounts, m)
  {
    var ask := s.listings[listing].ask;
    var withDestination := InitIfNeeded(s.accounts, destination, nftMint, signer).value;
    var paid := Transfer(withDestination, source, escrow, signer, ask).value;
    InitConserves(s.accounts, destination, nftMint, signer, m);
    TransferConserves(withDestination, source, escrow, signer, ask, m);
    TransferConserves(paid, vault, destination, vault, 1, m);
  }

  lemma CreateVaultConservesSupply(s: Ledger, signer: Wallet, vault: Address, mint: Address, m: Address)
    requires CreateVault(s, signer, vault, mint).Ok?
    ensures Circulating(CreateVault(s, signer, vault, mint).value.accounts, m) == Circulating(s.accounts, m)
  {
    InitConserves(s.accounts, vault, mint, vault, m);
  }

  lemma SellConservesSupply(s: Ledger, sellerNft: Address, nftVault: Address, nftMint: Address,
                            vault: Address, mint: Address, askMint: Address, m: Address)
    requires Sell(s, sellerNft, nftVault, nftMint, vault, mint, askMint).Ok?
    ensures Circulating(Sell(s, sellerNft, nftVault, nftMint, vault, mint, askMint).value.accounts, m)
         == Circulating(s.accounts, m)
  {
    InitConserves(s.accounts, nftVault, nftMint, nftVault, m);
  }

  // ---------------------------------------------------------------------------
  // Custody bounds

  /**
   * A token account owned by a wallet is never a vault or an escrow: those are
   * owned by themselves, and no derived address is a wallet.
   */
  lemma WalletOwnedIsNotDerived(accts: Accounts, a: Address)
    requires WellFormed(accts) && a in accts && accts[a].owner.Key?
    ensures !a.Pda?
  {
    assert AccountFits(a, accts[a]);
  }

  /** No account ever holds more than one unit of a supply-1 mint. */
  lemma NftAtMostOne(s: Ledger, a: Address)
    requires Valid(s) && a in s.accounts
    requires s.supply[s.accounts[a].mint] == 1
    ensures s.accounts[a].amount <= 1
  {
    HeldBounded(s.accounts, a, s.accounts[a].mint);
  }

  /** While a mint is listed, no account other than its vault holds any of it. */
  lemma ListedUnitOnlyInVault(s: Ledger, l: Address, a: Address)
    requires Valid(s) && l in s.listings && a in s.accounts
    requires s.accounts[a].mint == s.listings[l].mint && a != VaultAddress(s.listings[l].mint)
    ensures s.accounts[a].amount == 0
  {
    var m := s.listings[l].mint;
    assert Backed(s, l);
    PairBounded(s.accounts, VaultAddress(m), a, m);
    assert AccountFits(VaultAddress(m), s.accounts[VaultAddress(m)]);
  }

  // ---------------------------------------------------------------------------
  // Each instruction keeps the invariant

  lemma InitializePreservesValid(s: Ledger, signer: Wallet, fee: U64, feeScalar: U64)
    requires Valid(s)
    ensures Valid(Initialize(s, signer, fee, feeScalar))
  {
    var t := Initialize(s, signer, fee, feeScalar);
    forall l | l in t.listings ensures Backed(t, l) {
      assert Backed(s, l);
    }
  }

  lemma CreateVaultPreservesValid(s: Ledger, signer: Wallet, vault: Address, mint: Address)
    requires Valid(s) && CreateVault(s, signer, vault, mint).Ok?
    ensures Valid(CreateVault(s, signer, vault, mint).value)
  {
    var t := CreateVault(s, signer, vault, mint).value;
    forall m | m in t.supply ensures Circulating(t.accounts, m) == t.supply[m] {
      CreateVaultConservesSupply(s, signer, vault, mint, m);
    }
    forall a | a in t.accounts ensures AccountFits(a, t.accounts[a]) {
      if a in s.accounts { assert AccountFits(a, s.accounts[a]); }
    }
    forall l | l in t.listings ensures Backed(t, l) {
      assert Backed(s, l);
      var v := VaultAddress(s.listings[l].mint);
      assert Balance(t.accounts, v) == Balance(s.accounts, v);
    }
  }

  lemma SellPreservesValid(s: Ledger, sellerNft: Address, nftVault: Address, nftMint: Address,
                           vault: Address, mint: Address, askMint: Address)
    requires Valid(s) && Sell(s, sellerNft, nftVault, nftMint, vault, mint, askMint).Ok?
    ensures Valid(Sell(s, sellerNft, nftVault, nftMint, vault, mint, askMint).value)
  {
    var t := Sell(s, sellerNft, nftVault, nftMint, vault, mint, askMint).value;
    forall m | m in t.supply ensures Circulating(t.accounts, m) == t.supply[m] {
      SellConservesSupply(s, sellerNft, nftVault, nftMint, vault, mint, askMint, m);
    }
    forall a | a in t.accounts ensures AccountFits(a, t.accounts[a]) {
      if a in s.accounts { assert AccountFits(a, s.accounts[a]); }
    }
    forall l | l in t.listings ensures Backed(t, l) {
      assert Backed(s, l);
      var v := VaultAddress(s.listings[l].mint);
      assert Balance(t.accounts, v) == Balance(s.accounts, v);
    }
  }

  /**
   * What every successful instruction does to the accounts: the supply is
   * untouched, accounts are only added, each new account fits its address and
   * holds an existing mint, and every mint's circulating total is conserved.
   */
  ghost predicate Evolves(s: Ledger, t: Ledger) {
    t.supply == s.supply && Extends(s.accounts, t.accounts) &&
    (forall a | a in t.accounts && a !in s.accounts :: AccountFits(a, t.accounts[a]) && t.accounts[a].mint in s.supply) &&
    (forall m :: Circulating(t.accounts, m) == Circulating(s.accounts, m))
  }

  lemma EvolvesKeepsSupplyAndShape(s: Ledger, t: Ledger)
    requires SupplyMatches(s) && WellFormed(s.accounts) && Evolves(s, t)
    ensures SupplyMatches(t) && WellFormed(t.accounts)
  {
    forall a | a in t.accounts ensures AccountFits(a, t.accounts[a]) {
      if a in s.accounts { assert AccountFits(a, s.accounts[a]); }
    }
  }

  lemma ListEvolves(s: Ledger, signer: Wallet, listing: Address, sellerNft: Address, vault: Address,
                    nftMint: Address, escrow: Address, contract: Address, askMint: Address, ask: U64)
    requires List(s, signer, listing, sellerNft, vault, nftMint, escrow, contract, askMint, ask).Ok?
    ensures Evolves(s, List(s, signer, listing, sellerNft, vault, nftMint, escrow, contract, askMint, ask).value)
  {
    forall m {
      ListConservesSupply(s, signer, listing, sellerNft, vault, nftMint, escrow, contract, askMint, ask, m);
    }
  }

  lemma BuyEvolves(s: Ledger, signer: Wallet, seller: Address, source: Address, listing: Address,
                   escrow: Address, destination: Address, nftMint: Address, vault: Address)
    requires Buy(s, signer, seller, source, listing, escrow, destination, nftMint, vault).Ok?
    ensures Evolves(s, Buy(s, signer, seller, source, listing, escrow, destination, nftMint, vault).value)
  {
    forall m {
      BuyConservesSupply(s, signer, seller, source, listing, escrow, destination, nftMint, vault, m);
    }
  }

  /** The seller of a successful `list` held the unit, so the mint was not listed yet. */
  lemma ListedMintWasFree(s: Ledger, signer: Wallet, sellerNft: Address, nftMint: Address)
    requires Valid(s) && nftMint in s.supply && s.supply[nftMint] == 1
    requires sellerNft in s.accounts && s.accounts[sellerNft].mint == nftMint && s.accounts[sellerNft].owner == signer
    requires s.accounts[sellerNft].amount >= 1
    ensures forall l | l in s.listings :: s.listings[l].mint != nftMint
  {
    WalletOwnedIsNotDerived(s.accounts, sellerNft);
    forall l | l in s.listings ensures s.listings[l].mint != nftMint {
      if s.listings[l].mint == nftMint {
        assert Backed(s, l);
        PairBounded(s.accounts, VaultAddress(nftMint), sellerNft, nftMint);
        assert false;
      }
    }
  }

  /** An account of a mint whose whole supply is one unit, holding at least one, holds exactly one. */
  lemma HoldsTheUnit(accts: Accounts, a: Address, other: Address, mint: Address)
    requires a in accts && other in accts && a != other
    requires accts[a].mint == mint && accts[a].amount >= 1 && Circulating(accts, mint) == 1
    ensures accts[a].amount == 1
  {
    PairBounded(accts, a, other, mint);
  }

  /** The listing a `list` writes is backed: the unit it moved is the whole supply, now in the vault. */
  lemma ListBacksNew(s: Ledger, t: Ledger, listing: Address, sellerNft: Address, vault: Address, x: Listing)
    requires WellFormed(s.accounts) && sellerNft in s.accounts && s.accounts[sellerNft].owner.Key?
    requires listing in t.listings && t.listings[listing] == x && x.active && listing == ListingAddress(x.mint, x.seller)
    requires x.mint in t.supply && t.supply[x.mint] == 1 && Circulating(t.accounts, x.mint) == 1
    requires vault == VaultAddress(x.mint) && vault in t.accounts && t.accounts[vault].mint == x.mint
    requires sellerNft in t.accounts && EscrowAddress(x.seller, x.askMint) in t.accounts
    requires Balance(t.accounts, vault) == Balance(s.accounts, vault) + 1
    ensures Backed(t, listing)
  {
    WalletOwnedIsNotDerived(s.accounts, sellerNft);
    HoldsTheUnit(t.accounts, vault, sellerNft, x.mint);
  }

  /** A `list` leaves the vaults of all other listed mints untouched. */
  lemma ListKeepsOthersBacked(s: Ledger, t: Ledger, listing: Address, sellerNft: Address, nftMint: Address)
    requires WellFormed(s.accounts) && (forall l | l in s.listings :: Backed(s, l)) && listing !in s.listings
    requires t.supply == s.supply && s.accounts.Keys <= t.accounts.Keys
    requires sellerNft in s.accounts && s.accounts[sellerNft].owner.Key?
    requires forall l | l in s.listings :: s.listings[l].mint != nftMint
    requires listing in t.listings && t.listings - {listing} == s.listings
    requires forall a | a != sellerNft && a != VaultAddress(nftMint) :: Balance(t.accounts, a) == Balance(s.accounts, a)
    ensures forall l | l in t.listings && l != listing :: Backed(t, l)
  {
    WalletOwnedIsNotDerived(s.accounts, sellerNft);
    forall l | l in t.listings && l != listing ensures Backed(t, l) {
      assert l in s.listings && t.listings[l] == s.listings[l];
      assert Backed(s, l);
      var v := VaultAddress(s.listings[l].mint);
      assert Balance(t.accounts, v) == Balance(s.accounts, v);
    }
  }

  /** A `list` of a mint nobody has listed keeps one listing per mint. */
  lemma ListKeepsOneListingPerMint(s: Ledger, t: Ledger, listing: Address, x: Listing)
    requires OneListingPerMint(s) && listing !in s.listings
    requires forall l | l in s.listings :: s.listings[l].mint != x.mint
    requires t.listings == s.listings[listing := x]
    ensures OneListingPerMint(t)
  {
  }

  /** After a `list` of a mint nobody had listed, every listing, the new one included, is backed by its vault. */
  lemma ListKeepsBacking(s: Ledger, t: Ledger, signer: Wallet, listing: Address, sellerNft: Address, vault: Address,
                         nftMint: Address, escrow: Address, contract: Address, askMint: Address, ask: U64)
    requires WellFormed(s.accounts) && (forall l | l in s.listings :: Backed(s, l)) && OneListingPerMint(s)
    requires forall l | l in s.listings :: s.listings[l].mint != nftMint
    requires listing == ListingAddress(nftMint, signer) && listing !in s.listings
    requires nftMint in s.supply && s.supply[nftMint] == 1 && t.supply == s.supply
    requires sellerNft in s.accounts && s.accounts[sellerNft].owner == signer
    requires vault == VaultAddress(nftMint) && escrow == EscrowAddress(signer, askMint)
    requires t.listings == s.listings[listing := Listing(true, signer, nftMint, contract, askMint, ask)]
    requires s.accounts.Keys <= t.accounts.Keys && vault in t.accounts && escrow in t.accounts && t.accounts[vault].mint == nftMint
    requires Circulating(t.accounts, nftMint) == 1
    requires Balance(t.accounts, vault) == Balance(s.accounts, vault) + 1
    requires forall a | a != sellerNft && a != vault :: Balance(t.accounts, a) == Balance(s.accounts, a)
    ensures forall l | l in t.listings :: Backed(t, l)
    ensures OneListingPerMint(t)
  {
    var x := Listing(true, signer, nftMint, contract, askMint, ask);
    ListBacksNew(s, t, listing, sellerNft, vault, x);
    assert t.listings - {listing} == s.listings;
    ListKeepsOthersBacked(s, t, listing, sellerNft, nftMint);
    ListKeepsOneListingPerMint(s, t, listing, x);
  }

  /** After a `buy`, every remaining listing is still backed by its untouched vault. */
  lemma BuyKeepsBacking(s: Ledger, t: Ledger, signer: Wallet, source: Address, listing: Address,
                        escrow: Address, destination: Address, vault: Address)
    requires WellFormed(s.accounts) && (forall l | l in s.listings :: Backed(s, l)) && OneListingPerMint(s)
    requires listing in s.listings && t.supply == s.supply && s.accounts.Keys <= t.accounts.Keys
    requires source in s.accounts && s.accounts[source].owner == signer
    requires escrow == EscrowAddress(s.listings[listing].seller, s.listings[listing].askMint)
    requires vault == VaultAddress(s.listings[listing].mint) && destination.Associated?
    requires t.listings == s.listings - {listing}
    requires forall a ::
      Balance(t.accounts, a) == Balance(s.accounts, a)
        - (if a == source then s.listings[listing].ask else 0) + (if a == escrow then s.listings[listing].ask else 0)
        - (if a == vault then 1 else 0) + (if a == destination then 1 else 0)
    ensures forall l | l in t.listings :: Backed(t, l)
    ensures OneListingPerMint(t)
  {
    forall l | l in t.listings ensures Backed(t, l) {
      assert Backed(s, l);
      var v := VaultAddress(s.listings[l].mint);
      assert s.listings[l].mint != s.listings[listing].mint;
      assert AccountFits(v, s.accounts[v]);
      assert v != source;
      assert Balance(t.accounts, v) == Balance(s.accounts, v);
    }
  }

  lemma ListPreservesValid(s: Ledger, signer: Wallet, listing: Address, sellerNft: Address, vault: Address,
                           nftMint: Address, escrow: Address, contract: Address, askMint: Address, ask: U64)
    requires Valid(s) && List(s, signer, listing, sellerNft, vault, nftMint, escrow, contract, askMint, ask).Ok?
    ensures Valid(List(s, signer, listing, sellerNft, vault, nftMint, escrow, contract, askMint, ask).value)
  {
    var t := List(s, signer, listing, sellerNft, vault, nftMint, escrow, contract, askMint, ask).value;
    ListEvolves(s, signer, listing, sellerNft, vault, nftMint, escrow, contract, askMint, ask);
    EvolvesKeepsSupplyAndShape(s, t);
    assert Balance(t.accounts, sellerNft) == Balance(s.accounts, sellerNft) - 1;
    ListedMintWasFree(s, signer, sellerNft, nftMint);
    ListKeepsBacking(s, t, signer, listing, sellerNft, vault, nftMint, escrow, contract, askMint, ask);
  }

  lemma BuyPreservesValid(s: Ledger, signer: Wallet, seller: Address, source: Address, listing: Address,
                          escrow: Address, destination: Address, nftMint: Address, vault: Address)
    requires Valid(s) && Buy(s, signer, seller, source, listing, escrow, destination, nftMint, vault).Ok?
    ensures Valid(Buy(s, signer, seller, source, listing, escrow, destination, nftMint, vault).value)
  {
    var t := Buy(s, signer, seller, source, listing, escrow, destination, nftMint, vault).value;
    BuyEvolves(s, signer, seller, source, listing, escrow, destination, nftMint, vault);
    EvolvesKeepsSupplyAndShape(s, t);
    BuyKeepsBacking(s, t, signer, source, listing, escrow, destination, vault);
  }

  // ---------------------------------------------------------------------------
  // When the instructions succeed, and what a sale does to custody

  /**
   * On a valid ledger, `list` succeeds exactly when its account constraints
   * hold and the signer owns the seller token account and it holds the unit.
   */
  lemma ListSucceedsIff(s: Ledger, signer: Wallet, listing: Address, sellerNft: Address, vault: Address,
                        nftMint: Address, escrow: Address, contract: Address, askMint: Address, ask: U64)
    requires Valid(s)
    ensures List(s, signer, listing, sellerNft, vault, nftMint, escrow, contract, askMint, ask).Ok? <==>
      ListAccepted(s, signer, listing, sellerNft, vault, nftMint, escrow, askMint) &&
      s.accounts[sellerNft].owner == signer && s.accounts[sellerNft].amount >= 1
  {
    if ListAccepted(s, signer, listing, sellerNft, vault, nftMint, escrow, askMint) &&
       s.accounts[sellerNft].owner == signer && s.accounts[sellerNft].amount >= 1
    {
      ListGoesThrough(s, signer, listing, sellerNft, vault, nftMint, escrow, contract, askMint, ask);
    }
    if List(s, signer, listing, sellerNft, vault, nftMint, escrow, contract, askMint, ask).Ok? {
      WalletOwnedIsNotDerived(s.accounts, sellerNft);
    }
  }

  /** The token program accepts every leg of a `list` whose constraints hold on a well-formed ledger. */
  lemma ListGoesThrough(s: Ledger, signer: Wallet, listing: Address, sellerNft: Address, vault: Address,
                        nftMint: Address, escrow: Address, contract: Address, askMint: Address, ask: U64)
    requires WellFormed(s.accounts) && SupplyMatches(s)
    requires ListAccepted(s, signer, listing, sellerNft, vault, nftMint, escrow, askMint)
    requires s.accounts[sellerNft].owner == signer && s.accounts[sellerNft].amount >= 1
    ensures List(s, signer, listing, sellerNft, vault, nftMint, escrow, contract, askMint, ask).Ok?
  {
    if vault in s.accounts { assert AccountFits(vault, s.accounts[vault]); }
    if escrow in s.accounts { assert AccountFits(escrow, s.accounts[escrow]); }
    var withVault := InitIfNeeded(s.accounts, vault, nftMint, vault).value;
    var withEscrow := InitIfNeeded(withVault, escrow, askMint, escrow).value;
    WalletOwnedIsNotDerived(s.accounts, sellerNft);
    InitConserves(s.accounts, vault, nftMint, vault, nftMint);
    InitConserves(withVault, escrow, askMint, escrow, nftMint);
    PairBounded(withEscrow, vault, sellerNft, nftMint);
    assert Transfer(withEscrow, sellerNft, vault, signer, 1).Ok?;
  }

  /**
   * On a valid ledger, `buy` succeeds exactly when its account constraints
   * hold and the signer owns the source account and it covers the ask.
   */
  lemma BuySucceedsIff(s: Ledger, signer: Wallet, seller: Address, source: Address, listing: Address,
                       escrow: Address, destination: Address, nftMint: Address, vault: Address)
    requires Valid(s)
    ensures Buy(s, signer, seller, source, listing, escrow, destination, nftMint, vault).Ok? <==>
      BuyAccepted(s, signer, seller, source, listing, escrow, destination, nftMint, vault) &&
      s.accounts[source].owner == signer && s.accounts[source].amount >= s.listings[listing].ask
  {
    if BuyAccepted(s, signer, seller, source, listing, escrow, destination, nftMint, vault) &&
       s.accounts[source].owner == signer && s.accounts[source].amount >= s.listings[listing].ask
    {
      BuyGoesThrough(s, signer, seller, source, listing, escrow, destination, nftMint, vault);
    }
  }

  /** The token program accepts both legs of a `buy` whose constraints hold against a backed listing. */
  lemma BuyGoesThrough(s: Ledger, signer: Wallet, seller: Address, source: Address, listing: Address,
                       escrow: Address, destination: Address, nftMint: Address, vault: Address)
    requires WellFormed(s.accounts) && SupplyMatches(s)
    requires BuyAccepted(s, signer, seller, source, listing, escrow, destination, nftMint, vault) && Backed(s, listing)
    requires s.accounts[source].owner == signer && s.accounts[source].amount >= s.listings[listing].ask
    ensures Buy(s, signer, seller, source, listing, escrow, destination, nftMint, vault).Ok?
  {
    var l := s.listings[listing];
    assert AccountFits(escrow, s.accounts[escrow]);
    assert AccountFits(vault, s.accounts[vault]);
    if destination in s.accounts { assert AccountFits(destination, s.accounts[destination]); }
    WalletOwnedIsNotDerived(s.accounts, source);
    var withDestination := InitIfNeeded(s.accounts, destination, nftMint, signer).value;
    InitConserves(s.accounts, destination, nftMint, signer, l.askMint);
    InitConserves(s.accounts, destination, nftMint, signer, nftMint);
    PairBounded(withDestination, source, escrow, l.askMint);
    assert Transfer(withDestination, source, escrow, signer, l.ask).Ok?;
    var paid := Transfer(withDestination, source, escrow, signer, l.ask).value;
    TransferConserves(withDestination, source, escrow, signer, l.ask, nftMint);
    assert Balance(paid, vault) == 1;
    PairBounded(paid, vault, destination, nftMint);
    assert Transfer(paid, vault, destination, vault, 1).Ok?;
  }

  /** Custody after a sale, stated on the ledgers before and after it. */
  lemma SaleCustody(s: Ledger, t: Ledger, signer: Wallet, source: Address, listing: Address,
                    escrow: Address, destination: Address, vault: Address)
    requires Valid(s) && listing in s.listings
    requires source in s.accounts && s.accounts[source].owner == signer && s.accounts[source].amount >= s.listings[listing].ask
    requires escrow == EscrowAddress(s.listings[listing].seller, s.listings[listing].askMint)
    requires vault == VaultAddress(s.listings[listing].mint)
    requires destination == AssociatedAddress(signer, s.listings[listing].mint) && vault in t.accounts && destination in t.accounts
    requires forall a ::
      Balance(t.accounts, a) == Balance(s.accounts, a)
        - (if a == source then s.listings[listing].ask else 0) + (if a == escrow then s.listings[listing].ask else 0)
        - (if a == vault then 1 else 0) + (if a == destination then 1 else 0)
    ensures t.accounts[vault].amount == 0
    ensures t.accounts[destination].amount == 1
    ensures Balance(t.accounts, escrow) == Balance(s.accounts, escrow) + s.listings[listing].ask
  {
    assert Backed(s, listing);
    WalletOwnedIsNotDerived(s.accounts, source);
    assert Balance(t.accounts, vault) == Balance(s.accounts, vault) - 1;
    assert Balance(t.accounts, escrow) == Balance(s.accounts, escrow) + s.listings[listing].ask;
    if destination !in s.accounts {
      assert destination != source;
      assert Balance(t.accounts, destination) == 1;
    } else {
      assert AccountFits(destination, s.accounts[destination]);
      ListedUnitOnlyInVault(s, listing, destination);
      if source == destination {
        assert s.listings[listing].ask == 0;
      }
    }
  }

  /**
   * A sale empties the vault, leaves the buyer's associated account holding
   * the unit and credits the seller's escrow with the ask.
   */
  lemma BuyReleasesCustody(s: Ledger, signer: Wallet, seller: Address, source: Address, listing: Address,
                           escrow: Address, destination: Address, nftMint: Address, vault: Address)
    requires Valid(s) && Buy(s, signer, seller, source, listing, escrow, destination, nftMint, vault).Ok?
    ensures Buy(s, signer, seller, source, listing, escrow, destination, nftMint, vault).value.accounts[vault].amount == 0
    ensures Buy(s, signer, seller, source, listing, escrow, destination, nftMint, vault).value.accounts[destination].amount == 1
    ensures Balance(Buy(s, signer, seller, source, listing, escrow, destination, nftMint, vault).value.accounts, escrow)
         == Balance(s.accounts, escrow) + s.listings[listing].ask
  {
    var t := Buy(s, signer, seller, source, listing, escrow, destination, nftMint, vault).value;
    assert Backed(s, listing);
    SaleCustody(s, t, signer, source, listing, escrow, destination, vault);
  }

  /** A closed listing cannot be bought again: a second `buy` of it fails untouched. */
  lemma NoDoubleSale(s: Ledger, signer: Wallet, seller: Address, source: Address, listing: Address,
                     escrow: Address, destination: Address, nftMint: Address, vault: Address,
                     signer2: Wallet, seller2: Address, source2: Address,
                     escrow2: Address, destination2: Address, nftMint2: Address, vault2: Address)
    requires Buy(s, signer, seller, source, listing, escrow, destination, nftMint, vault).Ok?
    ensures Buy(Buy(s, signer, seller, source, listing, escrow, destination, nftMint, vault).value,
                signer2, seller2, source2, listing, escrow2, destination2, nftMint2, vault2) == Err(AccountNotInitialized)
  {
  }

  /** `list` never overwrites: an occupied listing address makes it fail. */
  lemma ListRejectsOccupied(s: Ledger, signer: Wallet, sellerNft: Address, vault: Address,
                            nftMint: Address, escrow: Address, contract: Address, askMint: Address, ask: U64)
    requires Valid(s) && ListingAddress(nftMint, signer) in s.listings
    ensures List(s, signer, ListingAddress(nftMint, signer), sellerNft, vault, nftMint, escrow, contract, askMint, ask)
         == Err(AccountAlreadyInUse)
  {
    assert Backed(s, ListingAddress(nftMint, signer));
  }

  /** A second `initialize` by another signer replaces the admin; nothing else changes. */
  lemma ReinitializeOverwritesAdmin(s: Ledger, first: Wallet, fee1: U64, scalar1: U64,
                                    second: Wallet, fee2: U64, scalar2: U64)
    ensures Initialize(Initialize(s, first, fee1, scalar1), second, fee2, scalar2).state == Some(State(second, fee2, scalar2))
    ensures Initialize(Initialize(s, first, fee1, scalar1), second, fee2, scalar2) == Initialize(s, second, fee2, scalar2)
  {
  }
}
