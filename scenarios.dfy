/**
 * Worked end-to-end scenarios on concrete ledgers, following the repository's
 * integration script: the admin initializes the program with a fee of 25/1000
 * and opens the vault of the payment mint; a seller lists a one-off token for
 * one SOL (10^9 lamports of wrapped SOL); a buyer funded with ten SOL buys it.
 * Beside it: a buyer who cannot pay, a mint whose supply is not 1, and a second
 * `initialize`.
 */
module Scenarios {
  import opened Results
  import opened Keys
  import opened Token
  import opened Instructions
  import opened Invariants

  const Seller: Wallet := Key(1)
  const Buyer: Wallet := Key(2)
  const Admin: Wallet := Key(3)
  const NftMint: Address := Key(10)
  /** The wrapped-SOL mint the ask is paid in. */
  const PayMint: Address := Key(11)
  const Contract: Address := Key(30)
  /** The seller's and the buyer's token accounts are associated accounts, as the script creates them. */
  const SellerNft: Address := AssociatedAddress(Seller, NftMint)
  const BuyerFunds: Address := AssociatedAddress(Buyer, PayMint)

  const Fee: U64 := 25
  const FeeScalar: U64 := 1000
  /** One SOL in lamports. */
  const Ask: U64 := 1_000_000_000
  /** The buyer's wrapped-SOL funding: ten SOL. */
  const Funding: U64 := 10_000_000_000

  /**
   * Before the program runs: the seller holds all `units` of `NftMint`, the
   * buyer all `funds` of `PayMint`, and the supplies are exactly those holdings.
   */
  function Deployed(units: U64, funds: U64): Ledger {
    Ledger(None, map[],
           map[SellerNft := TokenAccount(NftMint, Seller, units), BuyerFunds := TokenAccount(PayMint, Buyer, funds)],
           map[NftMint := units, PayMint := funds])
  }

  /** The admin's two set-up transactions: `initialize`, then `create_vault` for the payment mint. */
  function Configure(s: Ledger): Result<Ledger, Error> {
    CreateVault(Initialize(s, Admin, Fee, FeeScalar), Admin, VaultAddress(PayMint), PayMint)
  }

  function ListIt(s: Ledger, ask: U64): Result<Ledger, Error> {
    List(s, Seller, ListingAddress(NftMint, Seller), SellerNft, VaultAddress(NftMint), NftMint,
         EscrowAddress(Seller, PayMint), Contract, PayMint, ask)
  }

  function BuyIt(s: Ledger): Result<Ledger, Error> {
    Buy(s, Buyer, Seller, BuyerFunds, ListingAddress(NftMint, Seller), EscrowAddress(Seller, PayMint),
        AssociatedAddress(Buyer, NftMint), NftMint, VaultAddress(NftMint))
  }

  /** The deployed ledger satisfies the marketplace invariant. */
  lemma DeployedValid(units: U64, funds: U64)
    ensures Valid(Deployed(units, funds))
  {
    var s := Deployed(units, funds);
    forall m | m in s.supply ensures Circulating(s.accounts, m) == s.supply[m] {
      CirculatingRemove(s.accounts, SellerNft, m);
      var rest := s.accounts - {SellerNft};
      assert rest == map[BuyerFunds := TokenAccount(PayMint, Buyer, funds)];
      CirculatingRemove(rest, BuyerFunds, m);
      assert rest - {BuyerFunds} == map[];
    }
  }

  /** What the ledger looks like after the admin's set-up. */
  predicate ConfiguredAs(c: Ledger, units: U64, funds: U64) {
    c.state == Some(State(Admin, Fee, FeeScalar)) && c.listings == map[] &&
    c.supply == Deployed(units, funds).supply &&
    c.accounts.Keys == {SellerNft, BuyerFunds, VaultAddress(PayMint)} &&
    c.accounts[SellerNft] == TokenAccount(NftMint, Seller, units) &&
    c.accounts[BuyerFunds] == TokenAccount(PayMint, Buyer, funds) &&
    c.accounts[VaultAddress(PayMint)] == TokenAccount(PayMint, VaultAddress(PayMint), 0)
  }

  /**
   * The set-up succeeds: the state records the admin, fee and fee scalar, and
   * the payment mint's vault exists with that mint and itself as authority.
   */
  lemma ConfigureStep(units: U64, funds: U64)
    ensures Configure(Deployed(units, funds)).Ok?
    ensures ConfiguredAs(Configure(Deployed(units, funds)).value, units, funds)
  {
    var i := Initialize(Deployed(units, funds), Admin, Fee, FeeScalar);
    var c := Configure(Deployed(units, funds)).value;
    assert Balance(c.accounts, SellerNft) == units && Balance(c.accounts, BuyerFunds) == funds;
    assert Balance(c.accounts, VaultAddress(PayMint)) == Balance(i.accounts, VaultAddress(PayMint)) == 0;
  }

  /** What the ledger looks like once the seller has listed: the facts a purchase depends on. */
  predicate ListedAs(listed: Ledger, funds: U64) {
    listed.supply == Deployed(1, funds).supply &&
    ListingAddress(NftMint, Seller) in listed.listings &&
    listed.listings[ListingAddress(NftMint, Seller)] == Listing(true, Seller, NftMint, Contract, PayMint, Ask) &&
    BuyerFunds in listed.accounts && listed.accounts[BuyerFunds] == TokenAccount(PayMint, Buyer, funds) &&
    VaultAddress(NftMint) in listed.accounts &&
    listed.accounts[VaultAddress(NftMint)] == TokenAccount(NftMint, VaultAddress(NftMint), 1) &&
    EscrowAddress(Seller, PayMint) in listed.accounts &&
    listed.accounts[EscrowAddress(Seller, PayMint)] == TokenAccount(PayMint, EscrowAddress(Seller, PayMint), 0) &&
    AssociatedAddress(Buyer, NftMint) !in listed.accounts
  }

  /** On the configured ledger the seller's listing passes every constraint and both token set-ups. */
  lemma ListingSucceeds(c: Ledger, funds: U64)
    requires ConfiguredAs(c, 1, funds)
    ensures ListIt(c, Ask).Ok?
  {
    var vault, escrow := VaultAddress(NftMint), EscrowAddress(Seller, PayMint);
    var withVault := InitIfNeeded(c.accounts, vault, NftMint, vault);
    assert withVault.Ok? && withVault.value[SellerNft] == TokenAccount(NftMint, Seller, 1);
    var withEscrow := InitIfNeeded(withVault.value, escrow, PayMint, escrow);
    assert withEscrow.Ok? && withEscrow.value[SellerNft] == TokenAccount(NftMint, Seller, 1);
    assert withEscrow.value[vault] == TokenAccount(NftMint, vault, 0);
    assert Transfer(withEscrow.value, SellerNft, vault, Seller, 1).Ok?;
  }

  /**
   * The listing records seller, mint, ask mint and ask, moves the unit into
   * the vault and opens the seller's empty escrow.
   */
  lemma ListingStep(c: Ledger, funds: U64)
    requires ConfiguredAs(c, 1, funds)
    ensures ListIt(c, Ask).Ok?
    ensures
      var listed := ListIt(c, Ask).value;
      ListedAs(listed, funds) && Balance(listed.accounts, SellerNft) == 0
  {
    ListingSucceeds(c, funds);
    ListedFromEffects(c, ListIt(c, Ask).value, funds);
  }

  /** The configured ledger with the effects `list` promises applied is the listed ledger. */
  lemma ListedFromEffects(c: Ledger, t: Ledger, funds: U64)
    requires ConfiguredAs(c, 1, funds) && t.supply == c.supply
    requires t.listings == c.listings[ListingAddress(NftMint, Seller) := Listing(true, Seller, NftMint, Contract, PayMint, Ask)]
    requires t.accounts.Keys == c.accounts.Keys + {VaultAddress(NftMint), EscrowAddress(Seller, PayMint)}
    requires Extends(c.accounts, t.accounts)
    requires t.accounts[VaultAddress(NftMint)].mint == NftMint && t.accounts[VaultAddress(NftMint)].owner == VaultAddress(NftMint)
    requires
      t.accounts[EscrowAddress(Seller, PayMint)].mint == PayMint &&
      t.accounts[EscrowAddress(Seller, PayMint)].owner == EscrowAddress(Seller, PayMint)
    requires forall a ::
      Balance(t.accounts, a) == Balance(c.accounts, a) - (if a == SellerNft then 1 else 0) + (if a == VaultAddress(NftMint) then 1 else 0)
    ensures ListedAs(t, funds) && Balance(t.accounts, SellerNft) == 0
  {
    var vault, escrow := VaultAddress(NftMint), EscrowAddress(Seller, PayMint);
    assert Balance(t.accounts, BuyerFunds) == Balance(c.accounts, BuyerFunds) == funds;
    assert Balance(t.accounts, vault) == Balance(c.accounts, vault) + 1 == 1;
    assert Balance(t.accounts, escrow) == Balance(c.accounts, escrow) == 0;
  }

  /**
   * From the listed ledger, the buyer funded with ten SOL pays one SOL and
   * receives the unit in a new associated account.
   */
  lemma PurchaseStep(listed: Ledger)
    requires ListedAs(listed, Funding)
    ensures BuyIt(listed).Ok?
    ensures
      var sold := BuyIt(listed).value;
      ListingAddress(NftMint, Seller) !in sold.listings &&
      Balance(sold.accounts, VaultAddress(NftMint)) == 0 &&
      Balance(sold.accounts, AssociatedAddress(Buyer, NftMint)) == 1 &&
      Balance(sold.accounts, EscrowAddress(Seller, PayMint)) == Ask &&
      Balance(sold.accounts, BuyerFunds) == Funding - Ask
  {
    var withDestination := InitIfNeeded(listed.accounts, AssociatedAddress(Buyer, NftMint), NftMint, Buyer);
    assert withDestination.Ok? && withDestination.value[BuyerFunds].amount == Funding;
  }

  /**
   * The script's run: set-up, list at one SOL, buy with ten. The buyer ends with
   * the unit and nine SOL, the seller's escrow with one SOL, the vault empty and
   * the listing closed; a second purchase fails.
   */
  lemma SaleScenario()
    ensures Configure(Deployed(1, Funding)).Ok?
    ensures
      var c := Configure(Deployed(1, Funding)).value;
      c.state == Some(State(Admin, Fee, FeeScalar)) &&
      c.accounts[VaultAddress(PayMint)].mint == PayMint && c.accounts[VaultAddress(PayMint)].owner == VaultAddress(PayMint)
    ensures ListIt(Configure(Deployed(1, Funding)).value, Ask).Ok?
    ensures
      var listed := ListIt(Configure(Deployed(1, Funding)).value, Ask).value;
      listed.listings[ListingAddress(NftMint, Seller)] == Listing(true, Seller, NftMint, Contract, PayMint, Ask) &&
      Balance(listed.accounts, VaultAddress(NftMint)) == 1 && Balance(listed.accounts, SellerNft) == 0
    ensures BuyIt(ListIt(Configure(Deployed(1, Funding)).value, Ask).value).Ok?
    ensures
      var sold := BuyIt(ListIt(Configure(Deployed(1, Funding)).value, Ask).value).value;
      ListingAddress(NftMint, Seller) !in sold.listings &&
      Balance(sold.accounts, VaultAddress(NftMint)) == 0 &&
      Balance(sold.accounts, AssociatedAddress(Buyer, NftMint)) == 1 &&
      Balance(sold.accounts, EscrowAddress(Seller, PayMint)) == Ask &&
      Balance(sold.accounts, BuyerFunds) == Funding - Ask
    ensures BuyIt(BuyIt(ListIt(Configure(Deployed(1, Funding)).value, Ask).value).value) == Err(AccountNotInitialized)
  {
    ConfigureStep(1, Funding);
    var c := Configure(Deployed(1, Funding)).value;
    ListingStep(c, Funding);
    PurchaseStep(ListIt(c, Ask).value);
  }

  /** Every ledger of the script's run, the one with a live listing included, satisfies the invariant. */
  lemma SaleKeepsValid()
    ensures Configure(Deployed(1, Funding)).Ok? && Valid(Configure(Deployed(1, Funding)).value)
    ensures ListIt(Configure(Deployed(1, Funding)).value, Ask).Ok?
    ensures
      var listed := ListIt(Configure(Deployed(1, Funding)).value, Ask).value;
      Valid(listed) && ListingAddress(NftMint, Seller) in listed.listings
    ensures BuyIt(ListIt(Configure(Deployed(1, Funding)).value, Ask).value).Ok?
    ensures Valid(BuyIt(ListIt(Configure(Deployed(1, Funding)).value, Ask).value).value)
  {
    var d := Deployed(1, Funding);
    DeployedValid(1, Funding);
    InitializePreservesValid(d, Admin, Fee, FeeScalar);
    ConfigureStep(1, Funding);
    CreateVaultPreservesValid(Initialize(d, Admin, Fee, FeeScalar), Admin, VaultAddress(PayMint), PayMint);
    var c := Configure(d).value;
    ListingStep(c, Funding);
    ListPreservesValid(c, Seller, ListingAddress(NftMint, Seller), SellerNft, VaultAddress(NftMint), NftMint,
                       EscrowAddress(Seller, PayMint), Contract, PayMint, Ask);
    var listed := ListIt(c, Ask).value;
    PurchaseStep(listed);
    BuyPreservesValid(listed, Buyer, Seller, BuyerFunds, ListingAddress(NftMint, Seller), EscrowAddress(Seller, PayMint),
                      AssociatedAddress(Buyer, NftMint), NftMint, VaultAddress(NftMint));
  }

  /** From a listed ledger where the buyer holds half the ask, the payment leg fails. */
  lemma ShortPurchaseStep(listed: Ledger)
    requires ListedAs(listed, Ask / 2)
    ensures BuyIt(listed) == Err(TokenProgram(InsufficientFunds))
  {
    var withDestination := InitIfNeeded(listed.accounts, AssociatedAddress(Buyer, NftMint), NftMint, Buyer);
    assert withDestination.Ok? && withDestination.value[BuyerFunds].amount == Ask / 2;
    assert Transfer(withDestination.value, BuyerFunds, EscrowAddress(Seller, PayMint), Buyer, Ask) == Err(InsufficientFunds);
  }

  /** A buyer funded with half a SOL cannot pay an ask of one SOL: the payment leg fails and the purchase with it. */
  lemma InsufficientPaymentScenario()
    ensures Configure(Deployed(1, Ask / 2)).Ok?
    ensures ListIt(Configure(Deployed(1, Ask / 2)).value, Ask).Ok?
    ensures BuyIt(ListIt(Configure(Deployed(1, Ask / 2)).value, Ask).value) == Err(TokenProgram(InsufficientFunds))
  {
    ConfigureStep(1, Ask / 2);
    var c := Configure(Deployed(1, Ask / 2)).value;
    ListingStep(c, Ask / 2);
    ShortPurchaseStep(ListIt(c, Ask).value);
  }

  /** A mint with supply 5, all held by the seller, cannot be listed. */
  lemma FungibleListingScenario()
    ensures Configure(Deployed(5, Funding)).Ok?
    ensures ListIt(Configure(Deployed(5, Funding)).value, Ask) == Err(ConstraintRaw)
  {
    ConfigureStep(5, Funding);
  }

  /**
   * `sell` naming the token's own vault as `vault` before that vault exists is
   * rejected, although its `init_if_needed` would have created that account.
   */
  lemma SellWithoutVaultScenario()
    ensures Sell(Deployed(1, Funding), SellerNft, VaultAddress(NftMint), NftMint, VaultAddress(NftMint), NftMint, PayMint)
         == Err(AccountNotInitialized)
    ensures Sell(ListIt(Configure(Deployed(1, Funding)).value, Ask).value, SellerNft, VaultAddress(NftMint), NftMint,
                 VaultAddress(NftMint), NftMint, PayMint).Ok?
  {
    ConfigureStep(1, Funding);
    ListingStep(Configure(Deployed(1, Funding)).value, Funding);
  }

  /** Whoever calls `initialize` last is the admin, and only that admin may create vaults. */
  lemma ReinitializeScenario()
    ensures Initialize(Initialize(Deployed(1, 0), Admin, Fee, FeeScalar), Seller, 0, 1).state == Some(State(Seller, 0, 1))
    ensures CreateVault(Initialize(Initialize(Deployed(1, 0), Admin, Fee, FeeScalar), Seller, 0, 1),
                        Admin, VaultAddress(PayMint), PayMint) == Err(ConstraintRaw)
    ensures CreateVault(Initialize(Initialize(Deployed(1, 0), Admin, Fee, FeeScalar), Seller, 0, 1),
                        Seller, VaultAddress(PayMint), PayMint).Ok?
  {
  }
}
