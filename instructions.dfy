/**
 * The five instructions of the lulo-dex program as functions from the ledger
 * before a transaction to its result. Anchor's account constraints become the
 * checks at the head of each function; a failed check or a failed token
 * transfer yields `Err`, and the whole transaction is then discarded (the
 * caller keeps the ledger it had).
 */
module Instructions {
  import opened Results
  import opened Keys
  import opened Token

  /** The global configuration account at `StateAddress()`. */
  datatype State = State(admin: Address, fee: U64, feeScalar: U64)

  /** One sale offer, stored at `ListingAddress(mint, seller)`. */
  datatype Listing = Listing(active: bool, seller: Address, mint: Address, contract: Address, askMint: Address, ask: U64)

  /**
   * Everything the program reads or writes: the configuration (absent until
   * `initialize` first runs), the listing accounts, the token accounts and
   * the supply of every mint account.
   */
  datatype Ledger = Ledger(
    state: Option<State>,
    listings: map<Address, Listing>,
    accounts: Accounts,
    supply: map<Address, U64>)

  /** The Anchor errors a transaction can fail with, plus the token program's. */
  datatype Error =
    | AccountNotInitialized    // a required account does not exist
    | AccountAlreadyInUse      // `init` of an address that is already allocated
    | ConstraintRaw            // a `constraint = ...` expression is false
    | ConstraintSeeds          // the supplied address is not the one its seeds derive
    | ConstraintTokenMint      // an existing token account holds another mint
    | ConstraintTokenOwner     // an existing token account has another owner
    | ConstraintAssociated     // the supplied address is not the associated token address
    | TokenProgram(cause: TokenError)

  /**
   * Anchor's `init_if_needed` for a token account: create it empty with the
   * given mint and authority, or accept an existing one that already has them.
   */
  function InitIfNeeded(accts: Accounts, addr: Address, mint: Address, owner: Address): (r: Result<Accounts, Error>)
    ensures r.Ok? <==> addr !in accts || (accts[addr].mint == mint && accts[addr].owner == owner)
    ensures r.Ok? ==> r.value.Keys == accts.Keys + {addr} && Extends(accts, r.value)
    ensures r.Ok? ==> r.value[addr].mint == mint && r.value[addr].owner == owner
    ensures r.Ok? ==> forall a :: Balance(r.value, a) == Balance(accts, a)
  {
    if addr !in accts then Ok(accts[addr := TokenAccount(mint, owner, 0)])
    else if accts[addr].mint != mint then Err(ConstraintTokenMint)
    else if accts[addr].owner != owner then Err(ConstraintTokenOwner)
    else Ok(accts)
  }

  /**
   * `initialize`: the state account is `init_if_needed`, so every call
   * succeeds and (re)writes admin, fee and fee scalar.
   */
  function Initialize(s: Ledger, signer: Wallet, fee: U64, feeScalar: U64): (r: Ledger)
    ensures r.state == Some(State(signer, fee, feeScalar))
    ensures r.listings == s.listings && r.accounts == s.accounts && r.supply == s.supply
  {
    s.(state := Some(State(signer, fee, feeScalar)))
  }

  /**
   * `create_vault`: only the admin may call it; its only effect is that the
   * vault token account of `mint` exists, with that mint and itself as authority.
   */
  function CreateVault(s: Ledger, signer: Wallet, vault: Address, mint: Address): (r: Result<Ledger, Error>)
    ensures r.Ok? ==> s.state.Some? && signer == s.state.value.admin
    ensures r.Ok? ==> mint in s.supply && vault == VaultAddress(mint)
    ensures r.Ok? ==> r.value.accounts.Keys == s.accounts.Keys + {vault} && Extends(s.accounts, r.value.accounts)
    ensures r.Ok? ==> r.value.accounts[vault].mint == mint && r.value.accounts[vault].owner == vault
    ensures r.Ok? ==> forall a :: Balance(r.value.accounts, a) == Balance(s.accounts, a)
    ensures r.Ok? ==> r.value.state == s.state && r.value.listings == s.listings && r.value.supply == s.supply
  {
    if s.state.None? then Err(AccountNotInitialized)
    else if signer != s.state.value.admin then Err(ConstraintRaw)
    else if mint !in s.supply then Err(AccountNotInitialized)
    else if vault != VaultAddress(mint) then Err(ConstraintSeeds)
    else
      match InitIfNeeded(s.accounts, vault, mint, vault)
      case Err(e) => Err(e)
      case Ok(accts) => Ok(s.(accounts := accts))
  }

  /**
   * `list`: record a sale offer of the supply-1 mint `nftMint` for `ask`
   * units of `askMint`, and move the one unit from `sellerNft` into the vault.
   */
  function List(s: Ledger, signer: Wallet, listing: Address, sellerNft: Address, vault: Address,
                nftMint: Address, escrow: Address, contract: Address, askMint: Address, ask: U64): (r: Result<Ledger, Error>)
    ensures r.Ok? ==> listing == ListingAddress(nftMint, signer) && listing !in s.listings
    ensures r.Ok? ==> nftMint in s.supply && s.supply[nftMint] == 1 && askMint in s.supply
    ensures r.Ok? ==> sellerNft in s.accounts && s.accounts[sellerNft].mint == nftMint && s.accounts[sellerNft].owner == signer
    ensures r.Ok? ==> vault == VaultAddress(nftMint) && escrow == EscrowAddress(signer, askMint)
    ensures r.Ok? ==> r.value.listings == s.listings[listing := Listing(true, signer, nftMint, contract, askMint, ask)]
    ensures r.Ok? ==> r.value.accounts.Keys == s.accounts.Keys + {vault, escrow} && Extends(s.accounts, r.value.accounts)
    ensures r.Ok? ==>
      r.value.accounts[vault].mint == nftMint && r.value.accounts[vault].owner == vault &&
      r.value.accounts[escrow].mint == askMint && r.value.accounts[escrow].owner == escrow
    ensures r.Ok? ==> forall a ::
      Balance(r.value.accounts, a) == Balance(s.accounts, a) - (if a == sellerNft then 1 else 0) + (if a == vault then 1 else 0)
    ensures r.Ok? ==> r.value.state == s.state && r.value.supply == s.supply
  {
    if nftMint !in s.supply then Err(AccountNotInitialized)
    else if listing != ListingAddress(nftMint, signer) then Err(ConstraintSeeds)
    else if listing in s.listings then Err(AccountAlreadyInUse)
    else if sellerNft !in s.accounts then Err(AccountNotInitialized)
    else if s.accounts[sellerNft].mint != nftMint then Err(ConstraintRaw)
    else if s.supply[nftMint] != 1 then Err(ConstraintRaw)
    else if askMint !in s.supply then Err(AccountNotInitialized)
    else if vault != VaultAddress(nftMint) then Err(ConstraintSeeds)
    else if escrow != EscrowAddress(signer, askMint) then Err(ConstraintSeeds)
    else
      match InitIfNeeded(s.accounts, vault, nftMint, vault)
      case Err(e) => Err(e)
      case Ok(withVault) =>
        match InitIfNeeded(withVault, escrow, askMint, escrow)
        case Err(e) => Err(e)
        case Ok(withEscrow) =>
          match Transfer(withEscrow, sellerNft, vault, signer, 1)
          case Err(e) => Err(TokenProgram(e))
          case Ok(accts) =>
            Ok(s.(listings := s.listings[listing := Listing(true, signer, nftMint, contract, askMint, ask)],
                  accounts := accts))
  }

  /**
   * `buy`: pay the listing's ask from `source` into the seller's escrow,
   * release the unit from the vault to the buyer's associated token account,
   * and close the listing.
   */
  function Buy(s: Ledger, signer: Wallet, seller: Address, source: Address, listing: Address,
               escrow: Address, destination: Address, nftMint: Address, vault: Address): (r: Result<Ledger, Error>)
    ensures r.Ok? ==> listing in s.listings && seller == s.listings[listing].seller
    ensures r.Ok? ==>
      listing in s.listings &&
      source in s.accounts && s.accounts[source].mint == s.listings[listing].askMint && s.accounts[source].owner == signer &&
      s.accounts[source].amount >= s.listings[listing].ask
    ensures r.Ok? ==>
      listing in s.listings &&
      escrow == EscrowAddress(s.listings[listing].seller, s.listings[listing].askMint) &&
      nftMint == s.listings[listing].mint && nftMint in s.supply && vault == VaultAddress(nftMint) &&
      destination == AssociatedAddress(signer, nftMint)
    ensures r.Ok? ==> escrow in s.accounts && vault in s.accounts
    ensures r.Ok? ==> r.value.listings == s.listings - {listing}
    ensures r.Ok? ==> r.value.accounts.Keys == s.accounts.Keys + {destination} && Extends(s.accounts, r.value.accounts)
    ensures r.Ok? ==> r.value.accounts[destination].mint == nftMint && r.value.accounts[destination].owner == signer
    ensures r.Ok? ==> listing in s.listings && forall a ::
      Balance(r.value.accounts, a) == Balance(s.accounts, a)
        - (if a == source then s.listings[listing].ask else 0) + (if a == escrow then s.listings[listing].ask else 0)
        - (if a == vault then 1 else 0) + (if a == destination then 1 else 0)
    ensures r.Ok? ==> r.value.state == s.state && r.value.supply == s.supply
  {
    if listing !in s.listings then Err(AccountNotInitialized)
    else
      var l := s.listings[listing];
      if seller != l.seller then Err(ConstraintRaw)
      else if source !in s.accounts then Err(AccountNotInitialized)
      else if s.accounts[source].mint != l.askMint then Err(ConstraintRaw)
      else if escrow != EscrowAddress(l.seller, l.askMint) then Err(ConstraintSeeds)
      else if escrow !in s.accounts then Err(AccountNotInitialized)
      else if nftMint !in s.supply then Err(AccountNotInitialized)
      else if nftMint != l.mint then Err(ConstraintRaw)
      else if vault != VaultAddress(nftMint) then Err(ConstraintSeeds)
      else if vault !in s.accounts then Err(AccountNotInitialized)
      else if destination != AssociatedAddress(signer, nftMint) then Err(ConstraintAssociated)
      else
        match InitIfNeeded(s.accounts, destination, nftMint, signer)
        case Err(e) => Err(e)
        case Ok(withDestination) =>
          match Transfer(withDestination, source, escrow, signer, l.ask)
          case Err(e) => Err(TokenProgram(e))
          case Ok(paid) =>
            match Transfer(paid, vault, destination, vault, 1)
            case Err(e) => Err(TokenProgram(e))
            case Ok(accts) => Ok(s.(listings := s.listings - {listing}, accounts := accts))
  }

  /**
   * `sell`: the handler does nothing, but its account constraints are still
   * checked and its `init_if_needed` may create the vault of `nftMint`. The
   * plain `vault` account is read before any account is created, so it must
   * exist in the ledger the call starts from.
   */
  function Sell(s: Ledger, sellerNft: Address, nftVault: Address, nftMint: Address,
                vault: Address, mint: Address, askMint: Address): (r: Result<Ledger, Error>)
    ensures r.Ok? ==>
      sellerNft in s.accounts && nftMint in s.supply && s.accounts[sellerNft].mint == nftMint && s.supply[nftMint] == 1
    ensures r.Ok? ==> nftVault == VaultAddress(nftMint) && mint in s.supply && vault == VaultAddress(mint) && askMint in s.supply
    ensures r.Ok? ==> r.value.accounts.Keys == s.accounts.Keys + {nftVault} && Extends(s.accounts, r.value.accounts)
    ensures r.Ok? ==> r.value.accounts[nftVault].mint == nftMint && r.value.accounts[nftVault].owner == nftVault
    ensures r.Ok? ==> vault in s.accounts
    ensures r.Ok? ==> forall a :: Balance(r.value.accounts, a) == Balance(s.accounts, a)
    ensures r.Ok? ==> r.value.state == s.state && r.value.listings == s.listings && r.value.supply == s.supply
  {
    if sellerNft !in s.accounts || nftMint !in s.supply then Err(AccountNotInitialized)
    else if s.accounts[sellerNft].mint != nftMint then Err(ConstraintRaw)
    else if nftVault != VaultAddress(nftMint) then Err(ConstraintSeeds)
    else if s.supply[nftMint] != 1 then Err(ConstraintRaw)
    else if mint !in s.supply || askMint !in s.supply then Err(AccountNotInitialized)
    else if vault != VaultAddress(mint) then Err(ConstraintSeeds)
    else if vault !in s.accounts then Err(AccountNotInitialized)
    else
      match InitIfNeeded(s.accounts, nftVault, nftMint, nftVault)
      case Err(e) => Err(e)
      case Ok(accts) => Ok(s.(accounts := accts))
  }
}
