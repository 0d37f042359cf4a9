/**
 * Addresses of the ledger and the program-derived addresses (PDAs) of the
 * marketplace. A PDA is modelled by the seed tuple it is derived from, so
 * derivation is injective by construction and no hashing or bump search is
 * involved. A PDA has no private key: only the program can sign for it.
 */
module Keys {

  /** The seed tuples the program derives its accounts from. */
  datatype Seed =
    | StateSeed                                      // ["state"]
    | VaultSeed(mint: Address)                       // ["vault", mint]
    | EscrowSeed(seller: Address, askMint: Address)  // ["escrow", seller, ask_mint]
    | ListingSeed(nftMint: Address, lister: Address) // ["listing", nft_mint, seller]

  datatype Address =
    | Key(id: nat)                                   // an address with a private key (wallet, mint, user token account)
    | Pda(seed: Seed)                                // derived from the program id and a seed tuple
    | Associated(wallet: Address, tokenMint: Address) // the associated token account of (wallet, mint)

  /** An address that can sign a transaction: one that has a private key. */
  type Wallet = a: Address | a.Key? witness Key(0)

  function StateAddress(): Address { Pda(StateSeed) }

  function VaultAddress(mint: Address): Address { Pda(VaultSeed(mint)) }

  function EscrowAddress(seller: Address, askMint: Address): Address { Pda(EscrowSeed(seller, askMint)) }

  function ListingAddress(nftMint: Address, seller: Address): Address { Pda(ListingSeed(nftMint, seller)) }

  function AssociatedAddress(wallet: Address, mint: Address): Address { Associated(wallet, mint) }

  /**
   * Derivation is injective per namespace, the namespaces never collide, and
   * no derived address is one a wallet could sign for.
   */
  lemma DerivationInjective(m1: Address, m2: Address, s1: Address, s2: Address)
    ensures VaultAddress(m1) == VaultAddress(m2) <==> m1 == m2
    ensures EscrowAddress(s1, m1) == EscrowAddress(s2, m2) <==> s1 == s2 && m1 == m2
    ensures ListingAddress(m1, s1) == ListingAddress(m2, s2) <==> m1 == m2 && s1 == s2
    ensures AssociatedAddress(s1, m1) == AssociatedAddress(s2, m2) <==> s1 == s2 && m1 == m2
    ensures VaultAddress(m1) != EscrowAddress(s1, m2) && VaultAddress(m1) != ListingAddress(m2, s1)
    ensures EscrowAddress(s1, m1) != ListingAddress(m2, s2) && StateAddress() != VaultAddress(m1)
    ensures !VaultAddress(m1).Key? && !EscrowAddress(s1, m1).Key? && !ListingAddress(m1, s1).Key? && !AssociatedAddress(s1, m1).Key?
    ensures StateAddress() != EscrowAddress(s1, m1) && StateAddress() != ListingAddress(m1, s1) && !StateAddress().Key?
  {
  }
}
