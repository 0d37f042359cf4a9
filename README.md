# lulo-dex escrow marketplace, modelled in Dafny

This project models the on-chain escrow marketplace `lulo_dex`, an Anchor program for Solana. The model proves that the program keeps custody of listed tokens and that each sale is an atomic swap.

The program has five instructions:

- `initialize` writes the global `State` record: `admin`, `fee` and `fee_scalar`.
- `create_vault` lets the admin open the program's vault token account for a mint.
- `list` records a sale offer for a token whose mint supply is 1, and moves that one unit into the vault.
- `buy` pays the ask price from the buyer's account into the seller's escrow. It then releases the unit from the vault to the buyer's associated token account and closes the listing.
- `sell` checks its accounts and otherwise does nothing.

The model has these layers:

- `Keys`: program-derived addresses (PDAs).
  - A PDA is represented by its seed tuple: `["vault", mint]`, `["escrow", seller, ask_mint]`, `["listing", nft_mint, seller]` or `["state"]`. Derivation is therefore injective, and no hashing or bump search is involved.
  - A PDA has no private key. Signers have the type `Wallet`, which is the set of addresses that have a key.
- `Token`: the token ledger that the program drives through the SPL Token program.
  - A map from address to token account, where an account is a mint, an owner and a `u64` amount.
  - SPL `transfer`, with its failure cases: missing account, insufficient funds, mint mismatch, wrong authority and overflow.
  - `Circulating`, the total amount of a mint over all accounts, which transfers and account creation conserve.
- `Instructions`: each instruction as a function from a ledger snapshot to a new snapshot or an error.
  - A snapshot holds the state record, the listing accounts, the token accounts and the mint supplies.
  - The Anchor account constraints become the checks that can fail: `init`, `init_if_needed`, `seeds`, `constraint = …`, `token::mint`/`token::authority` and `associated_token::…`.
- `Invariants`: the ledger invariant `Valid`, which every instruction preserves. `Valid` states:
  - every token account fits its address;
  - supplies match the circulating totals;
  - every listing is active, sits at its derived address and is backed by the single unit of its mint in that mint's vault;
  - there is at most one listing per mint.

  The module also proves, for `list` and `buy`, the exact conditions under which each one succeeds, and what a sale does to custody.
- `Transactions`: runs of arbitrary instruction sequences. A failed transaction is discarded. The lemmas here hold on every reachable ledger.
- `Program`: the class `Dex`.
  - Its fields `state`, `listings` and `accounts` are updated in place by one method per instruction.
  - Each method checks the accounts and stages every effect on local copies. It writes the fields only when all steps have succeeded, which gives the all-or-nothing commit of a transaction.
  - Each method is proved equal to its instruction function and to keep `Valid`.
- `Scenarios`: the run of the repository's integration script on concrete ledgers. The admin calls `initialize` with a fee of 25/1000 and opens the wrapped-SOL vault. The seller lists a supply-1 token at one SOL (10^9 lamports). A buyer funded with ten SOL buys it. Three failure cases use illustrative amounts: a buyer with half a SOL, a mint of supply 5, and a second `initialize`.

Custody facts that follow from the code:

- An escrow is owned by itself, and no instruction signs for it. So no transaction ever debits an escrow (`Transactions.RunEscrowNeverDebited`).
  - The consequence: the program offers no way to withdraw sale proceeds. `list` makes the escrow PDA `["escrow", seller, ask_mint]` its own token authority (lib.rs:185-191). The seller's key is not that authority. No instruction of the program signs with the escrow's seeds. So what a buyer pays stays in the escrow for good.
- `buy` sets `listing.active = false` and then closes the listing account (`close = seller`). The flag is never read, so the model removes the listing. Closing the account is the only thing that prevents a second sale (`Invariants.NoDoubleSale`).

Further facts about the code that the model reproduces:

- `buy` never reads `listing.active`. The flag is written at lib.rs:31 and lib.rs:85 and read nowhere. So a missing listing makes `buy` fail only as "account not initialized".
- `buy` pays into the PDA `["escrow", seller, ask_mint]` (lib.rs:234-237). It does not pay into a wallet of the seller.
- `sell` (lib.rs:89-91) has an empty body. Apart from its account checks, its only effect is that its `init_if_needed` may create the vault.

## Model

| member | source | states |
|---|---|---|
| Keys.DerivationInjective | programs/lulo-dex/src/lib.rs:160-193 | Vault, escrow, listing and associated addresses are each equal exactly when their seeds are equal. The state address differs from every vault, escrow and listing address, and vault, escrow and listing addresses never coincide. No derived or associated address, the state address included, is a signer's address |
| Token.Transfer | programs/lulo-dex/src/lib.rs:35-46 | An SPL transfer succeeds exactly when both accounts exist, the source covers the amount, the mints match, the authority owns the source and the destination cannot overflow `u64`. "Insufficient funds" means the balance is below the amount. On success no account appears or disappears, mints and owners are kept, and the balances change by moving `amount` from source to destination |
| Token.TransferConserves | programs/lulo-dex/src/lib.rs:55-83 | A successful transfer leaves the circulating total of every mint unchanged |
| Token.OpenConserves | programs/lulo-dex/src/lib.rs:172-193 | Opening an empty token account leaves every mint's total unchanged |
| Token.PairBounded | programs/lulo-dex/src/lib.rs:181-183 | Two distinct accounts together hold no more of a mint than circulates |
| Instructions.InitIfNeeded | programs/lulo-dex/src/lib.rs:172-180 | `init_if_needed` on a token account succeeds exactly when the account is absent or already has the required mint and authority. Afterwards it exists with that mint and authority, no other account is added, and no balance changes |
| Instructions.Initialize | programs/lulo-dex/src/lib.rs:11-17 | `initialize` always succeeds, sets admin to the signer, stores fee and fee scalar as given, and changes nothing else |
| Instructions.CreateVault | programs/lulo-dex/src/lib.rs:123-135 | `create_vault` succeeds only for the admin of an existing state, with an existing mint and the vault at `["vault", mint]`. It leaves that vault existing with the mint and itself as authority, and changes no balance, listing, state or supply |
| Instructions.List | programs/lulo-dex/src/lib.rs:24-48 | A successful `list` has all its constraints satisfied. It writes the listing at `["listing", nft_mint, signer]` with `active = true`, `seller = signer` and the mints, contract and ask as supplied. It moves exactly one unit from the seller's account to the vault, changes no other balance, and leaves the vault and escrow existing with their mints and authorities |
| Instructions.Buy | programs/lulo-dex/src/lib.rs:50-87 | A successful `buy` has all its constraints satisfied: the listing, the source, the escrow and the vault already exist, and the source covers the ask. It debits the source by the ask, credits the escrow by the ask, debits the vault by 1 and credits the buyer's associated account by 1. It removes the listing and changes nothing else |
| Instructions.Sell | programs/lulo-dex/src/lib.rs:262-298 | A successful `sell` has its constraints satisfied; in particular the `vault` account of `mint` already existed before the call. Its only effect is that the vault of `nft_mint` exists. No balance, listing, state or supply changes |
| Invariants.ListConservesSupply | programs/lulo-dex/src/lib.rs:35-46 | `list` conserves the circulating total of every mint |
| Invariants.BuyConservesSupply | programs/lulo-dex/src/lib.rs:55-83 | `buy` conserves the circulating total of every mint |
| Invariants.CreateVaultConservesSupply | programs/lulo-dex/src/lib.rs:127-135 | `create_vault` conserves the circulating total of every mint |
| Invariants.SellConservesSupply | programs/lulo-dex/src/lib.rs:270-278 | `sell` conserves the circulating total of every mint |
| Invariants.WalletOwnedIsNotDerived | programs/lulo-dex/src/lib.rs:172-193 | On a well-formed ledger, an account owned by a wallet is never a vault or an escrow |
| Invariants.NftAtMostOne | programs/lulo-dex/src/lib.rs:181-183 | On a valid ledger, no account holds more than one unit of a supply-1 mint |
| Invariants.ListedUnitOnlyInVault | programs/lulo-dex/src/lib.rs:34-46 | While a mint is listed, every account of that mint other than its vault holds nothing |
| Invariants.InitializePreservesValid | programs/lulo-dex/src/lib.rs:11-17 | `initialize` keeps the ledger invariant |
| Invariants.CreateVaultPreservesValid | programs/lulo-dex/src/lib.rs:20-22 | A successful `create_vault` keeps the ledger invariant |
| Invariants.SellPreservesValid | programs/lulo-dex/src/lib.rs:89-91 | A successful `sell` keeps the ledger invariant |
| Invariants.ListEvolves | programs/lulo-dex/src/lib.rs:24-48 | `list` keeps supplies, only adds accounts, keeps mints and owners, and conserves every mint's total |
| Invariants.BuyEvolves | programs/lulo-dex/src/lib.rs:50-87 | `buy` keeps supplies, only adds accounts, keeps mints and owners, and conserves every mint's total |
| Invariants.ListedMintWasFree | programs/lulo-dex/src/lib.rs:181-183 | If a seller holds the unit of a supply-1 mint, no listing of that mint exists |
| Invariants.ListKeepsBacking | programs/lulo-dex/src/lib.rs:160-193 | After a `list` of an unlisted mint, the new listing and every old one is backed by one unit in its vault, and there is still one listing per mint |
| Invariants.BuyKeepsBacking | programs/lulo-dex/src/lib.rs:230-255 | After a `buy`, every remaining listing is still backed by its untouched vault, and there is still one listing per mint |
| Invariants.ListPreservesValid | programs/lulo-dex/src/lib.rs:24-48 | A successful `list` keeps the ledger invariant |
| Invariants.BuyPreservesValid | programs/lulo-dex/src/lib.rs:50-87 | A successful `buy` keeps the ledger invariant |
| Invariants.ListSucceedsIff | programs/lulo-dex/src/lib.rs:156-202 | On a valid ledger, `list` succeeds if and only if all of the following hold: the mint has supply 1; the ask mint exists; the listing address is the derived one and is free; the seller account has the mint and is owned by the signer and holds the unit; and the vault and escrow are the derived addresses |
| Invariants.BuySucceedsIff | programs/lulo-dex/src/lib.rs:216-260 | On a valid ledger, `buy` succeeds if and only if all of the following hold: the listing exists; the seller matches; the source has the ask mint and is the signer's and covers the ask; the escrow and vault are the derived addresses; the mint is the listed one; and the destination is the signer's associated account |
| Invariants.SaleCustody | programs/lulo-dex/src/lib.rs:55-83 | Given the balance changes of a sale on a valid ledger, the vault ends at 0, the destination at 1, and the escrow has gained the ask |
| Invariants.BuyReleasesCustody | programs/lulo-dex/src/lib.rs:55-83 | After a successful `buy` on a valid ledger, the vault holds 0, the buyer's destination holds 1 and the escrow has gained exactly the ask |
| Invariants.NoDoubleSale | programs/lulo-dex/src/lib.rs:230-233 | After a successful `buy`, any second `buy` of the same listing fails as "account not initialized" |
| Invariants.ListRejectsOccupied | programs/lulo-dex/src/lib.rs:160-167 | `list` onto an occupied listing address fails as "already in use" and never overwrites |
| Invariants.ReinitializeOverwritesAdmin | programs/lulo-dex/src/lib.rs:103-110 | A second `initialize` succeeds and replaces admin, fee and fee scalar; the result is as if only the second call had happened |
| Transactions.StepPreservesValid | programs/lulo-dex/src/lib.rs:11-91 | Any one transaction, successful or discarded, keeps the ledger invariant |
| Transactions.RunPreservesValid | programs/lulo-dex/src/lib.rs:7-92 | Every ledger reached from a valid one by any sequence of transactions is valid |
| Transactions.StepConservesSupply | programs/lulo-dex/src/lib.rs:11-91 | On any ledger, one transaction, committed or discarded, changes no supply and no mint's circulating total |
| Transactions.RunConservesSupply | programs/lulo-dex/src/lib.rs:35-83 | On any ledger, no sequence of transactions changes a mint's supply or its circulating total |
| Transactions.EscrowNeverDebited | programs/lulo-dex/src/lib.rs:185-193 | No transaction lowers the balance of an escrow |
| Transactions.RunEscrowNeverDebited | programs/lulo-dex/src/lib.rs:185-193 | No sequence of transactions lowers the balance of an escrow |
| Transactions.CustodyReleasedOnlyBySale | programs/lulo-dex/src/lib.rs:67-83 | If a transaction lowers a vault's balance, it is a successful `buy` of the listing of that vault's mint. It closes the listing and credits that seller's escrow with the ask |
| Program.Dex.constructor | programs/lulo-dex/src/lib.rs:316-321 | A deployed program has no state record and no listings, over the given token accounts and mints. If those accounts are well formed, belong to the given mints and add up to their supplies, the new program satisfies `Valid` |
| Program.Dex.Initialize | programs/lulo-dex/src/lib.rs:11-17 | Sets the state record to the signer, fee and fee scalar, leaves listings and accounts as they were, and keeps `Valid` |
| Program.Dex.CreateVault | programs/lulo-dex/src/lib.rs:20-22 | Reports the outcome of `create_vault` and commits its result only on success; on failure nothing changes; keeps `Valid` |
| Program.Dex.List | programs/lulo-dex/src/lib.rs:24-48 | Reports the outcome of `list`, commits the listing and the deposit only on success, changes nothing on failure, and keeps `Valid` |
| Program.Dex.Buy | programs/lulo-dex/src/lib.rs:50-87 | Reports the outcome of `buy`, commits both transfer legs and the closing only together, changes nothing if either leg fails, and keeps `Valid` |
| Program.Dex.Sell | programs/lulo-dex/src/lib.rs:89-91 | Reports the outcome of `sell`, never changes listings or state, and keeps `Valid` |
| Scenarios.DeployedValid | tests/lulo-dex.ts:61-105 | The script's starting ledger is valid: the seller holds the whole supply of the token, the buyer the whole wrapped-SOL funding |
| Scenarios.ConfigureStep | tests/lulo-dex.ts:156-193 | `initialize` with fee 25 and fee scalar 1000, then `create_vault` for the wrapped-SOL mint, both by the admin, succeed. The state records the admin, fee and fee scalar, and the new vault is empty with that mint and itself as authority |
| Scenarios.ListingStep | tests/lulo-dex.ts:195-220 | On the configured ledger, listing the seller's supply-1 token at one SOL succeeds. It records seller, mint, ask mint and ask, moves the unit into the vault, and opens an empty escrow |
| Scenarios.PurchaseStep | tests/lulo-dex.ts:222-243 | Buying that listing with ten SOL available succeeds. The buyer's new associated account ends with 1, the vault with 0, the escrow with one SOL and the buyer with nine SOL, and the listing is closed |
| Scenarios.SaleScenario | tests/lulo-dex.ts:156-243 | The script's whole run (initialize, create the vault, list, buy) succeeds step by step with the balances above; a second purchase fails as "account not initialized" |
| Scenarios.SaleKeepsValid | tests/lulo-dex.ts:156-243 | Every ledger of that run satisfies `Valid`, the one holding a live listing included |
| Scenarios.InsufficientPaymentScenario | programs/lulo-dex/src/lib.rs:55-66 | A buyer funded with half a SOL cannot pay an ask of one SOL; the purchase fails with the token program's insufficient-funds error |
| Scenarios.FungibleListingScenario | programs/lulo-dex/src/lib.rs:181-183 | A mint with supply 5 cannot be listed |
| Scenarios.SellWithoutVaultScenario | programs/lulo-dex/src/lib.rs:270-287 | `sell` naming the token's own, not yet created vault as `vault` fails as "account not initialized"; once `list` has created that vault, the same call succeeds |
| Scenarios.ReinitializeScenario | programs/lulo-dex/src/lib.rs:103-110 | After a second `initialize` by another signer, only that new admin can create a vault |

## Left out

- Lamports, rent, `space`, the payer of each `init`, and the lamport refund to `seller` when a listing is closed: these are resource accounting on the host ledger and do not affect token custody.
- Signature verification: a signer is any `Wallet`, which is an address with a key. PDAs cannot sign.
- The SPL Token and Associated Token programs are not part of this model beyond `transfer` and token-account creation. Delegates, freezing, close-authority and native-SOL wrapping are left out.
- PDA hashing and bump search: addresses are injective seed constructors, so two different seeds never give the same address.
- Minting and burning happen outside the program, so the model keeps mint supplies fixed. That includes the `mint_to` and wrapped-SOL set-up of the test script. `list` checks only that the supply is 1 (lib.rs:181-183), not that the mint authority has been given up, and the script's token keeps its mint authority (ts:61-67). So the backing fact in `Valid` (the listed unit is the only one, and it sits in the vault) holds only while nobody mints more of a listed token.
- User-to-user token transfers outside the program are also not modelled. The invariants are stated over ledgers that only this program changes.
- `fee` and `fee_scalar`: they are stored but never applied in any transfer, so the model stores them and nothing more.
- `contract`: it is stored in the listing but never checked, so the model stores it as supplied.
- Check order inside one instruction: Anchor validates accounts in a fixed order that the model does not reproduce. Which error an instruction returns when several constraints fail is the model's choice. Whether the instruction succeeds is exactly the conjunction of the constraints. Accounts without `init` or `init_if_needed` are read against the ledger as it was before the call, because Anchor loads them before it creates any account.
- The `state` account of `create_vault`: it has no seed constraint. The model has a single state record, which is the only `State` account the program ever creates.
- The state record's own account creation in `initialize` (`init_if_needed` on `["state"]`) always succeeds in the model. Failures of creation for lack of lamports belong to the rent accounting above.
