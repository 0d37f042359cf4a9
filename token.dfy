/**
 * An abstract SPL token ledger: token accounts keyed by address, each holding
 * a balance of one mint under one owner (its authority), and the single
 * operation the marketplace uses, `Transfer`. The token program's own code is
 * not part of this model; `Transfer` follows the documented checks of SPL
 * Token's transfer instruction.
 */
module Token {
  import opened Results
  import opened Keys

  const U64_MAX: int := 0xFFFF_FFFF_FFFF_FFFF

  /** Token amounts, supplies, prices and fee parameters are unsigned 64-bit integers. */
  type U64 = x: nat | x <= U64_MAX

  datatype TokenAccount = TokenAccount(mint: Address, owner: Address, amount: U64)

  type Accounts = map<Address, TokenAccount>

  datatype TokenError =
    | UninitializedAccount  // source or destination is not a token account
    | InsufficientFunds     // source balance below the amount
    | MintMismatch          // source and destination hold different mints
    | OwnerMismatch         // the authority is not the source's owner
    | Overflow              // the destination balance would exceed U64_MAX

  /** The balance at an address; an address without a token account holds nothing. */
  function Balance(accts: Accounts, a: Address): int {
    if a in accts then accts[a].amount else 0
  }

  /** What one account contributes to the circulating amount of `mint`. */
  function Held(acct: TokenAccount, mint: Address): nat {
    if acct.mint == mint then acct.amount else 0
  }

  /** Total amount of `mint` over all token accounts. */
  ghost function Circulating(accts: Accounts, mint: Address): nat
    decreases accts.Keys
  {
    if accts == map[] then 0
    else
      var a :| a in accts;
      Held(accts[a], mint) + Circulating(accts - {a}, mint)
  }

  /** Every account keeps its mint and owner, and accounts are only added. */
  predicate Extends(before: Accounts, after: Accounts) {
    before.Keys <= after.Keys &&
    forall a | a in before :: after[a].mint == before[a].mint && after[a].owner == before[a].owner
  }

  /**
   * SPL transfer of `amount` from `from` to `to`, signed by `authority`.
   * A transfer of an account to itself succeeds without changing anything.
   */
  function Transfer(accts: Accounts, from: Address, to: Address, authority: Address, amount: U64): (r: Result<Accounts, TokenError>)
    ensures r.Ok? <==>
      from in accts && to in accts && amount <= accts[from].amount &&
      accts[from].mint == accts[to].mint && accts[from].owner == authority &&
      (from == to || accts[to].amount + amount <= U64_MAX)
    ensures r.Err? && r.error == InsufficientFunds ==> from in accts && accts[from].amount < amount
    ensures r.Ok? ==> r.value.Keys == accts.Keys && Extends(accts, r.value)
    ensures r.Ok? ==> forall a ::
      Balance(r.value, a) == Balance(accts, a) - (if a == from then amount else 0) + (if a == to then amount else 0)
  {
    if from !in accts || to !in accts then Err(UninitializedAccount)
    else if accts[from].amount < amount then Err(InsufficientFunds)
    else if accts[from].mint != accts[to].mint then Err(MintMismatch)
    else if accts[from].owner != authority then Err(OwnerMismatch)
    else if from == to then Ok(accts)
    else if accts[to].amount + amount > U64_MAX then Err(Overflow)
    else
      var debited := accts[from := accts[from].(amount := accts[from].amount - amount)];
      Ok(debited[to := accts[to].(amount := accts[to].amount + amount)])
  }

  /** Removing one account takes exactly its contribution out of the total. */
  lemma CirculatingRemove(accts: Accounts, a: Address, mint: Address)
    requires a in accts
    ensures Circulating(accts, mint) == Held(accts[a], mint) + Circulating(accts - {a}, mint)
    decreases accts.Keys
  {
    var b :| b in accts && Circulating(accts, mint) == Held(accts[b], mint) + Circulating(accts - {b}, mint);
    if b != a {
      var rest := accts - {b};
      CirculatingRemove(rest, a, mint);
      CirculatingRemove(accts - {a}, b, mint);
      assert rest - {a} == accts - {a} - {b};
    }
  }

  /** Writing one account changes the total by the difference of its contributions. */
  lemma CirculatingUpdate(accts: Accounts, a: Address, acct: TokenAccount, mint: Address)
    ensures Circulating(accts[a := acct], mint) ==
      Circulating(accts, mint) - (if a in accts then Held(accts[a], mint) else 0) + Held(acct, mint)
  {
    CirculatingRemove(accts[a := acct], a, mint);
    assert accts[a := acct] - {a} == accts - {a};
    if a in accts {
      CirculatingRemove(accts, a, mint);
    } else {
      assert accts - {a} == accts;
    }
  }

  /** No two distinct accounts together hold more of a mint than circulates. */
  lemma PairBounded(accts: Accounts, a: Address, b: Address, mint: Address)
    requires a in accts && b in accts && a != b
    ensures Held(accts[a], mint) + Held(accts[b], mint) <= Circulating(accts, mint)
  {
    CirculatingRemove(accts, a, mint);
    CirculatingRemove(accts - {a}, b, mint);
  }

  /** No single account holds more of a mint than circulates. */
  lemma HeldBounded(accts: Accounts, a: Address, mint: Address)
    requires a in accts
    ensures Held(accts[a], mint) <= Circulating(accts, mint)
  {
    CirculatingRemove(accts, a, mint);
  }

  /** Opening a new, empty token account leaves every mint's total unchanged. */
  lemma OpenConserves(accts: Accounts, a: Address, mint: Address, owner: Address, m: Address)
    requires a !in accts
    ensures Circulating(accts[a := TokenAccount(mint, owner, 0)], m) == Circulating(accts, m)
  {
    CirculatingUpdate(accts, a, TokenAccount(mint, owner, 0), m);
  }

  /** A successful transfer conserves the total of every mint. */
  lemma TransferConserves(accts: Accounts, from: Address, to: Address, authority: Address, amount: U64, m: Address)
    requires Transfer(accts, from, to, authority, amount).Ok?
    ensures Circulating(Transfer(accts, from, to, authority, amount).value, m) == Circulating(accts, m)
  {
    if from != to {
      var debited := accts[from := accts[from].(amount := accts[from].amount - amount)];
      CirculatingUpdate(accts, from, debited[from], m);
      CirculatingUpdate(debited, to, accts[to].(amount := accts[to].amount + amount), m);
    }
  }
}
