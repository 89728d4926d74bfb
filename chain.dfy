/**
 * The records the lending contract returns, as the dashboard reads them
 * through its ABI (web3-utils.js:9-41, frontend/web3-utils.js:9-37).
 * Amounts are exact integers in wei; ids, rates and timestamps are the
 * contract's unsigned integers.
 */
module Chain {

  datatype Option<+T> = None | Some(value: T)

  /** A wallet or contract address, as the hex string the provider hands out. */
  type Address = string

  /** One element of `getLoanRequests(user)`. */
  datatype LoanRequest = LoanRequest(
    requestId: nat,
    borrower: Address,
    amount: nat,
    interestRate: nat,
    durationDays: nat,
    reason: string,
    isApproved: bool,
    isActive: bool)

  /**
   * One element of `getUserLoans(user)`. `isLate` is the flag the system-wide
   * ledger of app.js tests; the tuple in the ABI has no such component, so a
   * loan decoded through that ABI carries `isLate == false`.
   */
  datatype Loan = Loan(
    loanId: nat,
    borrower: Address,
    principal: nat,
    interestRate: nat,
    issueDate: nat,
    dueDate: nat,
    repaidAmount: nat,
    totalAmountToRepay: nat,
    isRepaid: bool,
    isDefaulted: bool,
    isLate: bool)

  /** One element of `getFinancialHistory(user)`. */
  datatype HistoryEntry = HistoryEntry(
    activityType: string,
    amount: nat,
    description: string,
    timestamp: nat)

  /**
   * A per-user contract read: the array the contract returns for an address,
   * or `None` when that call throws.
   */
  type Fetch<T> = Address -> Option<seq<T>>

  /** JavaScript truthiness of an optional string: present and non-empty. */
  predicate Truthy(s: Option<string>)
  {
    s.Some? && s.value != ""
  }
}

/**
 * The groups of contract reads a dashboard refresh issues, in the order it
 * issues them; a trace of these records how far a refresh got before a
 * read failed or a branch returned.
 */
module Reads {

  datatype Read =
    | AdminLoaders  // the administrator panels' loaders
    | UserExists    // `userExists(user)`
    | CreditScore   // `getCreditScore(user)`
    | Profile       // basic info, stats, score breakdown and the user's loans
    | History       // `getFinancialHistory(user)`
    | Staking       // the staking panel's loader
}
