/**
 The records of the bank: transactions, accounts, the capacities of the
 account table and of each account's history, and the outcome codes that
 the ledger operations report instead of printing a message.

 Money is counted in whole cents as an unbounded integer.
 */
module BankTypes {

  /** Capacity of the account table. */
  const MAX_ACCOUNTS: nat := 100
  /** Capacity of the transaction history of one account. */
  const MAX_TRANSACTIONS: nat := 100
  /** Number of characters in a PIN. */
  const PIN_LENGTH: nat := 4
  /** Largest number of characters in a password. */
  const PASSWORD_LENGTH: nat := 8

  /** The range of numbers the account-number generator can produce. */
  type AccountNumber = n: int | 100000 <= n <= 999999 witness 100000

  /** What a transaction records. */
  datatype TransactionKind = Deposit | Withdrawal | AccountCreation | AccountDeletion

  /** The text stored in a transaction's `type` buffer for this kind. */
  function Label(kind: TransactionKind): (r: string)
    ensures 0 < |r| < 20  // fits the 20-byte buffer with its terminator
  {
    match kind
    case Deposit => "Deposit"
    case Withdrawal => "Withdrawal"
    case AccountCreation => "Account Creation"
    case AccountDeletion => "Account Deletion"
  }

  /**
   Distinct kinds are stored under distinct labels, so keeping the kind
   instead of the label text loses nothing.
   */
  lemma LabelsDistinct(k1: TransactionKind, k2: TransactionKind)
    ensures Label(k1) == Label(k2) <==> k1 == k2
  {
  }

  /** One entry of an account's history; `amount` is 0 for creation. */
  datatype Transaction = Transaction(kind: TransactionKind, amount: int, date: string, time: string)

  /** One slot of the account table; `isActive == false` marks a soft-deleted account. */
  datatype Account = Account(
    accountNumber: int,
    name: string,
    balance: int,
    pin: string,
    password: string,
    transactions: seq<Transaction>,
    isActive: bool)

  /** The zero-initialised slot a fresh table holds beyond its count. */
  const Blank: Account := Account(0, "", 0, "", "", [], false)

  /** Why an operation refused to act. */
  datatype Error =
    | AccountNotFound
    | InvalidPin
    | InvalidCredentials
    | InvalidAmount
    | InsufficientBalance
    | TableFull
    | ValidationFailed

  datatype Result<T> = Ok(value: T) | Err(error: Error)

  /** What `checkBalance` shows the account holder. */
  datatype BalanceInfo = BalanceInfo(name: string, accountNumber: int, balance: int)

  /** What `viewTransactionHistory` shows the account holder. */
  datatype History = History(name: string, accountNumber: int, transactions: seq<Transaction>)
}
