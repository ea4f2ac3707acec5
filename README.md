# Bank account system — verified model of the account table

This project models the core of a small console banking program. The program keeps
a fixed-capacity table of up to 100 accounts in memory, plus a count of the slots in
use. Each account holds a 6-digit number, a holder name, a balance, a 4-digit PIN,
an 8-character password, an active flag and a history of up to 100 transactions.
Accounts are soft-deleted: the active flag is cleared and the record stays in the table.

The model has five modules:

- `BankTypes` (`bank_types.dfy`): the records (`Transaction`, `Account`), the capacities,
  the range of account numbers and the outcome codes. The C program prints a message
  in these cases; the model returns `Err(...)` instead.
- `Validators` (`validators.dfy`): the PIN and password format rules. Each is written
  as a predicate (`IsPin`, `IsPassword`) and as the character-scanning method the
  program runs (`ValidatePin`, `ValidatePassword`). Each method is proved equal to
  its predicate.
- `Ledger` (`ledger.dfy`): every operation as a function over the filled part of
  the table, `accounts[0..accountCount)`. The functions give the outcome and the
  table afterwards. They cover lookup, creation, deposit, withdrawal, the balance
  and history queries, soft deletion and the login credential check. Their
  `ensures` clauses give each error case in both directions, say exactly what
  changes on success, and show that the table invariant is kept.
- `BankSystem` (`bank_system.dfy`): the class `Bank`. It holds the `accounts` array
  (length 100) and `accountCount`, and its methods update them in place, in the same
  order as the C code: lookup, then the credential check, then the amount checks,
  then the guarded append. Each method is proved to agree with its `Ledger`
  function. `Valid()` states the invariants: count ≤ 100, every history ≤ 100,
  balance ≥ 0, well-formed PIN and password, number in 100000..999999.
- `LedgerProperties` (`ledger_properties.dfy`): properties of sequences of operations:
  - every sequence of operations keeps the invariants;
  - the table only grows, histories only grow at their end, and a deleted account is
    frozen and can never be found again;
  - two identical deposits are two monetary events;
  - the worked session with "Alice".

Money is counted in whole cents as an unbounded integer. Strings are `seq<char>`, and
`strcmp(a, b) == 0` is sequence equality. The account number comes from a random
generator and the date and time from the clock, so they are parameters. The account
number has type `AccountNumber`, the generator's range 100000..999999.

Soft deletion appends an Account Deletion record whose amount is the balance at
deletion; the balance itself is not reset.

Account numbers are not unique: `createAccount` stores the generated number with no
collision check (bank_system.c:225). So after a deletion, `findAccount` on that number
reaches any other active account with the same number. `Ledger.Delete` proves that the
deleted index is never returned again. `LedgerProperties.DeleteUniqueNotFound` proves
that the lookup reports not found when the number is unique, and
`LedgerProperties.DeleteWithSharedNumber` exhibits the shared-number case.

`createAccount` checks the capacity first and then re-prompts until the PIN and the
password are well formed (bank_system.c:234-256). The model keeps that order but
replaces the re-prompting with an `Err(ValidationFailed)` outcome that the caller
may retry.

## Model

| member | source | states |
|---|---|---|
| `BankTypes.Label` | bank_system.c:15 | every transaction label is non-empty and fits the 20-byte `type` buffer with its terminator |
| `BankTypes.LabelsDistinct` | bank_system.c:15 | the four labels copied into `type` (at 265, 396, 456 and 584) are pairwise distinct, so storing the kind instead of the text loses nothing |
| `Validators.ValidatePin` | bank_system.c:110-121 | returns true exactly when the string has length 4 and every character is `0`..`9` |
| `Validators.ValidatePassword` | bank_system.c:123-137 | returns true exactly when the length is 8 and the string has at least one upper-case letter, one lower-case letter and one digit; other characters count toward no class |
| `Ledger.Find` | bank_system.c:280-287 | returns -1 exactly when no account in the table is active with that number; otherwise returns an active match with no match before it, so an inactive account is never returned |
| `Ledger.Append` | bank_system.c:401-403 | the history is append-only: old entries are kept in order, the new entry is added only below capacity, a full history drops it, and the capacity bound is kept |
| `Ledger.Create` | bank_system.c:218-274 | a full table gives `TableFull` and no change; a malformed PIN or password gives `ValidationFailed` and no change; otherwise exactly one account is added at the old count, with number, name and credentials as given, balance 0, active, and one Account Creation record of amount 0; earlier accounts are unchanged; the new account's number is then findable; the invariant is kept |
| `Ledger.Deposit` | bank_system.c:362-405 | unknown account, wrong PIN and amount ≤ 0 are each reported, in that order, exactly when they occur, and leave the table unchanged; the deposit succeeds exactly when the account is found, the PIN matches and the amount is positive; then only that account changes, its balance rises by exactly the amount, which is returned, and a Deposit record is appended only if the history has room; the invariant is kept |
| `Ledger.Withdraw` | bank_system.c:417-466 | as deposit, plus `InsufficientBalance` exactly when the amount exceeds the balance; the withdrawal succeeds exactly when the account is found, the PIN matches and 0 < amount ≤ balance; then the balance falls by exactly the amount and stays ≥ 0; a Withdrawal record is appended under the same capacity gate; the invariant is kept |
| `Ledger.Balance` | bank_system.c:469-497 | unknown account and wrong PIN are reported exactly when they occur; the query succeeds exactly when the account is found and the PIN matches, and then returns holder, number and balance of the account found |
| `Ledger.HistoryOf` | bank_system.c:499-541 | unknown account and wrong PIN are reported exactly when they occur; the query succeeds exactly when the account is found and the PIN matches, and then returns holder, number and the whole history in append order (possibly empty) |
| `Ledger.Delete` | bank_system.c:553-600 | unknown account, PIN-or-password mismatch and a non-y/Y answer are reported exactly when they occur and change nothing; the deletion happens exactly when the account is found, both credentials match and the answer is y or Y; then only that account changes: it becomes inactive, keeps its balance, gets an Account Deletion record carrying that balance if there is room, and no lookup of any number returns it afterwards; the invariant is kept |
| `Ledger.Login` | bank_system.c:299-312 | succeeds exactly when an active account with that number exists and both PIN and password match; the only errors are not found and invalid credentials |
| `BankSystem.Bank.constructor` | bank_system.c:32-33 | a fresh 100-slot table with count 0 |
| `BankSystem.Bank.FindAccount` | bank_system.c:280-287 | the linear scan over `accounts[0..accountCount)` returns what `Ledger.Find` specifies |
| `BankSystem.Bank.CreateAccount` | bank_system.c:218-274 | writes `accounts[accountCount]` and increments the count exactly as `Ledger.Create` specifies, and keeps `Valid()` |
| `BankSystem.Bank.LoginAccount` | bank_system.c:299-312 | performs the credential check as `Ledger.Login` specifies, changing nothing |
| `BankSystem.Bank.DepositMoney` | bank_system.c:362-405 | updates the found slot in place exactly as `Ledger.Deposit` specifies, and keeps `Valid()` |
| `BankSystem.Bank.WithdrawMoney` | bank_system.c:417-466 | updates the found slot in place exactly as `Ledger.Withdraw` specifies, and keeps `Valid()` |
| `BankSystem.Bank.CheckBalance` | bank_system.c:476-496 | returns what `Ledger.Balance` specifies, changing nothing |
| `BankSystem.Bank.ViewTransactionHistory` | bank_system.c:506-535 | returns what `Ledger.HistoryOf` specifies, changing nothing |
| `BankSystem.Bank.DeleteAccount` | bank_system.c:553-597 | updates the found slot in place exactly as `Ledger.Delete` specifies, and keeps `Valid()` |
| `LedgerProperties.ApplyEvolves` | bank_system.c:218-601 | one operation of any kind keeps the invariant, never removes or renumbers an account, only extends histories, and leaves inactive accounts untouched |
| `LedgerProperties.RunPreservesInvariant` | bank_system.c:14-33 | after any sequence of operations, the count is ≤ 100, every history is ≤ 100, every balance is ≥ 0 and all credentials are well formed |
| `LedgerProperties.RunEvolves` | bank_system.c:272 | after any sequence of operations, the table has only grown, every account keeps its number, name and credentials, every history extends the earlier one, and a soft-deleted account is exactly as it was |
| `LedgerProperties.DeletedStaysUnreachable` | bank_system.c:577 | once an account is inactive, no lookup of any number returns its index after any sequence of operations |
| `LedgerProperties.DepositAgain` | bank_system.c:389-403 | after a successful deposit the same number still finds the same account with the same PIN, its balance has risen by the amount and its history has the bounded append, so repeating the deposit succeeds |
| `LedgerProperties.DepositTwice` | bank_system.c:389-403 | two identical deposits are not idempotent: the second succeeds too and reaches the same account, the balance rises by twice the amount and, with room, two Deposit records are appended |
| `LedgerProperties.AppendTwice` | bank_system.c:401-403 | two bounded appends to a history with room for both add both entries in order |
| `LedgerProperties.DeleteUniqueNotFound` | bank_system.c:577 | when no other active account shares the number, the lookup after a deletion reports not found |
| `LedgerProperties.DeleteWithSharedNumber` | bank_system.c:225 | with two accounts under one number, deleting the first makes the lookup return the second |
| `LedgerProperties.AliceSession` | bank_system.c:218-497 | create Alice (PIN 1234, password Passw0rd): balance 0, one Account Creation record; deposit 15000: balance 15000, second record Deposit/15000; withdraw 20000: `InsufficientBalance`, table unchanged; withdraw 15000: balance 0, third record Withdrawal/15000; balance query with PIN 0000: `InvalidPin` |

## Left out

- `saveToFile` and `loadFromFile` (bank_system.c:69-91) are left out. They dump and
  read raw struct memory, which is file I/O with no visible encoding. The model keeps
  only the in-memory table. So it also does not model that a failed save leaves memory
  and disk different, or that `loadFromFile` trusts the stored count without checking
  it against the capacity.
- `mainMenu`, the post-login menu loop, `clearInputBuffer` and every prompt and
  `printf` are left out, because they are console I/O. The model does not keep any
  session state between a login and the operations that follow it; the program does
  not either.
- `hidePassword` is left out. It reads characters with echo suppressed and has
  backspace handling. It keeps at most 8 characters and silently drops the rest, so a
  typed "Passw0rdXYZ" arrives as "Passw0rd" and passes the credential checks of login
  and `deleteAccount` (bank_system.c:566-567). It also caps input at 8 characters when
  it writes into the 5-byte PIN buffers. The model's credentials are the buffer
  contents after this truncation, as plain strings; the model does not capture that
  longer typed input is accepted.
- `generateAccountNumber` and `getCurrentDateTime` are left out, because they use the
  random generator and the clock. Their results are parameters. No collision check is
  added.
- The re-prompting loops for PIN and password in `createAccount` are left out, because
  they are console I/O. They become a single `ValidationFailed` outcome that the caller
  may retry.
- Balances and amounts are `double` in the program. The model uses integer cents, so it
  has no floating-point rounding and no NaN or infinity.
- `Ledger.Deposit`, `Ledger.Withdraw`: the balance ≥ 0 guarantee (and with it
  `LedgerProperties.RunPreservesInvariant`) holds for amounts that are numbers. The
  program reads the amount with `scanf("%lf")` (bank_system.c:381, 436), which also
  accepts `nan` and `inf`. A NaN amount fails every comparison, so it passes
  `amount <= 0` (384) and `amount > balance` (444), and the balance becomes NaN
  (389, 449). An infinite deposit makes the balance infinite. These inputs have no
  counterpart among integer cents.
- Credentials are strings of characters. `strlen`, `isdigit`, `isupper` and
  `islower` (bank_system.c:110-137) work on bytes, so the model assumes ASCII
  credentials without an embedded NUL. A non-ASCII password such as "Pässw0rd" has
  8 characters and 9 UTF-8 bytes: `IsPassword` accepts it but `validatePassword`
  rejects it.
- Fixed-width character buffers are left out. `fgets` truncates the name to 49
  characters, and `scanf("%s")` can overrun the 5-byte PIN buffer. Strings are
  unbounded sequences in the model.
- `Ledger.Create`: the account number is drawn from the generator's range, and the
  model does not state that the random number differs from existing ones. The code
  does not promise this either.
