/**
 Properties that relate several ledger operations: what every sequence of
 operations preserves, that a deposit is not idempotent, the fate of a
 soft-deleted account, and a worked session.
 */
module LedgerProperties {
  import opened BankTypes
  import opened Validators
  import opened Ledger

  /** One operation a user can request, with its already-collected arguments. */
  datatype Command =
    | CreateCmd(number: AccountNumber, name: string, pin: string, password: string, date: string, time: string)
    | DepositCmd(n: int, pin: string, amount: int, date: string, time: string)
    | WithdrawCmd(n: int, pin: string, amount: int, date: string, time: string)
    | DeleteCmd(n: int, pin: string, password: string, confirm: char, date: string, time: string)
    | BalanceCmd(n: int, pin: string)
    | HistoryCmd(n: int, pin: string)
    | LoginCmd(n: int, pin: string, password: string)

  /** The table after one command; the queries and the login leave it as it was. */
  function Apply(t: seq<Account>, c: Command): seq<Account> {
    match c
    case CreateCmd(number, name, pin, password, date, time) => Create(t, number, name, pin, password, date, time).table
    case DepositCmd(n, pin, amount, date, time) => Ledger.Deposit(t, n, pin, amount, date, time).table
    case WithdrawCmd(n, pin, amount, date, time) => Withdraw(t, n, pin, amount, date, time).table
    case DeleteCmd(n, pin, password, confirm, date, time) => Delete(t, n, pin, password, confirm, date, time).table
    case BalanceCmd(_, _) => t
    case HistoryCmd(_, _) => t
    case LoginCmd(_, _, _) => t
  }

  /** The table after a session of commands, run in order. */
  function Run(t: seq<Account>, cs: seq<Command>): seq<Account>
    decreases |cs|
  {
    if cs == [] then t else Run(Apply(t, cs[0]), cs[1..])
  }

  /**
   What may change between two tables: the table only grows, no slot
   changes its number, holder or credentials, every history only grows at
   its end, and a soft-deleted account stays exactly as it was.
   */
  predicate Evolves(t: seq<Account>, t2: seq<Account>) {
    |t| <= |t2| &&
    forall i :: 0 <= i < |t| ==>
      && t2[i].accountNumber == t[i].accountNumber
      && t2[i].name == t[i].name
      && t2[i].pin == t[i].pin
      && t2[i].password == t[i].password
      && t[i].transactions <= t2[i].transactions
      && (!t[i].isActive ==> t2[i] == t[i])
  }

  /** Replacing one active account by one with the same identity and a longer history. */
  lemma UpdateEvolves(t: seq<Account>, t2: seq<Account>, i: int)
    requires 0 <= i < |t| && t[i].isActive && OnlyAt(t, t2, i)
    requires t2[i].accountNumber == t[i].accountNumber && t2[i].name == t[i].name
    requires t2[i].pin == t[i].pin && t2[i].password == t[i].password
    requires t[i].transactions <= t2[i].transactions
    ensures Evolves(t, t2)
  {
  }

  lemma ApplyEvolves(t: seq<Account>, c: Command)
    ensures Evolves(t, Apply(t, c))
    ensures TableInvariant(t) ==> TableInvariant(Apply(t, c))
  {
    match c
    case CreateCmd(number, name, pin, password, date, time) =>
      var s := Create(t, number, name, pin, password, date, time);
      assert forall i :: 0 <= i < |t| ==> s.table[i] == t[i];
    case DepositCmd(n, pin, amount, date, time) =>
      var s := Ledger.Deposit(t, n, pin, amount, date, time);
      if s.result.Ok? {
        UpdateEvolves(t, s.table, Find(t, n));
      }
    case WithdrawCmd(n, pin, amount, date, time) =>
      var s := Withdraw(t, n, pin, amount, date, time);
      if s.result.Ok? {
        UpdateEvolves(t, s.table, Find(t, n));
      }
    case DeleteCmd(n, pin, password, confirm, date, time) =>
      var s := Delete(t, n, pin, password, confirm, date, time);
      if s.result == Ok(true) {
        UpdateEvolves(t, s.table, Find(t, n));
      }
    case _ =>
  }

  /** Capacities, non-negative balances and credential formats hold after any session. */
  lemma {:induction false} RunPreservesInvariant(t: seq<Account>, cs: seq<Command>)
    requires TableInvariant(t)
    ensures TableInvariant(Run(t, cs))
    decreases |cs|
  {
    if cs != [] {
      ApplyEvolves(t, cs[0]);
      RunPreservesInvariant(Apply(t, cs[0]), cs[1..]);
    }
  }

  /** Accounts are never removed, histories never lose entries, deletion is final. */
  lemma {:induction false} RunEvolves(t: seq<Account>, cs: seq<Command>)
    ensures Evolves(t, Run(t, cs))
    decreases |cs|
  {
    if cs != [] {
      var t1 := Apply(t, cs[0]);
      ApplyEvolves(t, cs[0]);
      RunEvolves(t1, cs[1..]);
      var t2 := Run(t1, cs[1..]);
      forall i | 0 <= i < |t|
        ensures t[i].transactions <= t2[i].transactions
      {
        assert t[i].transactions <= t1[i].transactions <= t2[i].transactions;
      }
    }
  }

  /** A soft-deleted account is never again found by any lookup, whatever follows. */
  lemma DeletedStaysUnreachable(t: seq<Account>, cs: seq<Command>, i: int, m: int)
    requires 0 <= i < |t| && !t[i].isActive
    ensures Find(Run(t, cs), m) != i
  {
    RunEvolves(t, cs);
  }

  /**
   Two identical deposits are two monetary events: twice the amount and,
   with room in the history, two records. `s1` and `s2` are the outcomes
   of the first and the second deposit.
   */
  lemma DepositTwice(t: seq<Account>, n: int, pin: string, amount: int, date: string, time: string,
                     s1: Step<int>, s2: Step<int>)
    requires s1 == Ledger.Deposit(t, n, pin, amount, date, time) && s1.result.Ok?
    requires s2 == Ledger.Deposit(s1.table, n, pin, amount, date, time)
    ensures s2.result.Ok?
    ensures Find(s2.table, n) == Find(t, n)
    ensures s2.table[Find(t, n)].balance == t[Find(t, n)].balance + 2 * amount
    ensures |t[Find(t, n)].transactions| + 2 <= MAX_TRANSACTIONS ==>
              s2.table[Find(t, n)].transactions ==
                t[Find(t, n)].transactions + [Transaction(TransactionKind.Deposit, amount, date, time),
                                              Transaction(TransactionKind.Deposit, amount, date, time)]
  {
    DepositAgain(t, n, pin, amount, date, time, s1);
    DepositAgain(s1.table, n, pin, amount, date, time, s2);
    if |t[Find(t, n)].transactions| + 2 <= MAX_TRANSACTIONS {
      AppendTwice(t[Find(t, n)].transactions, Transaction(TransactionKind.Deposit, amount, date, time));
    }
  }

  /** Two bounded appends with room for both add both entries. */
  lemma AppendTwice(h: seq<Transaction>, tx: Transaction)
    requires |h| + 2 <= MAX_TRANSACTIONS
    ensures Append(Append(h, tx), tx) == h + [tx, tx]
  {
    assert h + [tx] + [tx] == h + [tx, tx];
  }

  /**
   After a successful deposit `s` the same number still leads to the same
   account, whose PIN is unchanged, so repeating the deposit succeeds too.
   */
  lemma DepositAgain(t: seq<Account>, n: int, pin: string, amount: int, date: string, time: string,
                     s: Step<int>)
    requires s == Ledger.Deposit(t, n, pin, amount, date, time) && s.result.Ok?
    ensures Find(s.table, n) == Find(t, n)
    ensures s.table[Find(t, n)].pin == pin
    ensures s.table[Find(t, n)].balance == t[Find(t, n)].balance + amount
    ensures s.table[Find(t, n)].transactions ==
              Append(t[Find(t, n)].transactions, Transaction(TransactionKind.Deposit, amount, date, time))
    ensures Ledger.Deposit(s.table, n, pin, amount, date, time).result.Ok?
  {
  }

  /** When no other active account shares the number, deletion makes it not found. */
  lemma DeleteUniqueNotFound(t: seq<Account>, n: int, pin: string, password: string, confirm: char,
                             date: string, time: string)
    requires Delete(t, n, pin, password, confirm, date, time).result == Ok(true)
    requires forall j :: 0 <= j < |t| && j != Find(t, n) ==> !Matches(t[j], n)
    ensures Find(Delete(t, n, pin, password, confirm, date, time).table, n) == -1
  {
  }

  /**
   Without a collision check two accounts can share a number: deleting the
   first makes the lookup reach the second instead of reporting not found.
   */
  lemma DeleteWithSharedNumber(date: string, time: string)
    ensures var t := [Opened(123456, "A", "1234", "Passw0rd", date, time),
                      Opened(123456, "B", "5678", "Secr3tAb", date, time)];
            && Delete(t, 123456, "1234", "Passw0rd", 'y', date, time).result == Ok(true)
            && Find(Delete(t, 123456, "1234", "Passw0rd", 'y', date, time).table, 123456) == 1
  {
  }

  lemma PasswordExample()
    ensures IsPassword("Passw0rd")
  {
    assert IsUpper("Passw0rd"[0]) && IsLower("Passw0rd"[1]) && IsDigit("Passw0rd"[5]);
  }

  /** Alice's account as the session leaves it after each step. */
  function AliceAt(balance: int, history: seq<Transaction>): Account {
    Account(123456, "Alice", balance, "1234", "Passw0rd", history, true)
  }

  lemma AliceOpens(d: string, tm: string)
    ensures Create([], 123456, "Alice", "1234", "Passw0rd", d, tm)
              == Step(Ok(0), [AliceAt(0, [Transaction(AccountCreation, 0, d, tm)])])
  {
    PasswordExample();
    assert IsPin("1234");
    var s := Create([], 123456, "Alice", "1234", "Passw0rd", d, tm);
    assert s.result == Ok(0);
    assert s.table == [AliceAt(0, [Transaction(AccountCreation, 0, d, tm)])];
  }

  lemma AliceDeposits(h: seq<Transaction>, d: string, tm: string)
    requires |h| < MAX_TRANSACTIONS
    ensures Ledger.Deposit([AliceAt(0, h)], 123456, "1234", 15000, d, tm)
              == Step(Ok(15000), [AliceAt(15000, h + [Transaction(TransactionKind.Deposit, 15000, d, tm)])])
  {
  }

  lemma AliceOverdraws(h: seq<Transaction>, d: string, tm: string)
    ensures Withdraw([AliceAt(15000, h)], 123456, "1234", 20000, d, tm)
              == Step(Err(InsufficientBalance), [AliceAt(15000, h)])
  {
  }

  lemma AliceWithdraws(h: seq<Transaction>, d: string, tm: string)
    requires |h| < MAX_TRANSACTIONS
    ensures Withdraw([AliceAt(15000, h)], 123456, "1234", 15000, d, tm)
              == Step(Ok(0), [AliceAt(0, h + [Transaction(Withdrawal, 15000, d, tm)])])
  {
  }

  lemma AliceWrongPin(balance: int, h: seq<Transaction>)
    ensures Balance([AliceAt(balance, h)], 123456, "0000") == Err(InvalidPin)
  {
  }

  /**
   A session: create "Alice" with PIN 1234 and password Passw0rd, deposit
   15000 cents, try to withdraw 20000, withdraw 15000, then ask for the
   balance with the wrong PIN.
   */
  lemma AliceSession(d: string, tm: string)
    ensures var c := Create([], 123456, "Alice", "1234", "Passw0rd", d, tm);
            var dep := Ledger.Deposit(c.table, 123456, "1234", 15000, d, tm);
            var over := Withdraw(dep.table, 123456, "1234", 20000, d, tm);
            var w := Withdraw(over.table, 123456, "1234", 15000, d, tm);
            && c.result == Ok(0)
            && c.table[0].balance == 0
            && c.table[0].transactions == [Transaction(AccountCreation, 0, d, tm)]
            && dep.result == Ok(15000)
            && |dep.table[0].transactions| == 2
            && dep.table[0].transactions[1] == Transaction(TransactionKind.Deposit, 15000, d, tm)
            && over.result == Err(InsufficientBalance)
            && over.table == dep.table
            && w.result == Ok(0)
            && |w.table[0].transactions| == 3
            && w.table[0].transactions[2] == Transaction(Withdrawal, 15000, d, tm)
            && Balance(w.table, 123456, "0000") == Err(InvalidPin)
  {
    var created := Transaction(AccountCreation, 0, d, tm);
    var deposited := Transaction(TransactionKind.Deposit, 15000, d, tm);
    var withdrawn := Transaction(Withdrawal, 15000, d, tm);
    AliceOpens(d, tm);
    AliceDeposits([created], d, tm);
    var h := [created] + [deposited];
    AliceOverdraws(h, d, tm);
    AliceWithdraws(h, d, tm);
    AliceWrongPin(0, h + [withdrawn]);
  }
}
