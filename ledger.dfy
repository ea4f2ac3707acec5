/**
 The ledger as functions over the account table's filled prefix
 `accounts[0..accountCount)`: lookup, creation, deposit, withdrawal, the
 two read-only queries, soft deletion and the login credential check.
 Each function gives the outcome and the table afterwards; the in-place
 implementation in module BankSystem is proved to agree with them.
 */
module Ledger {
  import opened BankTypes
  import opened Validators

  /** What every account the program creates satisfies. */
  predicate AccountInvariant(a: Account) {
    && 100000 <= a.accountNumber <= 999999
    && a.balance >= 0
    && IsPin(a.pin)
    && IsPassword(a.password)
    && |a.transactions| <= MAX_TRANSACTIONS
  }

  /** The table respects its capacity and every account its invariant. */
  predicate TableInvariant(t: seq<Account>) {
    |t| <= MAX_ACCOUNTS && forall i :: 0 <= i < |t| ==> AccountInvariant(t[i])
  }

  /** The lookup accepts an account only when its number matches and it is active. */
  predicate Matches(a: Account, n: int) {
    a.accountNumber == n && a.isActive
  }

  /** The index of the first active account numbered `n`, or -1 when there is none. */
  function Find(t: seq<Account>, n: int): (r: int)
    ensures -1 <= r < |t|
    ensures r == -1 <==> forall j :: 0 <= j < |t| ==> !Matches(t[j], n)
    ensures r != -1 ==> Matches(t[r], n) && forall j :: 0 <= j < r ==> !Matches(t[j], n)
  {
    if |t| == 0 then -1
    else if Matches(t[0], n) then 0
    else
      var k := Find(t[1..], n);
      assert forall j :: 1 <= j < |t| ==> t[j] == t[1..][j - 1];
      if k == -1 then -1 else k + 1
  }

  /** The bounded append: a full history silently drops the new entry. */
  function Append(h: seq<Transaction>, tx: Transaction): (r: seq<Transaction>)
    ensures h <= r
    ensures |h| < MAX_TRANSACTIONS ==> r == h + [tx]
    ensures |h| >= MAX_TRANSACTIONS ==> r == h
    ensures |h| <= MAX_TRANSACTIONS ==> |r| <= MAX_TRANSACTIONS
  {
    if |h| < MAX_TRANSACTIONS then h + [tx] else h
  }

  /** An outcome together with the table the operation leaves behind. */
  datatype Step<T> = Step(result: Result<T>, table: seq<Account>)

  /** `t2` is `t` with only slot `i` possibly replaced. */
  predicate OnlyAt(t: seq<Account>, t2: seq<Account>, i: int) {
    |t2| == |t| && forall j :: 0 <= j < |t| && j != i ==> t2[j] == t[j]
  }

  /** A fresh account: zero balance, active, one creation record of amount 0. */
  function Opened(number: AccountNumber, name: string, pin: string, password: string,
                  date: string, time: string): Account
  {
    Account(number, name, 0, pin, password, [Transaction(AccountCreation, 0, date, time)], true)
  }

  /**
   Account creation: refused when the table is full, then when the PIN or
   the password has the wrong format; otherwise the new account is written
   at the old count. The result is the new account's index.
   */
  function Create(t: seq<Account>, number: AccountNumber, name: string, pin: string,
                  password: string, date: string, time: string): (s: Step<nat>)
    ensures |t| >= MAX_ACCOUNTS ==> s == Step(Err(TableFull), t)
    ensures s.result == Err(ValidationFailed) <==>
              |t| < MAX_ACCOUNTS && !(IsPin(pin) && IsPassword(password))
    ensures s.result.Err? ==> s.table == t
    ensures s.result.Ok? <==> |t| < MAX_ACCOUNTS && IsPin(pin) && IsPassword(password)
    ensures s.result.Ok? ==>
              && s.result.value == |t|
              && |s.table| == |t| + 1
              && s.table[..|t|] == t
              && s.table[|t|].accountNumber == number
              && s.table[|t|].name == name
              && s.table[|t|].pin == pin
              && s.table[|t|].password == password
              && s.table[|t|].balance == 0
              && s.table[|t|].isActive
              && s.table[|t|].transactions == [Transaction(AccountCreation, 0, date, time)]
    // No collision check: the new account is reachable by its number, but
    // an earlier active account with the same number shadows it.
    ensures s.result.Ok? ==> Find(s.table, number) != -1
    ensures s.result.Ok? ==> (Find(s.table, number) == |t| <==> Find(t, number) == -1)
    ensures TableInvariant(t) ==> TableInvariant(s.table)
  {
    if |t| >= MAX_ACCOUNTS then Step(Err(TableFull), t)
    else if !(IsPin(pin) && IsPassword(password)) then Step(Err(ValidationFailed), t)
    else
      var t2 := t + [Opened(number, name, pin, password, date, time)];
      assert t2[..|t|] == t;
      assert forall j :: 0 <= j < |t| ==> t2[j] == t[j];
      Step(Ok(|t|), t2)
  }

  /**
   Deposit: the account must be found and the PIN must match; a
   non-positive amount is refused. The balance rises by the amount and a
   Deposit record is appended when the history has room. The result is the
   new balance.
   */
  function Deposit(t: seq<Account>, n: int, pin: string, amount: int,
                   date: string, time: string): (s: Step<int>)
    ensures s.result == Err(AccountNotFound) <==> Find(t, n) == -1
    ensures s.result == Err(InvalidPin) <==> Find(t, n) != -1 && t[Find(t, n)].pin != pin
    ensures s.result == Err(InvalidAmount) <==>
              Find(t, n) != -1 && t[Find(t, n)].pin == pin && amount <= 0
    ensures s.result.Ok? <==> Find(t, n) != -1 && t[Find(t, n)].pin == pin && amount > 0
    ensures s.result.Err? ==> s.table == t
    ensures s.result.Ok? ==>
              var i := Find(t, n);
              && OnlyAt(t, s.table, i)
              && s.table[i].balance == t[i].balance + amount
              && s.result.value == s.table[i].balance
              && s.table[i].transactions == Append(t[i].transactions, Transaction(TransactionKind.Deposit, amount, date, time))
              && s.table[i] == t[i].(balance := s.table[i].balance, transactions := s.table[i].transactions)
    ensures TableInvariant(t) ==> TableInvariant(s.table)
  {
    var i := Find(t, n);
    if i == -1 then Step(Err(AccountNotFound), t)
    else if t[i].pin != pin then Step(Err(InvalidPin), t)
    else if amount <= 0 then Step(Err(InvalidAmount), t)
    else
      var a := t[i].(balance := t[i].balance + amount);
      var a2 := a.(transactions := Append(a.transactions, Transaction(TransactionKind.Deposit, amount, date, time)));
      Step(Ok(a2.balance), t[i := a2])
  }

  /**
   Withdrawal: as deposit, and additionally refused when the amount exceeds
   the balance, so the balance never becomes negative. The result is the
   new balance.
   */
  function Withdraw(t: seq<Account>, n: int, pin: string, amount: int,
                    date: string, time: string): (s: Step<int>)
    ensures s.result == Err(AccountNotFound) <==> Find(t, n) == -1
    ensures s.result == Err(InvalidPin) <==> Find(t, n) != -1 && t[Find(t, n)].pin != pin
    ensures s.result == Err(InvalidAmount) <==>
              Find(t, n) != -1 && t[Find(t, n)].pin == pin && amount <= 0
    ensures s.result == Err(InsufficientBalance) <==>
              Find(t, n) != -1 && t[Find(t, n)].pin == pin && 0 < amount && amount > t[Find(t, n)].balance
    ensures s.result.Ok? <==>
              Find(t, n) != -1 && t[Find(t, n)].pin == pin && 0 < amount <= t[Find(t, n)].balance
    ensures s.result.Err? ==> s.table == t
    ensures s.result.Ok? ==>
              var i := Find(t, n);
              && OnlyAt(t, s.table, i)
              && s.table[i].balance == t[i].balance - amount
              && s.result.value == s.table[i].balance
              && 0 <= s.result.value < t[i].balance
              && s.table[i].transactions == Append(t[i].transactions, Transaction(Withdrawal, amount, date, time))
              && s.table[i] == t[i].(balance := s.table[i].balance, transactions := s.table[i].transactions)
    ensures TableInvariant(t) ==> TableInvariant(s.table)
  {
    var i := Find(t, n);
    if i == -1 then Step(Err(AccountNotFound), t)
    else if t[i].pin != pin then Step(Err(InvalidPin), t)
    else if amount <= 0 then Step(Err(InvalidAmount), t)
    else if amount > t[i].balance then Step(Err(InsufficientBalance), t)
    else
      var a := t[i].(balance := t[i].balance - amount);
      var a2 := a.(transactions := Append(a.transactions, Transaction(Withdrawal, amount, date, time)));
      Step(Ok(a2.balance), t[i := a2])
  }

  /** The balance query, behind the PIN gate. */
  function Balance(t: seq<Account>, n: int, pin: string): (r: Result<BalanceInfo>)
    ensures r == Err(AccountNotFound) <==> Find(t, n) == -1
    ensures r == Err(InvalidPin) <==> Find(t, n) != -1 && t[Find(t, n)].pin != pin
    ensures r.Ok? <==> Find(t, n) != -1 && t[Find(t, n)].pin == pin
    ensures r.Ok? ==>
              var a := t[Find(t, n)];
              r.value == BalanceInfo(a.name, a.accountNumber, a.balance) && a.accountNumber == n
  {
    var i := Find(t, n);
    if i == -1 then Err(AccountNotFound)
    else if t[i].pin != pin then Err(InvalidPin)
    else Ok(BalanceInfo(t[i].name, t[i].accountNumber, t[i].balance))
  }

  /** The history query, behind the PIN gate: the whole history in append order. */
  function HistoryOf(t: seq<Account>, n: int, pin: string): (r: Result<History>)
    ensures r == Err(AccountNotFound) <==> Find(t, n) == -1
    ensures r == Err(InvalidPin) <==> Find(t, n) != -1 && t[Find(t, n)].pin != pin
    ensures r.Ok? <==> Find(t, n) != -1 && t[Find(t, n)].pin == pin
    ensures r.Ok? ==>
              var a := t[Find(t, n)];
              r.value == History(a.name, a.accountNumber, a.transactions) && a.accountNumber == n
  {
    var i := Find(t, n);
    if i == -1 then Err(AccountNotFound)
    else if t[i].pin != pin then Err(InvalidPin)
    else Ok(History(t[i].name, t[i].accountNumber, t[i].transactions))
  }

  /** The answers to the deletion prompt that confirm it. */
  predicate Confirms(confirm: char) {
    confirm == 'y' || confirm == 'Y'
  }

  /**
   Soft deletion: the account must be found and both PIN and password must
   match; an answer other than y/Y cancels (`Ok(false)`). Confirmed, the
   account is marked inactive, its balance is kept, and an Account Deletion
   record carrying that balance is appended when the history has room.
   */
  function Delete(t: seq<Account>, n: int, pin: string, password: string, confirm: char,
                  date: string, time: string): (s: Step<bool>)
    ensures s.result == Err(AccountNotFound) <==> Find(t, n) == -1
    ensures s.result == Err(InvalidCredentials) <==>
              Find(t, n) != -1 && (t[Find(t, n)].pin != pin || t[Find(t, n)].password != password)
    ensures s.result == Ok(false) <==>
              Find(t, n) != -1 && t[Find(t, n)].pin == pin && t[Find(t, n)].password == password
              && !Confirms(confirm)
    ensures s.result == Ok(true) <==>
              Find(t, n) != -1 && t[Find(t, n)].pin == pin && t[Find(t, n)].password == password
              && Confirms(confirm)
    ensures s.result != Ok(true) ==> s.table == t
    ensures s.result == Ok(true) ==>
              var i := Find(t, n);
              && OnlyAt(t, s.table, i)
              && !s.table[i].isActive
              && s.table[i].balance == t[i].balance
              && s.table[i].transactions == Append(t[i].transactions, Transaction(AccountDeletion, t[i].balance, date, time))
              && s.table[i] == t[i].(isActive := false, transactions := s.table[i].transactions)
              // the deleted account can no longer be reached by any lookup
              && forall m :: Find(s.table, m) != i
    ensures TableInvariant(t) ==> TableInvariant(s.table)
  {
    var i := Find(t, n);
    if i == -1 then Step(Err(AccountNotFound), t)
    else if t[i].pin != pin || t[i].password != password then Step(Err(InvalidCredentials), t)
    else if !Confirms(confirm) then Step(Ok(false), t)
    else
      var a := t[i].(isActive := false);
      var a2 := a.(transactions := Append(a.transactions, Transaction(AccountDeletion, a.balance, date, time)));
      Step(Ok(true), t[i := a2])
  }

  /** The login credential check: PIN and password must both match. */
  function Login(t: seq<Account>, n: int, pin: string, password: string): (r: Result<()>)
    ensures r == Err(AccountNotFound) <==> Find(t, n) == -1
    ensures r.Ok? <==>
              Find(t, n) != -1 && t[Find(t, n)].pin == pin && t[Find(t, n)].password == password
    ensures r.Err? ==> r.error == AccountNotFound || r.error == InvalidCredentials
  {
    var i := Find(t, n);
    if i == -1 then Err(AccountNotFound)
    else if t[i].pin != pin || t[i].password != password then Err(InvalidCredentials)
    else Ok(())
  }
}
