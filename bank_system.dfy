/**
 The program's global state: a fixed-capacity array of account records and
 the count of slots in use, updated in place by the ledger operations.
 Each operation takes the arguments the console would have collected and
 returns an outcome code; each is proved to agree with the function of
 the same name in module Ledger.
 */
module BankSystem {
  import opened BankTypes
  import opened Validators
  import Ledger

  class Bank {
    var accounts: array<Account>
    var accountCount: nat

    /** Capacity is respected and every created account satisfies its invariant. */
    ghost predicate Valid()
      reads this, accounts
    {
      && accounts.Length == MAX_ACCOUNTS
      && accountCount <= MAX_ACCOUNTS
      && Ledger.TableInvariant(accounts[..accountCount])
    }

    /** The accounts created so far, soft-deleted ones included, in creation order. */
    ghost function Table(): seq<Account>
      reads this, accounts
      requires Valid()
    {
      accounts[..accountCount]
    }

    /** An empty table: every slot zero-initialised, count 0. */
    constructor ()
      ensures Valid() && fresh(accounts)
      ensures Table() == []
    {
      accounts := new Account[MAX_ACCOUNTS](_ => Blank);
      accountCount := 0;
    }

    /** Linear scan for the first active account numbered `n`; -1 when none. */
    method FindAccount(n: int) returns (index: int)
      requires Valid()
      ensures index == Ledger.Find(Table(), n)
      ensures -1 <= index < accountCount
    {
      var i := 0;
      while i < accountCount
        invariant 0 <= i <= accountCount
        invariant forall j :: 0 <= j < i ==> !Ledger.Matches(Table()[j], n)
      {
        if accounts[i].accountNumber == n && accounts[i].isActive {
          return i;
        }
        i := i + 1;
      }
      return -1;
    }

    /**
     Creates an account with zero balance and one creation record in the
     next free slot, unless the table is full or a credential has the wrong
     format. Number, date and time come from the generator and the clock.
     */
    method CreateAccount(number: AccountNumber, name: string, pin: string, password: string,
                         date: string, time: string) returns (result: Result<nat>)
      requires Valid()
      modifies this`accountCount, accounts
      ensures Valid()
      ensures var s := Ledger.Create(old(Table()), number, name, pin, password, date, time);
              result == s.result && Table() == s.table
    {
      if accountCount >= MAX_ACCOUNTS {
        return Err(TableFull);
      }
      var pinOk := ValidatePin(pin);
      var passwordOk := ValidatePassword(password);
      if !(pinOk && passwordOk) {
        return Err(ValidationFailed);
      }
      var creation := Transaction(AccountCreation, 0, date, time);
      var newAccount := Account(number, name, 0, pin, password, [creation], true);
      accounts[accountCount] := newAccount;
      accountCount := accountCount + 1;
      assert Table() == old(Table()) + [newAccount];
      result := Ok(accountCount - 1);
    }

    /** The credential check of the login: PIN and password must both match. */
    method LoginAccount(n: int, pin: string, password: string) returns (result: Result<()>)
      requires Valid()
      ensures result == Ledger.Login(Table(), n, pin, password)
    {
      var index := FindAccount(n);
      if index == -1 {
        return Err(AccountNotFound);
      }
      if accounts[index].pin == pin && accounts[index].password == password {
        return Ok(());
      }
      return Err(InvalidCredentials);
    }

    /** Adds a positive amount to a PIN-verified account; returns the new balance. */
    method DepositMoney(n: int, pin: string, amount: int, date: string, time: string)
      returns (result: Result<int>)
      requires Valid()
      modifies accounts
      ensures Valid()
      ensures var s := Ledger.Deposit(old(Table()), n, pin, amount, date, time);
              result == s.result && Table() == s.table
    {
      ghost var t := Table();
      var index := FindAccount(n);
      if index == -1 {
        return Err(AccountNotFound);
      }
      if accounts[index].pin != pin {
        return Err(InvalidPin);
      }
      if amount <= 0 {
        return Err(InvalidAmount);
      }
      var a := accounts[index];
      assert a == t[index];
      a := a.(balance := a.balance + amount);
      if |a.transactions| < MAX_TRANSACTIONS {
        a := a.(transactions := a.transactions + [Transaction(TransactionKind.Deposit, amount, date, time)]);
      }
      accounts[index] := a;
      assert Table() == t[index := a];
      result := Ok(a.balance);
    }

    /** Takes a positive amount no larger than the balance; returns the new balance. */
    method WithdrawMoney(n: int, pin: string, amount: int, date: string, time: string)
      returns (result: Result<int>)
      requires Valid()
      modifies accounts
      ensures Valid()
      ensures var s := Ledger.Withdraw(old(Table()), n, pin, amount, date, time);
              result == s.result && Table() == s.table
    {
      ghost var t := Table();
      var index := FindAccount(n);
      if index == -1 {
        return Err(AccountNotFound);
      }
      if accounts[index].pin != pin {
        return Err(InvalidPin);
      }
      if amount <= 0 {
        return Err(InvalidAmount);
      }
      if amount > accounts[index].balance {
        return Err(InsufficientBalance);
      }
      var a := accounts[index];
      assert a == t[index];
      a := a.(balance := a.balance - amount);
      if |a.transactions| < MAX_TRANSACTIONS {
        a := a.(transactions := a.transactions + [Transaction(Withdrawal, amount, date, time)]);
      }
      accounts[index] := a;
      assert Table() == t[index := a];
      result := Ok(a.balance);
    }

    /** Reports holder, number and balance of a PIN-verified account. */
    method CheckBalance(n: int, pin: string) returns (result: Result<BalanceInfo>)
      requires Valid()
      ensures result == Ledger.Balance(Table(), n, pin)
    {
      var index := FindAccount(n);
      if index == -1 {
        return Err(AccountNotFound);
      }
      if accounts[index].pin != pin {
        return Err(InvalidPin);
      }
      var a := accounts[index];
      result := Ok(BalanceInfo(a.name, a.accountNumber, a.balance));
    }

    /** Reports holder, number and the full history of a PIN-verified account. */
    method ViewTransactionHistory(n: int, pin: string) returns (result: Result<History>)
      requires Valid()
      ensures result == Ledger.HistoryOf(Table(), n, pin)
    {
      var index := FindAccount(n);
      if index == -1 {
        return Err(AccountNotFound);
      }
      if accounts[index].pin != pin {
        return Err(InvalidPin);
      }
      var a := accounts[index];
      result := Ok(History(a.name, a.accountNumber, a.transactions));
    }

    /**
     Soft-deletes an account whose PIN and password both match, once the
     holder answers y or Y; `Ok(false)` reports a cancellation.
     */
    method DeleteAccount(n: int, pin: string, password: string, confirm: char,
                         date: string, time: string) returns (result: Result<bool>)
      requires Valid()
      modifies accounts
      ensures Valid()
      ensures var s := Ledger.Delete(old(Table()), n, pin, password, confirm, date, time);
              result == s.result && Table() == s.table
    {
      var index := FindAccount(n);
      if index == -1 {
        return Err(AccountNotFound);
      }
      if !(accounts[index].pin == pin && accounts[index].password == password) {
        return Err(InvalidCredentials);
      }
      if !Ledger.Confirms(confirm) {
        return Ok(false);
      }
      var a := accounts[index];
      a := a.(isActive := false);
      if |a.transactions| < MAX_TRANSACTIONS {
        a := a.(transactions := a.transactions + [Transaction(AccountDeletion, a.balance, date, time)]);
      }
      accounts[index] := a;
      assert Table() == old(Table())[index := a];
      result := Ok(true);
    }
  }
}
