/**
 * The account and its withdrawal policy (src/BankAccount.java,
 * src/CheckingAccount.java, src/SavingsAccount.java).
 *
 * The source's three classes become one class whose kind is fixed when the
 * account is built; `Withdraw` selects its guard from the kind, deposit and
 * interest are shared. Money is held in cents and the annual rate in
 * hundredths of a percent, so the guards are exact.
 */
module Accounts {
  import opened Transactions

  /** Which class of the source an account is an instance of. */
  datatype Kind = Plain | Checking | Savings

  /** Java's `int`, the type of an account ID. */
  type Int32 = x: int | -0x8000_0000 <= x < 0x8000_0000

  /** A checking account may go this far below zero: $200.00, in cents. */
  const OVERDRAFT_LIMIT: int := 20000

  /** Name, ID and balance of an account built with the no-argument constructor. */
  const DEFAULT_NAME: string := "NoName"
  const DEFAULT_ID: Int32 := 0
  const DEFAULT_BALANCE: int := 0
  const DEFAULT_INTEREST_RATE: int := 0

  /**
   * The guard of each kind's `withdraw`: a plain account and a savings account
   * commit only when the balance covers the amount; a checking account commits
   * as long as the new balance stays at or above minus the overdraft limit.
   * Every kind's guard is therefore "the new balance is not below the kind's
   * floor": a committed withdrawal never leaves a checking account below
   * -$200.00 nor a plain or savings account below zero, and every withdrawal
   * that would stay above the floor is committed.
   */
  predicate Permits(kind: Kind, balance: int, amount: int): (ok: bool)
    ensures ok <==> balance - amount >= Floor(kind)
  {
    match kind
    case Plain => balance >= amount
    case Checking => balance - amount >= -OVERDRAFT_LIMIT
    case Savings => balance >= amount
  }

  /** The lowest balance a committed withdrawal may leave, per kind. */
  function Floor(kind: Kind): (f: int)
    ensures f <= 0
  {
    if kind == Checking then -OVERDRAFT_LIMIT else 0
  }

  /** A checking account accepts every withdrawal a plain or savings account accepts, and more. */
  lemma CheckingIsMostPermissive(balance: int, amount: int)
    ensures Permits(Plain, balance, amount) ==> Permits(Checking, balance, amount)
    ensures Permits(Savings, balance, amount) <==> Permits(Plain, balance, amount)
    ensures amount == balance + OVERDRAFT_LIMIT ==> Permits(Checking, balance, amount) && !Permits(Plain, balance, amount)
  {
  }

  /** The message the source prints when a withdrawal of this kind is declined. */
  function DeclineMessage(kind: Kind): string
  {
    match kind
    case Plain => "Insufficient funds for withdrawal."
    case Checking => "Withdrawal declined. Overdraft limit exceeded."
    case Savings => "Withdrawal declined. Savings cannot be overdrawn."
  }

  /** Each kind declines with its own message, so the message tells which policy refused. */
  lemma DeclineMessageNamesKind(k1: Kind, k2: Kind)
    ensures DeclineMessage(k1) == DeclineMessage(k2) <==> k1 == k2
  {
    var plain, checking, savings := DeclineMessage(Plain), DeclineMessage(Checking), DeclineMessage(Savings);
    assert |plain| == 34 && |checking| == 46 && |savings| == 49;
  }

  /** What a withdrawal reports to its caller. */
  datatype WithdrawOutcome = Committed | Declined(reason: string)

  /**
   * The ledger invariant: the log is chained and, once it holds a record, the
   * last record's balance-after is the current balance.
   */
  ghost predicate Consistent(log: seq<Transaction>, balance: int)
  {
    Chained(log) && (log != [] ==> log[|log| - 1].balanceAfter == balance)
  }

  class Account {
    const kind: Kind
    var accountID: Int32
    var customerName: string
    /** Current balance, in cents. */
    var balance: int
    /** Annual interest rate, in hundredths of a percent. */
    var annualInterestRate: int
    /** Append-only log, oldest first. */
    var transactions: seq<Transaction>

    /** The ledger invariant of this account. */
    ghost predicate LedgerConsistent()
      reads this
    {
      Consistent(transactions, balance)
    }

    /** The no-argument constructor of any of the three classes. */
    constructor Default(kind: Kind)
      ensures this.kind == kind
      ensures customerName == DEFAULT_NAME && accountID == DEFAULT_ID
      ensures balance == DEFAULT_BALANCE && annualInterestRate == DEFAULT_INTEREST_RATE
      ensures transactions == []
      ensures LedgerConsistent()
    {
      this.kind := kind;
      customerName := DEFAULT_NAME;
      accountID := DEFAULT_ID;
      balance := DEFAULT_BALANCE;
      annualInterestRate := DEFAULT_INTEREST_RATE;
      transactions := [];
    }

    /** The (name, ID, initial balance) constructor of any of the three classes. */
    constructor (kind: Kind, customerName: string, accountID: Int32, initialBalance: int)
      ensures this.kind == kind
      ensures this.customerName == customerName && this.accountID == accountID
      ensures balance == initialBalance && annualInterestRate == DEFAULT_INTEREST_RATE
      ensures transactions == []
      ensures LedgerConsistent()
    {
      this.kind := kind;
      this.customerName := customerName;
      this.accountID := accountID;
      balance := initialBalance;
      annualInterestRate := DEFAULT_INTEREST_RATE;
      transactions := [];
    }

    /** Overwrites the balance; nothing is logged. */
    method SetBalance(newBalance: int)
      modifies this
      ensures balance == newBalance
      ensures transactions == old(transactions)
      ensures accountID == old(accountID) && customerName == old(customerName)
      ensures annualInterestRate == old(annualInterestRate)
      ensures LedgerConsistent() <==> Chained(transactions) && (transactions != [] ==> transactions[|transactions| - 1].balanceAfter == newBalance)
    {
      balance := newBalance;
    }

    method SetAnnualInterestRate(rate: int)
      modifies this
      ensures annualInterestRate == rate
      ensures balance == old(balance) && transactions == old(transactions)
      ensures accountID == old(accountID) && customerName == old(customerName)
    {
      annualInterestRate := rate;
    }

    /**
     * Monthly rate as a fraction (not a percentage): the annual percentage
     * divided by 100 and by 12.
     */
    function MonthlyInterestRate(): (r: real)
      reads this
      ensures 1200.0 * r * 100.0 == annualInterestRate as real
    {
      (annualInterestRate as real / 100.0 / 100.0) / 12.0
    }

    /** Interest for one month on the current balance, in cents. */
    function MonthlyInterest(): (r: real)
      reads this
      ensures 12.0 * r == balance as real * annualInterestRate as real / 10000.0
    {
      balance as real * MonthlyInterestRate()
    }

    /**
     * Adds the amount, whatever its sign, and logs one deposit record holding
     * the amount and the new balance. There is no failure path.
     */
    method Deposit(amount: int, description: string)
      modifies this
      ensures balance == old(balance) + amount
      ensures transactions == old(transactions) + [Transaction(DEPOSIT, amount, balance, description)]
      ensures accountID == old(accountID) && customerName == old(customerName)
      ensures annualInterestRate == old(annualInterestRate)
      ensures old(LedgerConsistent()) ==> LedgerConsistent()
    {
      balance := balance + amount;
      var t := Transaction(DEPOSIT, amount, balance, description);
      transactions := transactions + [t];
    }

    /**
     * Withdraws under this account kind's guard. A committed withdrawal
     * subtracts the amount and logs one withdrawal record holding the new
     * balance; a declined one changes nothing and reports the kind's message.
     */
    method Withdraw(amount: int, description: string) returns (outcome: WithdrawOutcome)
      modifies this
      ensures outcome.Committed? <==> Permits(kind, old(balance), amount)
      ensures outcome.Committed? ==> balance == old(balance) - amount && balance >= Floor(kind)
      ensures outcome.Committed? ==>
        transactions == old(transactions) + [Transaction(WITHDRAWAL, amount, balance, description)]
      ensures outcome.Declined? ==>
        outcome.reason == DeclineMessage(kind) &&
        balance == old(balance) && transactions == old(transactions)
      ensures accountID == old(accountID) && customerName == old(customerName)
      ensures annualInterestRate == old(annualInterestRate)
      ensures old(LedgerConsistent()) ==> LedgerConsistent()
    {
      if Permits(kind, balance, amount) {
        balance := balance - amount;
        var t := Transaction(WITHDRAWAL, amount, balance, description);
        transactions := transactions + [t];
        outcome := Committed;
      } else {
        outcome := Declined(DeclineMessage(kind));
      }
    }
  }

  /** Interest never has the opposite sign of the balance when the rate is not negative. */
  lemma InterestFollowsBalanceSign(a: Account)
    requires a.annualInterestRate >= 0
    ensures a.balance >= 0 ==> a.MonthlyInterest() >= 0.0
    ensures a.balance <= 0 ==> a.MonthlyInterest() <= 0.0
  {
  }

  /** 1.5% a year is 0.00125 a month; on $1200.00 that is $1.50. */
  lemma InterestExample(a: Account)
    requires a.balance == 120000 && a.annualInterestRate == 150
    ensures a.MonthlyInterestRate() == 0.00125
    ensures a.MonthlyInterest() == 150.0
  {
  }

  /** Worked withdrawals: checking down to -$150.00, savings exactly to zero, and two refusals. */
  lemma WithdrawalExamples()
    ensures Permits(Checking, 5000, 20000)
    ensures !Permits(Checking, 5000, 26000)
    ensures Permits(Savings, 10000, 10000) && !Permits(Savings, 10000, 10001)
  {
  }
}
