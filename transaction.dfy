/**
 * One balance-changing event in an account's log (src/Transaction.java).
 * A datatype value: it is written once, when it is created, and afterwards
 * only read, which is exactly what the source's private fields with getters
 * and no setters give. The creation timestamp is not modelled.
 */
module Transactions {

  /** Type tag of a deposit record. */
  const DEPOSIT: char := 'D'
  /** Type tag of a withdrawal record. */
  const WITHDRAWAL: char := 'W'

  /**
   * `amount` and `balanceAfter` are in cents. The constructor accepts any
   * tag and any amount: the source validates neither.
   */
  datatype Transaction = Transaction(
    transactionType: char,
    amount: int,
    balanceAfter: int,
    description: string)

  /** The signed change a record stands for: deposits add, withdrawals subtract. */
  function Effect(t: Transaction): int
  {
    if t.transactionType == DEPOSIT then t.amount
    else if t.transactionType == WITHDRAWAL then -t.amount
    else 0
  }

  /**
   * A log is chained when every record's balance-after is the previous
   * record's balance-after moved by the record's own effect.
   */
  ghost predicate Chained(log: seq<Transaction>)
  {
    forall i :: 0 < i < |log| ==> log[i].balanceAfter == log[i - 1].balanceAfter + Effect(log[i])
  }

  /** Sum of the effects of a run of records. */
  function NetEffect(log: seq<Transaction>): int
  {
    if log == [] then 0 else NetEffect(log[..|log| - 1]) + Effect(log[|log| - 1])
  }

  /**
   * In a chained log the last balance-after is the first one plus the net
   * effect of every later record: the log alone accounts for how the balance
   * moved since the first recorded event.
   */
  lemma {:induction false} ChainedLogAccountsForBalance(log: seq<Transaction>)
    requires Chained(log) && log != []
    ensures log[|log| - 1].balanceAfter == log[0].balanceAfter + NetEffect(log[1..])
  {
    if |log| > 1 {
      var init := log[..|log| - 1];
      assert Chained(init);
      ChainedLogAccountsForBalance(init);
      assert log[1..][..|log[1..]| - 1] == init[1..];
    }
  }
}
