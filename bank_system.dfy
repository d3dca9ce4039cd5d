/**
 * The account store of src/BankSystem.java without its console: the list of
 * accounts, lookup by ID, the create helpers' append, and save and load.
 * Files are not opened here: save returns the lines it would print, and load
 * is given the file's lines, or `None` when the file does not exist.
 */
module Bank {
  import opened Wrappers
  import opened Accounts
  import opened Text
  import opened Numbers
  import opened LineFormat

  /** The record save writes for an account. */
  function Snapshot(a: Account): (rec: AccountRecord)
    reads a
  {
    AccountRecord(a.kind, a.accountID, a.customerName, a.balance, a.annualInterestRate)
  }

  /**
   * The line save writes for an account is its kind tag, ID, name with commas
   * replaced, balance and rate, as the account's getters return them.
   */
  lemma SnapshotLine(a: Account)
    ensures Fields(EncodeLine(Snapshot(a))) ==
      [KindTag(a.kind), FormatInt(a.accountID), EscapeName(a.customerName),
       FormatCents(a.balance), FormatCents(a.annualInterestRate)]
  {
    EncodeLineFields(Snapshot(a));
  }

  /** The records of a list of accounts, in list order. */
  function Snapshots(accs: seq<Account>): (rs: seq<AccountRecord>)
    reads set a | a in accs
    ensures |rs| == |accs|
    ensures forall i :: 0 <= i < |accs| ==> rs[i] == Snapshot(accs[i])
  {
    if accs == [] then [] else Snapshots(accs[..|accs| - 1]) + [Snapshot(accs[|accs| - 1])]
  }

  /**
   * Position of the first account with the given ID, or the list's length when
   * there is none.
   */
  function FirstWithID(accs: seq<Account>, id: int): (k: nat)
    reads set a | a in accs
    ensures k <= |accs|
    ensures forall j :: 0 <= j < k ==> accs[j].accountID != id
    ensures k < |accs| ==> accs[k].accountID == id
  {
    if accs == [] then 0
    else if accs[0].accountID == id then 0
    else FirstWithID(accs[1..], id) + 1
  }

  /**
   * The account load builds from one parsed line: the kind's constructor with
   * name, ID and balance, then the rate set on it.
   */
  method Rebuild(rec: AccountRecord) returns (acc: Account)
    ensures fresh(acc)
    ensures Snapshot(acc) == rec && acc.transactions == []
  {
    acc := new Account(rec.kind, rec.customerName, rec.accountID, rec.balance);
    acc.SetAnnualInterestRate(rec.annualInterestRate);
  }

  /**
   * The loop of load, over the outcomes of decoding the file's lines in order:
   * every parsed record becomes a fresh account, a skipped line adds nothing,
   * and the first malformed line stops the loop with its index.
   */
  method ReadAccounts(results: seq<LineResult>) returns (read: Result<seq<Account>, nat>)
    ensures read.Err? ==> Collect(results) == Err(read.error)
    ensures read.Ok? ==> Collect(results) == Ok(Snapshots(read.value))
    ensures read.Ok? ==> forall k :: 0 <= k < |read.value| ==> fresh(read.value[k])
    ensures read.Ok? ==> forall k :: 0 <= k < |read.value| ==> read.value[k].transactions == []
    ensures read.Ok? ==> forall k, m :: 0 <= k < m < |read.value| ==> read.value[k] != read.value[m]
  {
    var loaded: seq<Account> := [];
    ghost var recs: seq<AccountRecord> := [];
    var i := 0;
    while i < |results|
      invariant 0 <= i <= |results|
      invariant Collect(results[..i]) == Ok(recs)
      invariant |recs| == |loaded|
      invariant forall k :: 0 <= k < |loaded| ==> Snapshot(loaded[k]) == recs[k]
      invariant forall k :: 0 <= k < |loaded| ==> fresh(loaded[k])
      invariant forall k :: 0 <= k < |loaded| ==> loaded[k].transactions == []
      invariant forall k, m :: 0 <= k < m < |loaded| ==> loaded[k] != loaded[m]
    {
      var res := results[i];
      CollectStep(results, i);
      if res.Malformed? {
        CollectFirstError(results, i);
        return Err(i);
      }
      if res.Parsed? {
        var acc := Rebuild(res.record);
        loaded := loaded + [acc];
        recs := recs + [res.record];
      }
      i := i + 1;
    }
    assert results[..|results|] == results;
    assert Snapshots(loaded) == recs;
    read := Ok(loaded);
  }

  /** What load reports. */
  datatype LoadOutcome =
    | NoFile               // "No file found to load accounts."
    | Loaded(count: nat)   // "Accounts loaded from file: ..."
    | LoadFailed(line: nat) // "Error loading accounts: ...", with the index of the offending line

  class BankSystem {
    /** The accounts, in the order they were created or loaded. */
    var accounts: seq<Account>

    constructor ()
      ensures accounts == []
    {
      accounts := [];
    }

    /**
     * A new savings account with the given name, ID, balance and rate is put
     * at the end of the list; duplicate IDs are not checked for.
     */
    method CreateSavingsAccount(name: string, id: Int32, initialBalance: int, rate: int) returns (acc: Account)
      modifies this
      ensures fresh(acc) && accounts == old(accounts) + [acc]
      ensures Snapshot(acc) == AccountRecord(Savings, id, name, initialBalance, rate)
      ensures acc.transactions == []
    {
      acc := new Account(Savings, name, id, initialBalance);
      acc.SetAnnualInterestRate(rate);
      accounts := accounts + [acc];
    }

    /**
     * A new checking account with the given name, ID, balance and rate is put
     * at the end of the list; duplicate IDs are not checked for.
     */
    method CreateCheckingAccount(name: string, id: Int32, initialBalance: int, rate: int) returns (acc: Account)
      modifies this
      ensures fresh(acc) && accounts == old(accounts) + [acc]
      ensures Snapshot(acc) == AccountRecord(Checking, id, name, initialBalance, rate)
      ensures acc.transactions == []
    {
      acc := new Account(Checking, name, id, initialBalance);
      acc.SetAnnualInterestRate(rate);
      accounts := accounts + [acc];
    }

    /** The first account in list order with this ID, or null when no account has it. */
    method FindAccountByID(id: int) returns (found: Account?)
      ensures found == null <==> forall j :: 0 <= j < |accounts| ==> accounts[j].accountID != id
      ensures found != null ==> found == accounts[FirstWithID(accounts, id)]
    {
      for i := 0 to |accounts|
        invariant forall j :: 0 <= j < i ==> accounts[j].accountID != id
        invariant FirstWithID(accounts, id) >= i
      {
        if accounts[i].accountID == id {
          return accounts[i];
        }
      }
      return null;
    }

    /** The lines save writes: one per account, in list order. */
    method SaveAccounts() returns (lines: seq<string>)
      ensures lines == SaveLines(Snapshots(accounts))
    {
      lines := [];
      for i := 0 to |accounts|
        invariant |lines| == i
        invariant forall j :: 0 <= j < i ==> lines[j] == EncodeLine(Snapshot(accounts[j]))
      {
        lines := lines + [EncodeLine(Snapshot(accounts[i]))];
      }
    }

    /**
     * Load: a missing file changes nothing. Otherwise the lines are decoded in
     * order and every accepted line becomes a fresh account; a line with a
     * malformed number abandons the load and leaves the list as it was; only
     * when every line has been read does the new list replace the old one
     * wholesale.
     */
    method LoadAccounts(file: Option<seq<string>>) returns (outcome: LoadOutcome)
      modifies this
      ensures file.None? ==> outcome == NoFile && accounts == old(accounts)
      ensures file.Some? && ParseLines(file.value).Err? ==>
        outcome == LoadFailed(ParseLines(file.value).error) && accounts == old(accounts)
      ensures file.Some? && ParseLines(file.value).Ok? ==>
        outcome == Loaded(|accounts|) && Snapshots(accounts) == ParseLines(file.value).value
      ensures file.Some? && ParseLines(file.value).Ok? ==>
        forall i :: 0 <= i < |accounts| ==> fresh(accounts[i]) && accounts[i].transactions == []
      ensures forall i, j :: 0 <= i < j < |accounts| && accounts != old(accounts) ==> accounts[i] != accounts[j]
    {
      if file.None? {
        return NoFile;
      }
      var read := ReadAccounts(DecodeAll(file.value));
      if read.Err? {
        return LoadFailed(read.error);
      }
      accounts := read.value;
      outcome := Loaded(|accounts|);
    }
  }
}
