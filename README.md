# Bank accounts: ledger, withdrawal policies and the account file

A Dafny model of the core of a small Java banking program:

- **Transactions** (`transaction.dfy`). The write-once transaction record: a type tag (`'D'` or `'W'`), the amount, the balance after the event and a description. There is also the chaining property that ties a log of such records to the balance it ends at.
- **Accounts** (`account.dfy`). `BankAccount`, `CheckingAccount` and `SavingsAccount` become one `Account` class whose kind is fixed at construction.
  - `Deposit` always commits.
  - `Withdraw` picks its guard from the kind:
    - a plain or savings account commits only when the balance covers the amount;
    - a checking account may go down to -$200.00.
  - The monthly interest rate and monthly interest are pure functions of the account's state.
- **The account file** (`line_format.dfy`, with `text.dfy` and `numbers.dfy` for Java's `trim`, `split(",")`, `%d`, `%.2f`, `Integer.parseInt` and `Double.parseDouble`).
  - Each account is one line, `kind,id,name,balance,rate`. Commas in the name are written as semicolons, and semicolons are read back as commas.
  - Load goes through the lines in order. It skips lines that are blank or have fewer than five fields. It abandons the whole file at the first line whose ID, balance or rate does not parse.
- **The account store** (`bank_system.dfy`). The `BankSystem` list of accounts and its operations:
  - the two create operations, which append;
  - the first-match lookup by ID;
  - save, which returns the lines it writes;
  - load, which is given the file's lines, or `None` for a missing file. Load replaces the list wholesale only when the whole file has been read.

Money is integer cents and the annual interest rate is an integer number of hundredths of a percent. The source keeps both in `double`; with integers the withdrawal guards and the save/load round trip are exact. The monthly interest, a fraction of a cent, is a `real`. Account IDs have Java's 32-bit `int` range (`Int32`), which `Integer.parseInt` enforces on load.

`sequences.dfy` (element-wise `Map`) and `wrappers.dfy` (`Option`, `Result`) are support modules.

## Model

| member | source | states |
|---|---|---|
| Transactions.ChainedLogAccountsForBalance | src/BankAccount.java:236-240 | in a log where each record's balance-after is the previous one moved by its deposit or withdrawal, the last balance-after is the first plus the net effect of every later record |
| Accounts.Floor | src/CheckingAccount.java:12 | the lowest balance a committed withdrawal may leave is never positive: -$200.00 for checking, zero otherwise |
| Accounts.Permits | src/CheckingAccount.java:60-68 | the withdrawal guard of each kind (the plain guard of src/BankAccount.java:216, the checking guard here, the savings guard of src/SavingsAccount.java:58) holds exactly when the new balance is not below the kind's floor: checking may reach -$200.00, savings and plain cannot go below zero |
| Accounts.CheckingIsMostPermissive | src/SavingsAccount.java:57-65 | savings and plain accounts accept exactly the same withdrawals; a checking account accepts every one of them, and also a withdrawal down to exactly -$200.00 that they refuse |
| Accounts.WithdrawalExamples | src/CheckingAccount.java:48-67 | checking goes from $50.00 to -$150.00 but refuses -$210.00; savings may go exactly to zero but not one cent below |
| Accounts.DeclineMessageNamesKind | src/CheckingAccount.java:65-67 | the three kinds decline with three different messages (this one, src/BankAccount.java:221 and src/SavingsAccount.java:63), so the message tells which policy refused |
| Accounts.Account.Default | src/BankAccount.java:40-47 | the no-argument constructor of any kind (the subclasses only call it) gives name "NoName", ID 0, balance 0, rate 0, an empty log and a consistent ledger |
| Accounts.Account.constructor | src/BankAccount.java:62-69 | for any kind (the subclasses only call it), name, ID and balance are stored as given, the rate is 0 and the log is empty |
| Accounts.Account.SetBalance | src/BankAccount.java:159-161 | only the balance changes, nothing is logged, and the ledger invariant then holds exactly when the last record already shows the new balance |
| Accounts.Account.SetAnnualInterestRate | src/BankAccount.java:163-165 | only the rate changes |
| Accounts.Account.MonthlyInterestRate | src/BankAccount.java:185-187 | the monthly rate times 12 times 100 is the annual percentage |
| Accounts.Account.MonthlyInterest | src/BankAccount.java:199-201 | twelve months of interest are the balance times the annual rate as a fraction |
| Accounts.InterestFollowsBalanceSign | src/BankAccount.java:199-201 | with a non-negative rate, the interest has the sign of the balance |
| Accounts.InterestExample | src/BankAccount.java:174-177 | 1.5% a year is 0.00125 a month, as the source's own example says; on $1200.00 that is $1.50 |
| Accounts.Account.Deposit | src/BankAccount.java:236-240 | the balance grows by the amount, whatever its sign; exactly one deposit record with the amount and the new balance is appended; earlier records, ID, name and rate are unchanged; the ledger invariant is preserved |
| Accounts.Account.Withdraw | src/BankAccount.java:215-223 | commits exactly when the kind's guard holds on the old balance (the plain guard here, the overridden checking and savings guards of src/CheckingAccount.java:60-68 and src/SavingsAccount.java:57-65 by kind); on commit the balance drops by the amount, stays at or above the kind's floor, and exactly one withdrawal record with the new balance is appended; on decline it reports the kind's own message and balance and log are unchanged; the ledger invariant is preserved |
| Text.Trim | src/BankSystem.java:354 | the result is the infix of the input left after removing the run of blanks at its start and the run at its end: every character before and after it is a blank, it has no blank at either end, and it is empty exactly when every character is blank |
| Text.IndexOf | src/BankSystem.java:359 | the position of the first occurrence of the character, or the length when it does not occur |
| Text.Fields | src/BankSystem.java:359 | splitting at every comma yields at least one field, and no field holds a comma |
| Text.FieldsCons | src/BankSystem.java:359 | a comma-free field followed by a comma is the first field of the line, and the rest of the line gives the other fields |
| Text.JoinEnds | src/BankSystem.java:321 | a line joined from fields starts with the first field and ends with the last one |
| Text.JoinFields | src/BankSystem.java:321 | joining the comma-separated fields of a string with commas gives the string back |
| Text.FieldsJoin | src/BankSystem.java:359 | fields without commas, joined with commas and split again, come back unchanged |
| Text.DropTrailingEmpty | src/BankSystem.java:359 | `split` removes exactly the run of empty fields at the end, keeping everything before it |
| Text.Split | src/BankSystem.java:359 | a line without a comma is its own single field; otherwise the result is the comma-separated fields less exactly the run of empty fields at the end (every dropped field is empty, and the last kept field is not); no field holds a comma |
| Text.SplitJoin | src/BankSystem.java:359 | a line written as comma-free fields whose last field is not empty splits back into exactly those fields |
| Numbers.Digits | src/BankSystem.java:321 | the decimal digits of a number: at least one, no leading zero |
| Numbers.DigitsValueOfDigits | src/BankSystem.java:364 | reading back the digits of a number gives the number |
| Numbers.FormatInt | src/BankSystem.java:321-323 | `%d` writes a non-blank first character, ends in a digit and holds no comma |
| Numbers.ParseInt | src/BankSystem.java:364 | a parsed ID lies in Java's `int` range and the text starts with a digit or a sign |
| Numbers.ParseFormatInt | src/BankSystem.java:364 | every ID written with `%d` reads back as itself |
| Numbers.FormatCents | src/BankSystem.java:321-326 | `%.2f` puts the point third from the end, ends in a digit, starts with a non-blank and holds no comma |
| Numbers.ParseUnsignedPointTwo | src/BankSystem.java:366 | text of digits, a point and two digits is read as the whole part and the two fraction digits |
| Numbers.ParseUnitsAndCents | src/BankSystem.java:366 | whole units, a point and two digits read as units times 100 plus the two digits |
| Numbers.ParseDecimal | src/BankSystem.java:366-367 | a parsed amount comes from text that is not blank after trimming, and it is negative only when that text starts with a minus sign |
| Numbers.ParseFormatCents | src/BankSystem.java:366-367 | every balance or rate written with `%.2f` reads back as the same number of cents, negative amounts included |
| LineFormat.KindTagRoundTrip | src/BankSystem.java:311-318 | every tag save writes ("Checking", "Savings", "BankAccount") is read back as the kind it was written for |
| LineFormat.KindOfTagExamples | src/BankSystem.java:370-376 | the tag comparison ignores case, and an unknown or empty tag gives a plain account |
| LineFormat.KindTag | src/BankSystem.java:311-318 | the tag save writes is not empty, has no blank at either end and holds no comma, so it survives trim and split as the first field |
| LineFormat.EqualsIgnoreCase | src/BankSystem.java:370 | two strings are equal ignoring case exactly when they are the same once both are put in small letters |
| LineFormat.KindOfTag | src/BankSystem.java:370-376 | load builds a checking account exactly when the tag is "checking" in any case, a savings account exactly when it is "savings" in any case, and a plain account otherwise |
| LineFormat.EscapeName | src/BankSystem.java:320 | the written name has the same length, holds no comma, and differs only where the name had a comma |
| LineFormat.RestoreName | src/BankSystem.java:365 | the loaded name has the same length, holds no semicolon, and differs only where the field had a semicolon |
| LineFormat.RestoreEscapeName | src/BankSystem.java:365 | after a save and a load each semicolon of a name comes back as a comma; the name is unchanged exactly when it has no semicolon |
| LineFormat.DecodeLine | src/BankSystem.java:354-376 | a line is skipped exactly when it is blank after trimming or splits into fewer than five fields; any other line is decoded from its split fields; a name that load accepts never holds a semicolon |
| LineFormat.DecodeFields | src/BankSystem.java:360-376 | fewer than five fields are skipped; five or more are malformed exactly when the ID, the balance or the rate does not parse; otherwise the record holds the tag's kind, the parsed ID, balance and rate, and the name with semicolons turned back into commas |
| LineFormat.DecodeRecordFields | src/BankSystem.java:363-377 | the five fields save writes decode to the account's kind, ID, balance and rate, with the name passed through the substitution |
| LineFormat.EncodeLineFields | src/BankSystem.java:320-326 | a written line consists of exactly five comma-separated fields: the kind tag, the ID, the name with commas replaced, the balance and the rate |
| LineFormat.DecodeEncodeLine | src/BankSystem.java:320-367 | decoding a written line gives the record back with its name passed through the substitution, and gives exactly the same record when the name has no semicolon |
| LineFormat.SaveLines | src/BankSystem.java:310-327 | save writes one line per account, in list order, each being that account's encoded line |
| LineFormat.Collect | src/BankSystem.java:352-384 | load succeeds exactly when no line is malformed, yields at most one record per line, and on failure names the first malformed line |
| LineFormat.ParseLines | src/BankSystem.java:352-384 | loading the lines of an existing file succeeds exactly when no line is malformed; otherwise it fails at the first malformed line |
| LineFormat.CollectStep | src/BankSystem.java:353-379 | one more line: a skipped line adds nothing, an accepted line adds its record at the end, and a malformed line fails the load at its index |
| LineFormat.CollectFirstError | src/BankSystem.java:364-367 | when every earlier line loads, the first malformed line fails the whole load at its index |
| LineFormat.MalformedLineAbortsLoad | src/BankSystem.java:382-384 | a line with a number that does not parse abandons the load at that line, whatever follows it |
| LineFormat.BadIdAbortsLoad | src/BankSystem.java:364 | the line `checking,x,Jane,50.00,1.50`, whose ID is not a number, abandons the load at its own index whatever follows it |
| LineFormat.DecodeAllConcat | src/BankSystem.java:353-354 | each line is decoded on its own: decoding two runs of lines is decoding each run |
| LineFormat.CollectConcat | src/BankSystem.java:353-379 | loading two runs of lines one after the other succeeds exactly when each does, and yields the first run's records followed by the second's |
| LineFormat.SkippedLineIgnored | src/BankSystem.java:354-362 | a blank or short line neither aborts the load nor adds an account: the file loads exactly as without it |
| LineFormat.LoadSkipsBlankAndShortLines | src/BankSystem.java:355-362 | a saved account line followed by a blank line and a two-field line loads exactly one account |
| LineFormat.ReloadedAll | src/BankSystem.java:365 | each saved record comes back with only its name passed through the substitution |
| LineFormat.LoadSaved | src/BankSystem.java:308-380 | loading the lines save wrote gives every account back, in order, each with its name passed through the substitution |
| LineFormat.LoadSavedExact | src/BankSystem.java:320-365 | when no name holds a semicolon, loading what save wrote gives exactly the saved records |
| Bank.SnapshotLine | src/BankSystem.java:320-326 | the line save writes for an account has as its fields the kind tag, the ID, the name with commas replaced, the balance and the rate, as the account's getters return them |
| Bank.Snapshots | src/BankSystem.java:310 | the records of a list of accounts are one per account, in list order |
| Bank.FirstWithID | src/BankSystem.java:285-292 | the position of the first account with the ID, or the list length when none has it |
| Bank.BankSystem.constructor | src/BankSystem.java:25 | the account list starts empty |
| Bank.BankSystem.FindAccountByID | src/BankSystem.java:285-292 | null exactly when no account has the ID; otherwise the first account in list order that has it |
| Bank.BankSystem.CreateSavingsAccount | src/BankSystem.java:126-132 | a fresh savings account with the given name, ID, balance and rate and an empty log is appended at the end, with no duplicate-ID check |
| Bank.BankSystem.CreateCheckingAccount | src/BankSystem.java:156-162 | the same for a checking account |
| Bank.BankSystem.SaveAccounts | src/BankSystem.java:308-327 | the lines written are the encoded accounts, one per account, in list order |
| Bank.Rebuild | src/BankSystem.java:369-378 | load builds a fresh account of the decoded kind, name, ID and balance, then sets the decoded rate; its log is empty |
| Bank.ReadAccounts | src/BankSystem.java:352-379 | the loop yields distinct fresh accounts whose records are exactly what load accepts, or stops at the first malformed line |
| Bank.BankSystem.LoadAccounts | src/BankSystem.java:345-385 | a missing file or a malformed line leaves the list unchanged; otherwise the list is replaced wholesale by distinct fresh accounts with empty logs whose records are exactly what the file holds |

## Left out

- The console: `main`, `printMenu`, `viewSummary`, and the prompts and messages in the create, deposit and withdraw helpers of `BankSystem`. `depositToAccount` and `withdrawFromAccount` are a lookup followed by `Deposit` or `Withdraw`, which are modelled.
- Files themselves. Save returns the lines it would print. Load receives the file's lines, or `None` when the file does not exist. A name holding a line break, which the file could not keep on one line, is not considered.
- `java.util.Date` timestamps of accounts and transactions: wall-clock values with nothing to prove about them.
- `double` arithmetic. Amounts are integer cents and rates are integer hundredths of a percent. Rounding by `%.2f`, binary floating point, and amounts or rates with more than two decimals are not modelled. The monthly interest is an exact `real`.
- Numbers.ParseDecimal: accepts a subset of what `Double.parseDouble` accepts, namely surrounding blanks, an optional sign, digits, and an optional point followed by at most two digits. Exponents, hexadecimal, `NaN`, `Infinity`, a type suffix, a bare point and longer fractions are treated as unparseable. So a file holding `12.345` or `1e2` in a balance or rate field loads in the program but abandons the load in the model. Every amount save writes is accepted.
- Locale: `%.2f` is modelled with a point as the decimal separator. A locale writing a decimal comma would add a field to every line.
- `equalsIgnoreCase` and `trim` are modelled on ASCII; Unicode case folding is not. `Integer.parseInt` accepts non-ASCII digits; the model accepts only `0`-`9`.
- The text of a load exception. A failed load reports the index of the first line whose ID, balance or rate does not parse.
- Bank.BankSystem.LoadAccounts: the lines are decoded before the accounts are built, rather than interleaved line by line as in the source. Decoding is pure, so the accounts built and the outcome are the same.
- The getters of every class, and `setAccountID` / `setCustomerName` of `BankAccount`, which only read or overwrite one field.
- The `BankSystem` list is a field of one `BankSystem` object rather than a static field of the class.
